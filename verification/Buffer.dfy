/**
 The growing byte buffer (IMServer/net/Buffer.h, IMServer/net/Buffer.cc).

 The storage is an array with a reader and a writer index. Every operation is specified by what it
 does to the readable bytes; where they sit in the array is the buffer's own business.
 */
module Buffer {
  import opened Bytes

  const CHEAP_PREPEND := 8
  const INITIAL_SIZE := 1024
  const EXTRA_BUF := 65536

  function Max(a: int, b: int): int {
    if a < b then b else a
  }

  /** What readv(2) answers. */
  datatype ReadResult = ReadError(errno: int) | ReadBytes(got: bytes)

  /** The readable bytes, where they start, and the size of the storage. */
  datatype Layout = Layout(content: bytes, reader: nat, size: nat) {

    function Writable(): nat {
      Max(size - reader - |content|, 0)
    }

    function Append(s: bytes): Layout {
      var v := MakeRoom(|s|);
      v.(content := v.content + s)
    }

    /** ensureWritableBytes: grow, or move the content to the front when that is enough. */
    function MakeRoom(len: nat): Layout {
      if Writable() >= len then this
      else if Writable() + reader < len + CHEAP_PREPEND then this.(size := reader + |content| + len)
      else this.(reader := CHEAP_PREPEND)
    }

    function Retrieve(len: nat): Layout
      requires len <= |content|
    {
      if len < |content| then this.(content := content[len..], reader := reader + len)
      else this.(content := [], reader := CHEAP_PREPEND)
    }

    function Prepend(s: bytes): Layout
      requires |s| <= reader
    {
      this.(content := s + content, reader := reader - |s|)
    }

    function Unwrite(len: nat): Layout
      requires len <= |content|
    {
      this.(content := content[..|content| - len])
    }

    function Shrink(reserve: nat): Layout {
      Layout(content, CHEAP_PREPEND, CHEAP_PREPEND + Max(INITIAL_SIZE, |content| + reserve))
    }

    /** How much one scatter read can deliver. */
    function Scatter(): nat {
      Writable() + (if Writable() < EXTRA_BUF then EXTRA_BUF else 0)
    }

    /** What fits goes to the tail; what spilled into the extra buffer is appended. */
    function ReadFd(result: ReadResult): Layout
      requires result.ReadBytes? ==> |result.got| <= Scatter()
    {
      match result
      case ReadError(_) => this
      case ReadBytes(got) =>
        if |got| <= Writable() then this.(content := content + got)
        else this.(content := content + got[..Writable()]).Append(got[Writable()..])
    }
  }

  lemma ReadContent(v: Layout, got: bytes)
    requires |got| <= v.Scatter()
    ensures v.ReadFd(ReadBytes(got)).content == v.content + got
  {
    if |got| > v.Writable() {
      var w := v.Writable();
      assert v.content + got == (v.content + got[..w]) + got[w..];
    }
  }

  class Buffer {
    var data: array<byte>
    var reader: nat
    var writer: nat

    ghost predicate Valid()
      reads this
    {
      CHEAP_PREPEND <= data.Length && reader <= writer <= data.Length
    }

    /** The readable bytes. */
    ghost function Contents(): bytes
      requires Valid()
      reads this, data
    {
      data[reader..writer]
    }

    ghost function View(): Layout
      requires Valid()
      reads this, data
    {
      Layout(Contents(), reader, data.Length)
    }

    constructor (initialSize: nat)
      ensures Valid() && fresh(data)
      ensures View() == Layout([], CHEAP_PREPEND, CHEAP_PREPEND + initialSize)
    {
      data := new byte[CHEAP_PREPEND + initialSize](_ => 0);
      reader := CHEAP_PREPEND;
      writer := CHEAP_PREPEND;
    }

    method Retrieve(len: nat)
      requires Valid() && len <= |Contents()|
      modifies this`reader, this`writer
      ensures Valid() && View() == old(View()).Retrieve(len)
      ensures Contents() == old(Contents())[len..]
    {
      if len < writer - reader {
        reader := reader + len;
      } else {
        RetrieveAll();
      }
    }

    method RetrieveAll()
      requires Valid()
      modifies this`reader, this`writer
      ensures Valid() && View() == old(View()).(content := [], reader := CHEAP_PREPEND)
    {
      reader := CHEAP_PREPEND;
      writer := CHEAP_PREPEND;
    }

    method RetrieveAsString(len: nat) returns (s: bytes)
      requires Valid() && len <= |Contents()|
      modifies this`reader, this`writer
      ensures Valid() && old(Contents()) == s + Contents() && |s| == len
    {
      s := data[reader..reader + len];
      Retrieve(len);
    }

    method Append(s: bytes)
      requires Valid()
      modifies this, data
      ensures Valid() && (data == old(data) || fresh(data))
      ensures View() == old(View()).Append(s)
      ensures Contents() == old(Contents()) + s
      ensures reader == old(reader) || reader == CHEAP_PREPEND
    {
      EnsureWritableBytes(|s|);
      Write(s);
    }

    /** Copies bytes behind the readable ones and moves the writer index (beginWrite, hasWritten). */
    method Write(s: bytes)
      requires Valid() && |s| <= data.Length - writer
      modifies this`writer, data
      ensures Valid() && View() == old(View()).(content := old(Contents()) + s)
    {
      forall m | writer <= m < writer + |s| {
        data[m] := s[m - writer];
      }
      writer := writer + |s|;
      assert data[reader..old(writer)] == old(data[reader..writer]);
      assert data[old(writer)..writer] == s;
    }

    method EnsureWritableBytes(len: nat)
      requires Valid()
      modifies this, data
      ensures Valid() && (data == old(data) || fresh(data))
      ensures View() == old(View()).MakeRoom(len)
      ensures data.Length - writer >= len && Contents() == old(Contents())
    {
      if data.Length - writer < len {
        MakeSpace(len);
      }
    }

    /** Grows the storage, or moves the readable bytes to the front when that is enough. */
    method MakeSpace(len: nat)
      requires Valid() && data.Length - writer < len
      modifies this, data
      ensures Valid() && (data == old(data) || fresh(data))
      ensures View() == old(View()).MakeRoom(len)
      ensures data.Length - writer >= len && Contents() == old(Contents())
    {
      if data.Length - writer + reader < len + CHEAP_PREPEND {
        var bigger := new byte[writer + len](_ => 0);
        forall i | 0 <= i < data.Length {
          bigger[i] := data[i];
        }
        data := bigger;
      } else {
        assert CHEAP_PREPEND < reader;
        var readable := writer - reader;
        MoveDown(reader, readable);
        reader := CHEAP_PREPEND;
        writer := reader + readable;
      }
    }

    /** std::copy to a lower, possibly overlapping place. */
    method MoveDown(from: nat, count: nat)
      requires CHEAP_PREPEND < from && from + count <= data.Length
      modifies data
      ensures data[CHEAP_PREPEND..CHEAP_PREPEND + count] == old(data[from..from + count])
    {
      var i := 0;
      while i < count
        invariant 0 <= i <= count
        invariant forall m | CHEAP_PREPEND <= m < CHEAP_PREPEND + i :: data[m] == old(data[m - CHEAP_PREPEND + from])
        invariant forall m | CHEAP_PREPEND + i <= m < data.Length :: data[m] == old(data[m])
      {
        data[CHEAP_PREPEND + i] := data[from + i];
        i := i + 1;
      }
      ghost var moved, before := data[CHEAP_PREPEND..CHEAP_PREPEND + count], old(data[from..from + count]);
      forall k | 0 <= k < count
        ensures moved[k] == before[k]
      {
        assert data[CHEAP_PREPEND + k] == old(data[CHEAP_PREPEND + k - CHEAP_PREPEND + from]);
      }
    }

    method Unwrite(len: nat)
      requires Valid() && len <= |Contents()|
      modifies this`writer
      ensures Valid() && View() == old(View()).Unwrite(len)
    {
      writer := writer - len;
    }

    method Prepend(s: bytes)
      requires Valid() && |s| <= reader
      modifies this`reader, data
      ensures Valid() && View() == old(View()).Prepend(s)
    {
      reader := reader - |s|;
      forall m | reader <= m < reader + |s| {
        data[m] := s[m - reader];
      }
    }

    method Shrink(reserve: nat)
      requires Valid()
      modifies this
      ensures Valid() && fresh(data)
      ensures View() == old(View()).Shrink(reserve) && Contents() == old(Contents())
    {
      var other := new Buffer(INITIAL_SIZE);
      other.EnsureWritableBytes(writer - reader + reserve);
      other.Append(data[reader..writer]);
      data, reader, writer := other.data, other.reader, other.writer;
    }

    /**
     One readv into the free tail and a stack buffer. The kernel fills the tail first; what spilled
     into the stack buffer is appended.
     */
    method ReadFd(result: ReadResult) returns (n: int, savedErrno: int)
      requires Valid()
      requires result.ReadBytes? ==> |result.got| <= View().Scatter()
      modifies this, data
      ensures Valid() && (data == old(data) || fresh(data))
      ensures View() == old(View()).ReadFd(result)
      ensures result.ReadError? ==> n < 0 && savedErrno == result.errno && Contents() == old(Contents())
      ensures result.ReadBytes? ==> n == |result.got| && Contents() == old(Contents()) + result.got
    {
      var writable := data.Length - writer;
      match result {
        case ReadError(errno) =>
          n, savedErrno := -1, errno;
        case ReadBytes(got) =>
          n, savedErrno := |got|, 0;
          ReadContent(View(), got);
          hide Layout.Append;
          assert writable == View().Writable();
          if n <= writable {
            Write(got);
          } else {
            Write(got[..writable]);
            Append(got[writable..]);
          }
      }
    }

    /** appendInt8/16/32/64: w is the width in bytes. */
    method AppendInt(x: int, w: nat)
      requires Valid()
      modifies this, data
      ensures Valid() && (data == old(data) || fresh(data))
      ensures View() == old(View()).Append(BigEndian(x, w))
      ensures Contents() == old(Contents()) + BigEndian(x, w)
      ensures reader == old(reader) || reader == CHEAP_PREPEND
    {
      Append(BigEndian(x, w));
    }

    method PrependInt(x: int, w: nat)
      requires Valid() && w <= reader
      modifies this`reader, data
      ensures Valid() && View() == old(View()).Prepend(BigEndian(x, w))
      ensures Contents() == BigEndian(x, w) + old(Contents())
    {
      Prepend(BigEndian(x, w));
    }

    method PeekInt(w: nat) returns (x: int)
      requires Valid() && w <= |Contents()|
      ensures x == Signed(Contents()[..w])
    {
      x := Signed(data[reader..reader + w]);
      assert data[reader..reader + w] == Contents()[..w];
    }

    method ReadInt(w: nat) returns (x: int)
      requires Valid() && w <= |Contents()|
      modifies this`reader, this`writer
      ensures Valid() && Contents() == old(Contents())[w..]
      ensures x == Signed(old(Contents())[..w])
    {
      x := PeekInt(w);
      Retrieve(w);
    }

    /** An integer appended to an empty buffer is read back, and the buffer is empty again. */
    method IntRoundTrip(x: int, w: nat) returns (y: int)
      requires Valid() && Contents() == []
      requires w > 0 && -(Pow256(w) / 2) <= x < Pow256(w) / 2
      modifies this, data
      ensures Valid() && Contents() == [] && y == x
    {
      AppendInt(x, w);
      assert Contents()[..w] == BigEndian(x, w);
      SignedRoundTrip(x, w);
      y := ReadInt(w);
    }
  }

  // ---- every run -----------------------------------------------------------------------------

  datatype Op =
    | Append(s: bytes)
    | Retrieve(len: nat)
    | RetrieveAll
    | Prepend(s: bytes)
    | Unwrite(len: nat)
    | EnsureWritable(len: nat)
    | Shrink(reserve: nat)
    | ReadFd(result: ReadResult)

  /** The assertion at the head of each operation; a read delivers what the scatter list can hold. */
  predicate Allowed(v: Layout, op: Op) {
    match op
    case Retrieve(len) => len <= |v.content|
    case Unwrite(len) => len <= |v.content|
    case Prepend(s) => |s| <= v.reader
    case ReadFd(result) => result.ReadBytes? ==> |result.got| <= v.Scatter()
    case _ => true
  }

  function Do(v: Layout, op: Op): Layout
    requires Allowed(v, op)
  {
    match op
    case Append(s) => v.Append(s)
    case Retrieve(len) => v.Retrieve(len)
    case RetrieveAll => v.(content := [], reader := CHEAP_PREPEND)
    case Prepend(s) => v.Prepend(s)
    case Unwrite(len) => v.Unwrite(len)
    case EnsureWritable(len) => v.MakeRoom(len)
    case Shrink(reserve) => v.Shrink(reserve)
    case ReadFd(result) => v.ReadFd(result)
  }

  /** The same operation on a plain byte sequence. */
  function OnBytes(content: bytes, op: Op): bytes {
    match op
    case Append(s) => content + s
    case Retrieve(len) => if len <= |content| then content[len..] else content
    case RetrieveAll => []
    case Prepend(s) => s + content
    case Unwrite(len) => if len <= |content| then content[..|content| - len] else content
    case EnsureWritable(_) => content
    case Shrink(_) => content
    case ReadFd(result) => if result.ReadBytes? then content + result.got else content
  }

  predicate AllAllowed(v: Layout, ops: seq<Op>)
    decreases |ops|
  {
    ops == [] || (Allowed(v, ops[0]) && AllAllowed(Do(v, ops[0]), ops[1..]))
  }

  function AllOnBytes(content: bytes, ops: seq<Op>): bytes
    decreases |ops|
  {
    if ops == [] then content else AllOnBytes(OnBytes(content, ops[0]), ops[1..])
  }

  /** Where the bytes are kept makes no difference to what they are. */
  lemma DoIsOnBytes(v: Layout, op: Op)
    requires Allowed(v, op)
    ensures Do(v, op).content == OnBytes(v.content, op)
  {
    if op.ReadFd? && op.result.ReadBytes? {
      ReadContent(v, op.result.got);
    }
  }

  method Step(b: Buffer, op: Op)
    requires b.Valid() && Allowed(b.View(), op)
    modifies b, b.data
    ensures b.Valid() && (b.data == old(b.data) || fresh(b.data))
    ensures b.View() == Do(old(b.View()), op)
  {
    match op {
      case Append(s) => b.Append(s);
      case Retrieve(len) => b.Retrieve(len);
      case RetrieveAll => b.RetrieveAll();
      case Prepend(s) => b.Prepend(s);
      case Unwrite(len) => b.Unwrite(len);
      case EnsureWritable(len) => b.EnsureWritableBytes(len);
      case Shrink(reserve) => b.Shrink(reserve);
      case ReadFd(result) => var _, _ := b.ReadFd(result);
    }
  }

  /** Whatever is done to a fresh buffer, its readable bytes are those of the plain sequence. */
  method Run(initialSize: nat, ops: seq<Op>) returns (b: Buffer)
    requires AllAllowed(Layout([], CHEAP_PREPEND, CHEAP_PREPEND + initialSize), ops)
    ensures b.Valid() && b.Contents() == AllOnBytes([], ops)
  {
    b := new Buffer(initialSize);
    for i := 0 to |ops|
      invariant b.Valid() && fresh(b) && fresh(b.data)
      invariant AllAllowed(b.View(), ops[i..])
      invariant AllOnBytes(b.View().content, ops[i..]) == AllOnBytes([], ops)
    {
      assert ops[i..][0] == ops[i] && ops[i..][1..] == ops[i + 1..];
      DoIsOnBytes(b.View(), ops[i]);
      Step(b, ops[i]);
    }
  }
}
