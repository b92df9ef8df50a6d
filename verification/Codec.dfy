/**
 Length-prefixed, checksummed message frames (IMServer/net/protobuf/ProtobufCodecLite.cc).

     size      4 bytes   length of everything after it
     tag       M bytes
     payload   N bytes
     checksum  4 bytes   Adler-32 of tag and payload

 The protobuf serializer and parser are parameters.
 */
module Codec {
  import opened Bytes
  import opened Buffer
  import opened Adler32
  import opened Options

  const HEADER_LEN := 4
  const CHECKSUM_LEN := 4
  const MAX_MESSAGE_LEN := 64 * 1024 * 1024

  datatype ErrorCode = NoError | InvalidLength | CheckSumError | UnknownMessageType | ParseError

  datatype ParseResult<+M> = Parsed(message: M) | Failed(error: ErrorCode)

  /** A raw callback that answers false makes the codec skip the frame; without one, raw is always true. */
  datatype Codec<!M> = Codec(tag: bytes, serialize: M -> bytes, parseBody: bytes -> Option<M>, raw: bytes -> bool) {

    function MinMessageLen(): nat {
      |tag| + CHECKSUM_LEN
    }

    // ---- one frame ---------------------------------------------------------------------------

    function Body(m: M): bytes {
      tag + serialize(m)
    }

    /** What parse is given: the frame without its length field. */
    function Sealed(m: M): bytes {
      Body(m) + BigEndian(Checksum(Body(m)), CHECKSUM_LEN)
    }

    function Encode(m: M): bytes {
      BigEndian(|Sealed(m)|, HEADER_LEN) + Sealed(m)
    }

    function Parse(buf: bytes): ParseResult<M>
      requires |buf| >= MinMessageLen()
    {
      if ValidateChecksum(buf) then
        if buf[..|tag|] == tag then
          match parseBody(buf[|tag|..|buf| - CHECKSUM_LEN])
          case Some(m) => Parsed(m)
          case None => Failed(ParseError)
        else
          Failed(UnknownMessageType)
      else
        Failed(CheckSumError)
    }

    // ---- a stream of frames ------------------------------------------------------------------

    /** One turn of the loop in onMessage on the buffered bytes. */
    function Turn(buf: bytes): (t: Turn<M>)
      ensures t.Take? ==> 0 < t.n <= |buf|
    {
      if |buf| < MinMessageLen() + HEADER_LEN then
        Stop(NoError)
      else
        var len := Signed(buf[..HEADER_LEN]);
        if len > MAX_MESSAGE_LEN || len < MinMessageLen() then
          Stop(InvalidLength)
        else if |buf| >= HEADER_LEN + len then
          if !raw(buf[..HEADER_LEN + len]) then
            Take(HEADER_LEN + len, [])
          else
            match Parse(buf[HEADER_LEN..HEADER_LEN + len])
            case Parsed(m) => Take(HEADER_LEN + len, [m])
            case Failed(e) => Stop(e)
        else
          Stop(NoError)
    }

    /** What one onMessage call makes of the buffered bytes. */
    function Drain(buf: bytes): Outcome<M>
      decreases |buf|
    {
      match Turn(buf)
      case Stop(e) => Outcome([], buf, e)
      case Take(n, ms) => Drain(buf[n..]).After(ms)
    }

    /** Successive reads, each followed by an onMessage call on everything buffered so far. */
    function Feed(buf: bytes, chunks: seq<bytes>): Outcome<M>
      decreases |chunks|
    {
      if chunks == [] then Outcome([], buf, NoError)
      else
        var o := Drain(buf + chunks[0]);
        if |chunks| == 1 then o
        else
          Feed(o.rest, chunks[1..]).After(o.messages)
    }

    function EncodeAll(ms: seq<M>): bytes {
      if ms == [] then [] else Encode(ms[0]) + EncodeAll(ms[1..])
    }

    // ---- what the results assume -------------------------------------------------------------

    predicate Fits(m: M) {
      |Sealed(m)| <= MAX_MESSAGE_LEN
    }
  }

  /** Delivered messages, bytes left in the buffer, and the error reported, if any. */
  datatype Outcome<+M> = Outcome(messages: seq<M>, rest: bytes, error: ErrorCode) {
    function After(ms: seq<M>): Outcome<M> {
      Outcome(ms + messages, rest, error)
    }
  }

  /** Stop the loop, or take n bytes and deliver at most one message. */
  datatype Turn<+M> = Stop(error: ErrorCode) | Take(n: nat, delivered: seq<M>)

  function Flatten(chunks: seq<bytes>): bytes {
    if chunks == [] then [] else chunks[0] + Flatten(chunks[1..])
  }

  /** The parser undoes the serializer. */
  ghost predicate Inverse<M(!new)>(c: Codec<M>) {
    forall m :: c.parseBody(c.serialize(m)) == Some(m)
  }

  ghost predicate NoRawCallback<M>(c: Codec<M>) {
    forall frame :: c.raw(frame)
  }

  function ToInt32(u: nat): int
    requires u < 0x1_0000_0000
  {
    if u < 0x8000_0000 then u else u - 0x1_0000_0000
  }

  function Checksum(buf: bytes): int {
    ToInt32(Adler(buf))
  }

  function AsInt32(buf: bytes): int
    requires |buf| >= 4
  {
    Signed(buf[..4])
  }

  predicate ValidateChecksum(buf: bytes)
    requires |buf| >= CHECKSUM_LEN
  {
    var n := |buf| - CHECKSUM_LEN;
    AsInt32(buf[n..]) == Checksum(buf[..n])
  }

  // ---- the methods ---------------------------------------------------------------------------

  method FillEmptyBuffer<M>(c: Codec<M>, buf: Buffer, message: M)
    requires buf.Valid() && buf.Contents() == [] && buf.reader >= HEADER_LEN
    modifies buf, buf.data
    ensures buf.Valid() && (buf.data == old(buf.data) || fresh(buf.data))
    ensures buf.Contents() == c.Encode(message)
  {
    hide Codec.Sealed, BigEndian, Layout.Prepend;
    FillSealed(c, buf, message);
    buf.PrependInt(buf.writer - buf.reader, HEADER_LEN);
  }

  /** Everything but the length field. */
  method FillSealed<M>(c: Codec<M>, buf: Buffer, message: M)
    requires buf.Valid() && buf.Contents() == [] && buf.reader >= HEADER_LEN
    modifies buf, buf.data
    ensures buf.Valid() && (buf.data == old(buf.data) || fresh(buf.data)) && buf.reader >= HEADER_LEN
    ensures buf.Contents() == c.Sealed(message)
  {
    hide Checksum, BigEndian, Layout.Append;
    buf.Append(c.tag);
    buf.Append(c.serialize(message));
    assert buf.Contents() == c.Body(message);
    var body := buf.data[buf.reader..buf.writer];
    buf.AppendInt(Checksum(body), CHECKSUM_LEN);
  }

  /** The loop: deliver whole frames until one is incomplete or bad. */
  method OnMessage<M>(c: Codec<M>, buf: Buffer) returns (delivered: seq<M>, error: ErrorCode)
    requires buf.Valid()
    modifies buf`reader, buf`writer
    ensures buf.Valid()
    ensures Outcome(delivered, buf.Contents(), error) == c.Drain(old(buf.Contents()))
  {
    hide Codec.Turn;
    delivered, error := [], NoError;
    while buf.writer - buf.reader >= c.MinMessageLen() + HEADER_LEN
      invariant buf.Valid() && error == NoError
      invariant c.Drain(old(buf.Contents())) == c.Drain(buf.Contents()).After(delivered)
      decreases |buf.Contents()|
    {
      var turn := LoopBody(c, buf);
      match turn {
        case Stop(e) =>
          error := e;
          return;
        case Take(_, ms) =>
          AfterAfter(c.Drain(buf.Contents()), delivered, ms);
          delivered := delivered + ms;
      }
    }
    TooShort(c, buf.Contents());
  }

  lemma AfterAfter<M>(o: Outcome<M>, a: seq<M>, b: seq<M>)
    ensures o.After(b).After(a) == o.After(a + b)
  {
    assert a + (b + o.messages) == a + b + o.messages;
  }

  lemma TooShort<M>(c: Codec<M>, buf: bytes)
    requires |buf| < c.MinMessageLen() + HEADER_LEN
    ensures c.Turn(buf) == Stop(NoError)
  {
  }

  method LoopBody<M>(c: Codec<M>, buf: Buffer) returns (turn: Turn<M>)
    requires buf.Valid() && |buf.Contents()| >= c.MinMessageLen() + HEADER_LEN
    modifies buf`reader, buf`writer
    ensures buf.Valid()
    ensures turn == c.Turn(old(buf.Contents()))
    ensures buf.Contents() == if turn.Take? then old(buf.Contents())[turn.n..] else old(buf.Contents())
  {
    hide Signed, ValidateChecksum, Codec.Parse;
    ghost var now := buf.Contents();
    var len := buf.PeekInt(HEADER_LEN);
    if len > MAX_MESSAGE_LEN || len < c.MinMessageLen() {
      turn := Stop(InvalidLength);
    } else if buf.writer - buf.reader >= HEADER_LEN + len {
      var frame := buf.data[buf.reader..buf.reader + HEADER_LEN + len];
      assert frame == now[..HEADER_LEN + len];
      if !c.raw(frame) {
        buf.Retrieve(HEADER_LEN + len);
        turn := Take(HEADER_LEN + len, []);
      } else {
        assert frame[HEADER_LEN..] == now[HEADER_LEN..HEADER_LEN + len];
        var result := c.Parse(frame[HEADER_LEN..]);
        if result.Parsed? {
          buf.Retrieve(HEADER_LEN + len);
          turn := Take(HEADER_LEN + len, [result.message]);
        } else {
          turn := Stop(result.error);
        }
      }
    } else {
      turn := Stop(NoError);
    }
  }

  // ---- the wire format -----------------------------------------------------------------------

  /** The cast of the checksum to a signed integer leaves its bytes as they are. */
  lemma ChecksumDigit(u: nat, k: nat)
    requires u < 0x1_0000_0000 && k < 4
    ensures ToInt32(u) / Pow256(k) % 256 == u / Pow256(k) % 256
  {
    assert Pow256(0) == 1 && Pow256(1) == 256 && Pow256(2) == 65536 && Pow256(3) == 16777216;
    var p := Pow256(k);
    var j := if k == 0 then 16777216 else if k == 1 then 65536 else if k == 2 then 256 else 1;
    assert 256 * (j * p) == 0x1_0000_0000;
    hide Pow256;
    ShiftedDigit(u, p, j);
  }

  lemma ShiftedDigit(u: nat, p: nat, j: nat)
    requires p > 0
    ensures (u - 256 * (j * p)) / p % 256 == u / p % 256
  {
    var q := u / p;
    assert (q - 256 * j) * p == q * p - 256 * (j * p);
    Quotient(u - 256 * (j * p), p, q - 256 * j, u % p);
    SameDigit(q, j);
  }

  lemma SameDigit(q: int, j: int)
    ensures (q - 256 * j) % 256 == q % 256
  {
  }

  /**
   A frame byte by byte: the number of bytes that follow, the tag, the payload, and the Adler-32 of tag and
   payload, both numbers with the most significant byte first.
   */
  lemma FrameLayout<M>(c: Codec<M>, m: M, i: nat)
    ensures var frame, payload := c.Encode(m), c.serialize(m);
            var n := |c.tag| + |payload|;
            && |frame| == 4 + n + 4
            && frame[4..4 + |c.tag|] == c.tag && frame[4 + |c.tag|..4 + n] == payload
            && (i < 4 ==> frame[i] == (n + 4) / Pow256(3 - i) % 256)
            && (i < 4 ==> frame[4 + n + i] == Adler(c.tag + payload) / Pow256(3 - i) % 256)
  {
    hide BigEndian, Pow256, Adler;
    if i < 4 {
      BigEndianDigit(|c.Sealed(m)|, HEADER_LEN, i);
      BigEndianDigit(Checksum(c.Body(m)), CHECKSUM_LEN, i);
      ChecksumDigit(Adler(c.Body(m)), 3 - i);
    }
  }

  // ---- any byte stream -----------------------------------------------------------------------

  /** Bytes that arrive later do not change a turn that did not stop to wait for them. */
  lemma TurnIsStable<M>(c: Codec<M>, a: bytes, b: bytes)
    requires c.Turn(a) != Stop(NoError)
    ensures c.Turn(a + b) == c.Turn(a)
  {
    var len := Signed(a[..HEADER_LEN]);
    assert (a + b)[..HEADER_LEN] == a[..HEADER_LEN];
    if c.MinMessageLen() <= len <= MAX_MESSAGE_LEN {
      var end := HEADER_LEN + len;
      assert (a + b)[..end] == a[..end];
      assert (a + b)[HEADER_LEN..end] == a[HEADER_LEN..end];
    }
  }

  /** Stopping to wait for more bytes makes no difference. */
  lemma {:induction false} DrainInTwo<M>(c: Codec<M>, a: bytes, b: bytes)
    ensures c.Drain(a + b) == c.Drain(c.Drain(a).rest + b).After(c.Drain(a).messages)
    decreases |a|
  {
    hide Codec.Turn;
    match c.Turn(a)
    case Stop(e) =>
    case Take(n, ms) =>
      TurnIsStable(c, a, b);
      assert (a + b)[n..] == a[n..] + b;
      DrainInTwo(c, a[n..], b);
  }

  /** Delivery does not depend on how the stream is cut into reads. */
  lemma {:induction false} FeedIsDrain<M>(c: Codec<M>, buf: bytes, chunks: seq<bytes>)
    requires chunks != []
    ensures c.Feed(buf, chunks) == c.Drain(buf + Flatten(chunks))
    decreases |chunks|
  {
    var first, rest := buf + chunks[0], chunks[1..];
    if rest == [] {
      assert buf + Flatten(chunks) == first;
    } else {
      var o := c.Drain(first);
      FeedIsDrain(c, o.rest, rest);
      DrainInTwo(c, first, Flatten(rest));
      assert buf + Flatten(chunks) == first + Flatten(rest);
    }
  }

  /** An error is final: later bytes neither clear it nor produce messages. */
  lemma {:induction false} ErrorIsFinal<M>(c: Codec<M>, a: bytes, b: bytes)
    requires c.Drain(a).error != NoError
    ensures c.Drain(c.Drain(a).rest + b) == Outcome([], c.Drain(a).rest + b, c.Drain(a).error)
    decreases |a|
  {
    hide Codec.Turn;
    TurnIsStable(c, a, b);
    match c.Turn(a)
    case Stop(e) =>
    case Take(n, _) => ErrorIsFinal(c, a[n..], b);
  }

  // ---- well-formed streams -------------------------------------------------------------------

  lemma WordRange()
    ensures Pow256(4) == 0x1_0000_0000
  {
    assert Pow256(1) == 256;
    assert Pow256(2) == 65536;
    assert Pow256(3) == 16777216;
  }

  lemma SealedIsValid<M>(c: Codec<M>, m: M)
    ensures ValidateChecksum(c.Sealed(m))
  {
    var body := c.Body(m);
    var s := c.Sealed(m);
    assert s[..|s| - CHECKSUM_LEN] == body;
    assert s[|s| - CHECKSUM_LEN..] == BigEndian(Checksum(body), CHECKSUM_LEN);
    WordRange();
    SignedRoundTrip(Checksum(body), CHECKSUM_LEN);
    assert s[|s| - CHECKSUM_LEN..][..4] == BigEndian(Checksum(body), CHECKSUM_LEN);
  }

  /** The length field of a frame reads back as the number of bytes that follow. */
  lemma HeaderReadsBack<M>(c: Codec<M>, m: M, s: bytes)
    requires |c.Sealed(m)| < 0x8000_0000
    ensures Signed((c.Encode(m) + s)[..HEADER_LEN]) == |c.Sealed(m)|
  {
    WordRange();
    SignedRoundTrip(|c.Sealed(m)|, HEADER_LEN);
    assert (c.Encode(m) + s)[..HEADER_LEN] == BigEndian(|c.Sealed(m)|, HEADER_LEN);
  }

  /** A frame at the head of the buffer is delivered and removed. */
  lemma FrameIsDelivered<M(!new)>(c: Codec<M>, m: M, s: bytes)
    requires Inverse(c) && NoRawCallback(c) && c.Fits(m)
    ensures c.Drain(c.Encode(m) + s) == c.Drain(s).After([m])
  {
    var buf, sealed := c.Encode(m) + s, c.Sealed(m);
    HeaderReadsBack(c, m, s);
    SealedIsValid(c, m);
    var end := HEADER_LEN + |sealed|;
    assert buf[HEADER_LEN..end] == sealed;
    assert buf[end..] == s;
    assert sealed[..|c.tag|] == c.tag;
    assert sealed[|c.tag|..|sealed| - CHECKSUM_LEN] == c.serialize(m);
    assert c.raw(buf[..end]);
    assert c.Parse(sealed) == Parsed(m);
    assert c.Turn(buf) == Take(end, [m]);
  }

  lemma {:induction false} StreamIsDelivered<M(!new)>(c: Codec<M>, ms: seq<M>)
    requires Inverse(c) && NoRawCallback(c) && forall m | m in ms :: c.Fits(m)
    ensures c.Drain(c.EncodeAll(ms)) == Outcome(ms, [], NoError)
  {
    if ms == [] {
    } else {
      StreamIsDelivered(c, ms[1..]);
      FrameIsDelivered(c, ms[0], c.EncodeAll(ms[1..]));
      assert ms == [ms[0]] + ms[1..];
    }
  }

  /** Encoded messages arrive in order, whatever the reads, and leave nothing behind. */
  lemma RoundTrip<M(!new)>(c: Codec<M>, ms: seq<M>, chunks: seq<bytes>)
    requires Inverse(c) && NoRawCallback(c) && forall m | m in ms :: c.Fits(m)
    requires Flatten(chunks) == c.EncodeAll(ms)
    ensures c.Feed([], chunks) == Outcome(ms, [], NoError)
  {
    StreamIsDelivered(c, ms);
    if chunks != [] {
      FeedIsDrain(c, [], chunks);
      assert [] + Flatten(chunks) == Flatten(chunks);
    } else {
      assert c.Drain([]) == Outcome([], [], NoError);
    }
  }

  /** Any prefix of an encoded stream delivers a prefix of the messages, and no error. */
  lemma PrefixDelivers<M(!new)>(c: Codec<M>, ms: seq<M>, arrived: bytes)
    requires Inverse(c) && NoRawCallback(c) && forall m | m in ms :: c.Fits(m)
    requires arrived <= c.EncodeAll(ms)
    ensures c.Drain(arrived).messages <= ms
    ensures c.Drain(arrived).error == NoError
  {
    var missing := c.EncodeAll(ms)[|arrived|..];
    assert arrived + missing == c.EncodeAll(ms);
    StreamIsDelivered(c, ms);
    DrainInTwo(c, arrived, missing);
    if c.Drain(arrived).error != NoError {
      ErrorIsFinal(c, arrived, missing);
    }
  }

  /** A frame over the limit is refused, and blocks the stream. */
  lemma OversizedIsRefused<M>(c: Codec<M>, m: M, s: bytes)
    requires MAX_MESSAGE_LEN < |c.Sealed(m)| < 0x8000_0000
    ensures c.Drain(c.Encode(m) + s) == Outcome([], c.Encode(m) + s, InvalidLength)
  {
    HeaderReadsBack(c, m, s);
  }

  /** So is any length field out of range, negative ones included, once enough bytes for a frame are there. */
  lemma BadLengthIsRefused<M>(c: Codec<M>, len: int, s: bytes)
    requires -0x8000_0000 <= len < 0x8000_0000 && !(c.MinMessageLen() <= len <= MAX_MESSAGE_LEN)
    requires |s| >= c.MinMessageLen()
    ensures var buf := BigEndian(len, HEADER_LEN) + s;
            c.Drain(buf) == Outcome([], buf, InvalidLength)
  {
    assert Pow256(4) == 0x1_0000_0000;
    SignedRoundTrip(len, HEADER_LEN);
    assert (BigEndian(len, HEADER_LEN) + s)[..HEADER_LEN] == BigEndian(len, HEADER_LEN);
    hide BigEndian, Signed, Pow256;
  }

  /** A frame the raw callback keeps for itself is consumed and not delivered. */
  lemma RawFrameIsSkipped<M>(c: Codec<M>, m: M, s: bytes)
    requires c.Fits(m) && !c.raw(c.Encode(m))
    ensures c.Drain(c.Encode(m) + s) == c.Drain(s)
  {
    var buf, end := c.Encode(m) + s, |c.Encode(m)|;
    HeaderReadsBack(c, m, s);
    assert buf[..end] == c.Encode(m) && buf[end..] == s;
    assert c.Turn(buf) == Take(end, []);
  }

  /** A frame sealed under a tag that does not start with ours is of an unknown type. */
  lemma OtherTagIsReported<M, N>(c: Codec<M>, d: Codec<N>, m: M)
    requires |c.Sealed(m)| >= d.MinMessageLen() && !(d.tag <= c.Body(m))
    ensures d.Parse(c.Sealed(m)) == Failed(UnknownMessageType)
  {
    SealedIsValid(c, m);
    assert c.Sealed(m)[..|d.tag|] == c.Body(m)[..|d.tag|];
  }

  /** An intact frame whose payload the parser rejects is a parse error. */
  lemma BadPayloadIsReported<M, N>(c: Codec<M>, d: Codec<N>, m: M)
    requires d.tag == c.tag && d.parseBody(c.serialize(m)).None?
    ensures d.Parse(c.Sealed(m)) == Failed(ParseError)
  {
    var sealed := c.Sealed(m);
    SealedIsValid(c, m);
    assert sealed[..|d.tag|] == c.tag;
    assert sealed[|d.tag|..|sealed| - CHECKSUM_LEN] == c.serialize(m);
  }

  // ---- damaged frames ------------------------------------------------------------------------

  /** One changed byte anywhere in tag, payload or checksum is noticed. */
  lemma OneByteIsNoticed(buf: bytes, i: nat, x: byte)
    requires |buf| >= CHECKSUM_LEN && ValidateChecksum(buf)
    requires i < |buf| && x != buf[i]
    ensures !ValidateChecksum(buf[i := x])
  {
    var n := |buf| - CHECKSUM_LEN;
    var damaged := buf[i := x];
    if i < n {
      assert damaged[..n] == buf[..n][i := x] && damaged[n..] == buf[n..];
      OneByteChangesSum(buf[..n], i, x);
    } else {
      assert damaged[..n] == buf[..n] && damaged[n..][i - n] != buf[n..][i - n];
      if ValidateChecksum(damaged) {
        SignedInjective(damaged[n..][..4], buf[n..][..4]);
      }
    }
  }

  /** Two swapped neighbours in tag or payload are noticed. */
  lemma SwapIsNoticed(buf: bytes, i: nat)
    requires |buf| >= CHECKSUM_LEN && ValidateChecksum(buf)
    requires i + 1 < |buf| - CHECKSUM_LEN && buf[i] != buf[i + 1]
    ensures !ValidateChecksum(Swap(buf, i))
  {
    var n := |buf| - CHECKSUM_LEN;
    assert Swap(buf, i)[..n] == Swap(buf[..n], i) && Swap(buf, i)[n..] == buf[n..];
    SwapChangesSum(buf[..n], i);
  }

  /** parse reports the damage, for a frame of any length. */
  lemma DamageIsReported<M>(c: Codec<M>, m: M, i: nat, x: byte)
    requires HEADER_LEN <= i < |c.Encode(m)| && x != c.Encode(m)[i]
    ensures c.Parse(c.Encode(m)[i := x][HEADER_LEN..]) == Failed(CheckSumError)
  {
    assert c.Encode(m)[i := x][HEADER_LEN..] == c.Sealed(m)[i - HEADER_LEN := x];
    SealedIsValid(c, m);
    OneByteIsNoticed(c.Sealed(m), i - HEADER_LEN, x);
  }

  lemma SwapIsReported<M>(c: Codec<M>, m: M, i: nat)
    requires HEADER_LEN <= i && i + 1 < |c.Encode(m)| - CHECKSUM_LEN
    requires c.Encode(m)[i] != c.Encode(m)[i + 1]
    ensures c.Parse(Swap(c.Encode(m), i)[HEADER_LEN..]) == Failed(CheckSumError)
  {
    assert Swap(c.Encode(m), i)[HEADER_LEN..] == Swap(c.Sealed(m), i - HEADER_LEN);
    SealedIsValid(c, m);
    SwapIsNoticed(c.Sealed(m), i - HEADER_LEN);
  }

  /** A frame whose length field is intact and that does not parse stops the stream where it stands. */
  lemma BadFrameStops<M>(c: Codec<M>, m: M, frame: bytes, s: bytes, e: ErrorCode)
    requires NoRawCallback(c) && c.Fits(m) && |frame| == |c.Encode(m)|
    requires frame[..HEADER_LEN] == c.Encode(m)[..HEADER_LEN] && c.Parse(frame[HEADER_LEN..]) == Failed(e)
    ensures c.Drain(frame + s) == Outcome([], frame + s, e)
  {
    var buf, end := frame + s, |frame|;
    HeaderReadsBack(c, m, []);
    assert (c.Encode(m) + [])[..HEADER_LEN] == buf[..HEADER_LEN];
    assert buf[..end] == frame && buf[HEADER_LEN..end] == frame[HEADER_LEN..];
    assert c.raw(buf[..end]);
    assert c.Turn(buf) == Stop(e);
  }

  /** The receive loop reports a damaged frame, delivers nothing from it on, and consumes nothing. */
  lemma DamageStopsStream<M>(c: Codec<M>, m: M, i: nat, x: byte, s: bytes)
    requires NoRawCallback(c) && c.Fits(m)
    requires HEADER_LEN <= i < |c.Encode(m)| && x != c.Encode(m)[i]
    ensures c.Drain(c.Encode(m)[i := x] + s) == Outcome([], c.Encode(m)[i := x] + s, CheckSumError)
  {
    DamageIsReported(c, m, i, x);
    BadFrameStops(c, m, c.Encode(m)[i := x], s, CheckSumError);
  }

  lemma SwapStopsStream<M>(c: Codec<M>, m: M, i: nat, s: bytes)
    requires NoRawCallback(c) && c.Fits(m)
    requires HEADER_LEN <= i && i + 1 < |c.Encode(m)| - CHECKSUM_LEN && c.Encode(m)[i] != c.Encode(m)[i + 1]
    ensures c.Drain(Swap(c.Encode(m), i) + s) == Outcome([], Swap(c.Encode(m), i) + s, CheckSumError)
  {
    SwapIsReported(c, m, i);
    BadFrameStops(c, m, Swap(c.Encode(m), i), s, CheckSumError);
  }
}
