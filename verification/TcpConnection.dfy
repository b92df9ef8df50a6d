/**
 The output side of a connection on its loop thread (IMServer/net/TcpConnection.cc).

 The kernel's answer to each write(2) is a parameter. A connection is described by the bytes the
 caller handed over, the bytes the kernel took, the bytes still buffered, the write interest, and
 how often the write side was shut down.
 */
module TcpConnection {
  import opened Bytes
  import opened Buffer

  datatype State = Connecting | Connected | Disconnecting | Disconnected

  /** write(2): a count, or an error. EPIPE and ECONNRESET are faults. */
  datatype WriteResult = Wrote(n: nat) | WouldBlock | Fault | OtherError

  /** Functors queued on the loop for the user's callbacks. */
  datatype Note = WriteComplete | HighWater(size: nat)

  datatype Callbacks = Callbacks(writeComplete: bool, highWater: bool, mark: nat)

  /** The kernel takes no more than it was offered. */
  predicate Possible(w: WriteResult, len: nat) {
    w.Wrote? ==> w.n <= len
  }

  datatype Conn = Conn(
    state: State,
    writing: bool,
    output: bytes,
    accepted: bytes,
    written: bytes,
    shutdowns: nat,
    notes: seq<Note>)
  {
    /** Nothing waits, so sendInLoop may write at once. */
    predicate Idle() {
      !writing && output == []
    }

    /** How many bytes the direct write takes. */
    function Taken(w: WriteResult): nat {
      if Idle() && w.Wrote? then w.n else 0
    }

    /** The first half of sendInLoop: offer the data to the kernel. */
    function Offer(data: bytes, w: WriteResult, cb: Callbacks): Conn
      requires Possible(w, |data|)
    {
      var done := if Idle() && w == Wrote(|data|) && cb.writeComplete then [WriteComplete] else [];
      this.(accepted := accepted + data, written := written + data[..Taken(w)], notes := notes + done)
    }

    function SendInLoop(data: bytes, w: WriteResult, cb: Callbacks): Conn
      requires Possible(w, |data|)
    {
      if state.Disconnected? then this
      else if !(Idle() && w.Fault?) && Taken(w) < |data| then Offer(data, w, cb).Enqueue(data[Taken(w)..], cb)
      else Offer(data, w, cb)
    }

    /** The second half of sendInLoop: keep what the kernel did not take. */
    function Enqueue(rest: bytes, cb: Callbacks): Conn {
      var size := |output| + |rest|;
      var high := if size >= cb.mark && |output| < cb.mark && cb.highWater then [HighWater(size)] else [];
      this.(output := output + rest, writing := true, notes := notes + high)
    }

    function Send(data: bytes, w: WriteResult, cb: Callbacks): Conn
      requires Possible(w, |data|)
    {
      if state.Connected? then SendInLoop(data, w, cb) else this
    }

    function ShutdownInLoop(): Conn {
      if writing then this else this.(shutdowns := shutdowns + 1)
    }

    function Shutdown(): Conn {
      if state.Connected? then this.(state := Disconnecting).ShutdownInLoop() else this
    }

    function HandleWrite(w: WriteResult, cb: Callbacks): Conn
      requires Possible(w, |output|)
    {
      if writing && w.Wrote? && w.n > 0 then
        var rest := output[w.n..];
        var wrote := this.(written := written + output[..w.n], output := rest);
        if rest != [] then wrote
        else
          var done := if cb.writeComplete then [WriteComplete] else [];
          var drained := wrote.(writing := false, notes := notes + done);
          if state.Disconnecting? then drained.ShutdownInLoop() else drained
      else
        this
    }

    function HandleClose(): Conn {
      this.(state := Disconnected, writing := false)
    }
  }

  class TcpConnection {
    var state: State
    var writing: bool
    var outputBuffer: Buffer
    var notes: seq<Note>
    const callbacks: Callbacks
    ghost var accepted: bytes
    ghost var written: bytes
    ghost var shutdowns: nat

    ghost predicate Valid()
      reads this, outputBuffer
    {
      outputBuffer.Valid()
    }

    ghost function View(): Conn
      requires Valid()
      reads this, outputBuffer, outputBuffer.data
    {
      Conn(state, writing, outputBuffer.Contents(), accepted, written, shutdowns, notes)
    }

    constructor (callbacks: Callbacks)
      ensures Valid() && View() == Conn(Connecting, false, [], [], [], 0, [])
      ensures fresh(outputBuffer) && fresh(outputBuffer.data) && this.callbacks == callbacks
    {
      state, writing, notes := Connecting, false, [];
      outputBuffer := new Buffer(INITIAL_SIZE);
      this.callbacks := callbacks;
      accepted, written, shutdowns := [], [], 0;
    }

    method ConnectEstablished()
      requires Valid() && state.Connecting?
      modifies this`state
      ensures Valid() && View() == old(View()).(state := Connected)
    {
      state := Connected;
    }

    method Send(data: bytes, w: WriteResult)
      requires Valid() && Possible(w, |data|)
      modifies this, outputBuffer, outputBuffer.data
      ensures Valid() && outputBuffer == old(outputBuffer)
      ensures View() == old(View()).Send(data, w, callbacks)
    {
      if state.Connected? {
        SendInLoop(data, w);
      }
    }

    method SendInLoop(data: bytes, w: WriteResult)
      requires Valid() && Possible(w, |data|)
      modifies this, outputBuffer, outputBuffer.data
      ensures Valid() && outputBuffer == old(outputBuffer)
      ensures View() == old(View()).SendInLoop(data, w, callbacks)
    {
      if state.Disconnected? {
        return;
      }
      var nwrote, faultError := Offer(data, w);
      var remaining := |data| - nwrote;
      if !faultError && remaining > 0 {
        Enqueue(data[nwrote..]);
      }
    }

    method Offer(data: bytes, w: WriteResult) returns (nwrote: nat, faultError: bool)
      requires Valid() && Possible(w, |data|)
      modifies this`accepted, this`written, this`notes
      ensures Valid() && View() == old(View()).Offer(data, w, callbacks)
      ensures nwrote == old(View()).Taken(w) <= |data| && faultError == (old(View()).Idle() && w.Fault?)
    {
      nwrote, faultError := 0, false;
      accepted := accepted + data;
      if !writing && outputBuffer.writer == outputBuffer.reader {
        match w {
          case Wrote(n) =>
            nwrote := n;
            if nwrote == |data| && callbacks.writeComplete {
              notes := notes + [WriteComplete];
            }
          case Fault =>
            faultError := true;
          case _ =>
        }
      }
      written := written + data[..nwrote];
    }

    method Enqueue(rest: bytes)
      requires Valid()
      modifies this, outputBuffer, outputBuffer.data
      ensures Valid() && outputBuffer == old(outputBuffer)
      ensures View() == old(View()).Enqueue(rest, callbacks)
    {
      var oldLen := outputBuffer.writer - outputBuffer.reader;
      if oldLen + |rest| >= callbacks.mark && oldLen < callbacks.mark && callbacks.highWater {
        notes := notes + [HighWater(oldLen + |rest|)];
      }
      outputBuffer.Append(rest);
      if !writing {
        writing := true;
      }
    }

    method Shutdown()
      requires Valid()
      modifies this`state, this`shutdowns
      ensures Valid() && View() == old(View()).Shutdown()
    {
      if state.Connected? {
        state := Disconnecting;
        ShutdownInLoop();
      }
    }

    method ShutdownInLoop()
      requires Valid()
      modifies this`shutdowns
      ensures Valid() && View() == old(View()).ShutdownInLoop()
    {
      if !writing {
        shutdowns := shutdowns + 1;
      }
    }

    method HandleWrite(w: WriteResult)
      requires Valid() && Possible(w, |outputBuffer.Contents()|)
      modifies this, outputBuffer
      ensures Valid() && outputBuffer == old(outputBuffer)
      ensures View() == old(View()).HandleWrite(w, callbacks)
    {
      if writing && w.Wrote? && w.n > 0 {
        written := written + outputBuffer.Contents()[..w.n];
        outputBuffer.Retrieve(w.n);
        if outputBuffer.writer == outputBuffer.reader {
          writing := false;
          if callbacks.writeComplete {
            notes := notes + [WriteComplete];
          }
          if state.Disconnecting? {
            ShutdownInLoop();
          }
        }
      }
    }

    method HandleClose()
      requires Valid() && (state.Connected? || state.Disconnecting?)
      modifies this`state, this`writing
      ensures Valid() && View() == old(View()).HandleClose()
    {
      state := Disconnected;
      writing := false;
    }
  }

  // ---- runs ----------------------------------------------------------------------------------

  datatype Event =
    | Established
    | Sent(data: bytes, w: WriteResult)
    | Writable(w: WriteResult)
    | ShutDown
    | Closed

  predicate Enabled(c: Conn, e: Event) {
    match e
    case Established => c.state.Connecting?
    case Sent(data, w) => Possible(w, |data|)
    case Writable(w) => Possible(w, |c.output|)
    case ShutDown => true
    case Closed => c.state.Connected? || c.state.Disconnecting?
  }

  function Step(c: Conn, e: Event, cb: Callbacks): Conn
    requires Enabled(c, e)
  {
    match e
    case Established => c.(state := Connected)
    case Sent(data, w) => c.Send(data, w, cb)
    case Writable(w) => c.HandleWrite(w, cb)
    case ShutDown => c.Shutdown()
    case Closed => c.HandleClose()
  }

  const INITIAL := Conn(Connecting, false, [], [], [], 0, [])

  predicate Legal(c: Conn, es: seq<Event>, cb: Callbacks)
    decreases |es|
  {
    es == [] || (Enabled(c, es[0]) && Legal(Step(c, es[0], cb), es[1..], cb))
  }

  function Run(c: Conn, es: seq<Event>, cb: Callbacks): Conn
    requires Legal(c, es, cb)
    decreases |es|
  {
    if es == [] then c else Run(Step(c, es[0], cb), es[1..], cb)
  }

  /** The one place where bytes are dropped: a direct write that fails with EPIPE or ECONNRESET. */
  predicate Drops(c: Conn, e: Event) {
    e.Sent? && c.state.Connected? && !c.writing && c.output == [] && e.w.Fault? && e.data != []
  }

  predicate NeverDrops(c: Conn, es: seq<Event>, cb: Callbacks)
    requires Legal(c, es, cb)
    decreases |es|
  {
    es == [] || (!Drops(c, es[0]) && NeverDrops(Step(c, es[0], cb), es[1..], cb))
  }

  /** Write interest exactly while bytes wait; the write side shut down once, when all are gone. */
  predicate Sound(c: Conn) {
    && (!c.state.Disconnected? ==> (c.writing <==> c.output != []))
    && (c.state.Disconnected? ==> !c.writing)
    && c.shutdowns <= 1
    && (c.shutdowns == 1 ==> c.output == [] && (c.state.Disconnecting? || c.state.Disconnected?))
    && (c.state.Disconnecting? && c.output == [] ==> c.shutdowns == 1)
  }

  predicate Conserved(c: Conn) {
    c.accepted == c.written + c.output
  }

  lemma StepKeepsSound(c: Conn, e: Event, cb: Callbacks)
    requires Sound(c) && Enabled(c, e)
    ensures Sound(Step(c, e, cb))
  {
  }

  lemma StepConserves(c: Conn, e: Event, cb: Callbacks)
    requires Sound(c) && Enabled(c, e) && Conserved(c) && !Drops(c, e)
    ensures Conserved(Step(c, e, cb))
  {
    match e
    case Sent(data, w) => SendConserves(c, data, w, cb);
    case Writable(w) => WriteConserves(c, w, cb);
    case _ =>
  }

  lemma SendConserves(c: Conn, data: bytes, w: WriteResult, cb: Callbacks)
    requires Sound(c) && Possible(w, |data|) && Conserved(c) && !Drops(c, Sent(data, w))
    ensures Conserved(c.Send(data, w, cb))
  {
    var n := c.Taken(w);
    SplitKeepsOrder(c.written, c.output, data, n);
    if c.state.Connected? {
      var d := c.Send(data, w, cb);
      assert d.written == c.written + data[..n];
      assert d.output == c.output + data[n..];
    }
  }

  lemma SplitKeepsOrder(written: bytes, output: bytes, data: bytes, n: nat)
    requires n <= |data| && (n > 0 ==> output == [])
    ensures (written + output) + data == (written + data[..n]) + (output + data[n..])
  {
    assert data == data[..n] + data[n..];
  }

  lemma WriteConserves(c: Conn, w: WriteResult, cb: Callbacks)
    requires Possible(w, |c.output|) && Conserved(c)
    ensures Conserved(c.HandleWrite(w, cb))
  {
    if w.Wrote? {
      assert c.output == c.output[..w.n] + c.output[w.n..];
    }
  }

  /** Bytes are never written twice, and dropped ones never come back. */
  lemma StepLoses(c: Conn, e: Event, cb: Callbacks)
    requires Sound(c) && Enabled(c, e)
    ensures var d := Step(c, e, cb);
            var before, after := |c.accepted| - |c.written| - |c.output|, |d.accepted| - |d.written| - |d.output|;
            if Drops(c, e) then after == before + |e.data| else after == before
  {
  }

  /** Write interest and half-close are right after every run, faults included. */
  lemma {:induction false} RunKeepsSound(c: Conn, es: seq<Event>, cb: Callbacks)
    requires Sound(c) && Legal(c, es, cb)
    ensures Sound(Run(c, es, cb))
    decreases |es|
  {
    if es == [] {
    } else {
      StepKeepsSound(c, es[0], cb);
      RunKeepsSound(Step(c, es[0], cb), es[1..], cb);
    }
  }

  /** Accepted bytes are the written ones followed by the buffered ones, unless a fault dropped some. */
  lemma {:induction false} RunConserves(c: Conn, es: seq<Event>, cb: Callbacks)
    requires Sound(c) && Legal(c, es, cb) && Conserved(c)
    ensures Conserved(Run(c, es, cb)) <==> NeverDrops(c, es, cb)
    decreases |es|
  {
    if es == [] {
    } else {
      var d := Step(c, es[0], cb);
      StepKeepsSound(c, es[0], cb);
      StepLoses(c, es[0], cb);
      if Drops(c, es[0]) {
        LossLasts(d, es[1..], cb);
      } else {
        StepConserves(c, es[0], cb);
        RunConserves(d, es[1..], cb);
      }
    }
  }

  lemma {:induction false} LossLasts(c: Conn, es: seq<Event>, cb: Callbacks)
    requires Sound(c) && Legal(c, es, cb)
    requires |c.accepted| > |c.written| + |c.output|
    ensures !Conserved(Run(c, es, cb))
    decreases |es|
  {
    if es == [] {
    } else {
      StepKeepsSound(c, es[0], cb);
      StepLoses(c, es[0], cb);
      LossLasts(Step(c, es[0], cb), es[1..], cb);
    }
  }

  /** The peer sees the end of the stream only after every accepted byte. */
  lemma ShutdownAfterLastByte(es: seq<Event>, cb: Callbacks)
    requires Legal(INITIAL, es, cb) && NeverDrops(INITIAL, es, cb)
    ensures var c := Run(INITIAL, es, cb);
            && c.written <= c.accepted
            && c.shutdowns <= 1
            && (c.shutdowns == 1 ==> c.written == c.accepted)
            && (c.state.Disconnecting? && c.written == c.accepted ==> c.shutdowns == 1)
  {
    RunKeepsSound(INITIAL, es, cb);
    RunConserves(INITIAL, es, cb);
    var c := Run(INITIAL, es, cb);
    assert c.shutdowns == 1 ==> c.written + c.output == c.written;
  }

  // ---- which events lead there ---------------------------------------------------------------

  /** Some shutdown() lies behind the establishment, or behind this point if that is past already. */
  predicate AsksForShutdown(established: bool, es: seq<Event>)
    decreases |es|
  {
    es != [] && ((established && es[0].ShutDown?) || AsksForShutdown(established || es[0].Established?, es[1..]))
  }

  lemma {:induction false} StateByEvents(c: Conn, es: seq<Event>, cb: Callbacks)
    requires Sound(c) && Legal(c, es, cb) && !c.state.Disconnected? && Closed !in es
    ensures var d := Run(c, es, cb);
            && (d.state.Disconnecting? <==> c.state.Disconnecting? || AsksForShutdown(!c.state.Connecting?, es))
            && (d.state.Connecting? <==> c.state.Connecting? && Established !in es)
            && !d.state.Disconnected?
    decreases |es|
  {
    if es == [] {
    } else {
      StepKeepsSound(c, es[0], cb);
      assert es == [es[0]] + es[1..];
      StateByEvents(Step(c, es[0], cb), es[1..], cb);
      hide Sound, Conn.Send, Conn.HandleWrite;
    }
  }

  /**
   Until the connection is closed, the write side has been shut down if and only if shutdown() was
   called on the established connection and the kernel has taken every accepted byte.
   */
  lemma ShutdownExactly(es: seq<Event>, cb: Callbacks)
    requires Legal(INITIAL, es, cb) && Closed !in es
    ensures var c := Run(INITIAL, es, cb);
            && (c.state.Disconnecting? <==> AsksForShutdown(false, es))
            && c.shutdowns == (if AsksForShutdown(false, es) && c.output == [] then 1 else 0)
            && (NeverDrops(INITIAL, es, cb) ==>
                  (c.shutdowns == 1 <==> AsksForShutdown(false, es) && c.written == c.accepted))
  {
    RunKeepsSound(INITIAL, es, cb);
    StateByEvents(INITIAL, es, cb);
    RunConserves(INITIAL, es, cb);
    hide Run, Legal, NeverDrops, AsksForShutdown;
    var c := Run(INITIAL, es, cb);
    if NeverDrops(INITIAL, es, cb) {
      assert c.written == c.written + c.output <==> c.output == [];
    }
  }

  /** How many bytes the kernel takes in an event: what it answers, if it was offered anything at all. */
  function Takes(c: Conn, e: Event): nat {
    match e
    case Sent(_, Wrote(n)) => if c.state.Connected? && c.output == [] then n else 0
    case Writable(Wrote(n)) => if !c.state.Disconnected? then n else 0
    case _ => 0
  }

  /** The kernel's side: each event writes exactly the bytes it takes, the next ones in order. */
  lemma StepWrites(c: Conn, e: Event, cb: Callbacks)
    requires Sound(c) && Enabled(c, e)
    ensures var d := Step(c, e, cb);
            && d.written == c.written + (c.output + (if e.Sent? then e.data else []))[..Takes(c, e)]
            && (e.Writable? ==> d.output == c.output[Takes(c, e)..])
  {
    if e.Writable? && e.w.Wrote? && e.w.n == 0 {
      assert c.output[..0] == [] && c.output[0..] == c.output;
    }
  }

  /** When the kernel takes everything that waits, nothing waits any more, and a pending half-close is done. */
  lemma DrainFinishes(c: Conn, cb: Callbacks)
    requires Sound(c) && !c.state.Disconnected?
    ensures var d := Step(c, Writable(Wrote(|c.output|)), cb);
            d.output == [] && !d.writing && (d.state.Disconnecting? ==> d.shutdowns == 1)
  {
    StepKeepsSound(c, Writable(Wrote(|c.output|)), cb);
    StepWrites(c, Writable(Wrote(|c.output|)), cb);
  }

  /** A closed connection stays as it is, whatever is called on it. */
  lemma {:induction false} CloseIsFinal(c: Conn, es: seq<Event>, cb: Callbacks)
    requires Sound(c) && Enabled(c, Closed) && Legal(c.HandleClose(), es, cb)
    ensures Run(c.HandleClose(), es, cb) == c.(state := Disconnected, writing := false)
    decreases |es|
  {
    var d := c.HandleClose();
    if es == [] {
    } else {
      assert Step(d, es[0], cb) == d;
      CloseIsFinal(c, es[1..], cb);
    }
  }

  /** After the shutdown nothing more is accepted or written. */
  lemma {:induction false} ShutdownIsFinal(c: Conn, es: seq<Event>, cb: Callbacks)
    requires Sound(c) && Legal(c, es, cb) && c.shutdowns == 1
    ensures var d := Run(c, es, cb);
            d.written == c.written && d.accepted == c.accepted && d.shutdowns == 1
    decreases |es|
  {
    if es == [] {
    } else {
      StepKeepsSound(c, es[0], cb);
      ShutdownIsFinal(Step(c, es[0], cb), es[1..], cb);
    }
  }

  /** Write-complete is queued exactly when the kernel takes the last waiting byte. */
  lemma WriteCompleteIsTimely(c: Conn, e: Event, cb: Callbacks)
    requires Sound(c) && Enabled(c, e) && cb.writeComplete
    ensures var d := Step(c, e, cb);
            WriteComplete in d.notes[|c.notes|..] <==>
              || (c.output != [] && d.output == [])
              || (e.Sent? && c.state.Connected? && c.output == [] && e.w == Wrote(|e.data|))
  {
  }

  /** High-water is queued exactly when the buffered bytes cross the mark from below, with their number. */
  lemma HighWaterIsTimely(c: Conn, e: Event, cb: Callbacks)
    requires Sound(c) && Enabled(c, e) && cb.highWater
    ensures c.notes <= Step(c, e, cb).notes
    ensures var d := Step(c, e, cb);
            var news := d.notes[|c.notes|..];
            && (|c.output| < cb.mark <= |d.output| <==> HighWater(|d.output|) in news)
            && (forall n | n in news && n.HighWater? :: n.size == |d.output|)
  {
    match e
    case Sent(data, w) =>
      if c.state.Connected? {
        SendNotes(c, data, w, cb);
      }
    case _ =>
  }

  lemma SendNotes(c: Conn, data: bytes, w: WriteResult, cb: Callbacks)
    requires Sound(c) && Possible(w, |data|) && c.state.Connected? && cb.highWater
    ensures var d := c.SendInLoop(data, w, cb);
            d.notes == c.notes
                       + (if c.output == [] && w == Wrote(|data|) && cb.writeComplete then [WriteComplete] else [])
                       + (if |c.output| < cb.mark <= |d.output| then [HighWater(|d.output|)] else [])
  {
  }

  /** A fault on a direct write drops the message, yet the connection still counts as open. */
  lemma FaultDrops(cb: Callbacks)
    ensures var es := [Established, Sent([7], Fault)];
            && Legal(INITIAL, es, cb)
            && Run(INITIAL, es, cb).accepted == [7] && Run(INITIAL, es, cb).written == []
            && Run(INITIAL, es, cb).output == [] && Run(INITIAL, es, cb).state.Connected?
  {
    var c := Step(INITIAL, Established, cb);
    var d := Step(c, Sent([7], Fault), cb);
    assert Legal(d, [], cb);
    assert [Sent([7], Fault)][1..] == [];
    assert Legal(c, [Sent([7], Fault)], cb);
    assert [Established, Sent([7], Fault)][1..] == [Sent([7], Fault)];
  }
}
