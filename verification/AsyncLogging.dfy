/**
 The double-buffered asynchronous log (IMServer/base/AsyncLogging.cc) as interleaved steps.

 append() runs under the mutex and is one step. The logging thread takes the mutex once a round;
 around that it writes and recycles buffers it owns. cond_.waitForSeconds may return at any time.
 A failed assert of the source is the state Aborted.
 */
module AsyncLogging {
  import opened Bytes
  import opened Options

  const LARGE_BUFFER := 4000 * 1000
  const MAX_BATCH := 25

  /** FixedBuffer::append: a line that does not fit with a byte to spare is silently dropped. */
  function FixedAppend(buffer: bytes, line: bytes): bytes {
    if LARGE_BUFFER - |buffer| > |line| then buffer + line else buffer
  }

  datatype Pc =
    | Top         // at while (running_)
    | Waiting     // in cond_.waitForSeconds
    | Writing     // the batch is swapped out
    | Recycling   // the batch is written
    | Exited
    | Aborted

  /** What reaches the log file. */
  datatype Record = Data(content: bytes) | DropNotice(buffers: nat)

  datatype State = State(
    current: bytes,               // currentBuffer_
    next: Option<bytes>,          // nextBuffer_
    buffers: seq<bytes>,          // buffers_
    running: bool,                // running_
    pc: Pc,
    newBuffer1: Option<bytes>,
    newBuffer2: Option<bytes>,
    batch: seq<bytes>,            // buffersToWrite
    output: seq<Record>,
    rounds: seq<seq<bytes>>,      // history: the batches written so far, before any drop
    appended: bytes)              // history: every line handed to append, in order

  const INITIAL := State([], Some([]), [], true, Top, Some([]), Some([]), [], [], [], [])

  datatype Step = Append(line: bytes) | TakeMutex | WaitEnds | WriteBatch | Recycle | Stop

  predicate Enabled(s: State, step: Step) {
    match step
    case Append(_) => true
    case TakeMutex => s.pc.Top?
    case WaitEnds => s.pc.Waiting?
    case WriteBatch => s.pc.Writing?
    case Recycle => s.pc.Recycling?
    case Stop => true
  }

  function AppendLine(s: State, line: bytes): State {
    var t := s.(appended := s.appended + line);
    if LARGE_BUFFER - |s.current| > |line| then
      t.(current := FixedAppend(s.current, line))
    else
      var spare := if s.next.Some? then s.next.value else [];
      t.(buffers := s.buffers + [s.current], current := FixedAppend(spare, line), next := None)
  }

  /** The end of the critical section: everything buffered is swapped out against a spare. */
  function SwapOut(s: State): State
    requires s.newBuffer1.Some?
  {
    var t := s.(pc := Writing, batch := s.buffers + [s.current], buffers := [],
                current := s.newBuffer1.value, newBuffer1 := None);
    if s.next.None? then t.(next := s.newBuffer2, newBuffer2 := None) else t
  }

  /** A round of the loop, up to the point where it may wait. */
  function Enter(s: State): State {
    if !s.running then s.(pc := Exited)
    else if s.newBuffer1 != Some([]) || s.newBuffer2 != Some([]) || s.batch != [] then s.(pc := Aborted)
    else if s.buffers == [] then s.(pc := Waiting)
    else SwapOut(s)
  }

  /** A batch of more than 25 buffers is cut to its first two. */
  function Kept(batch: seq<bytes>): seq<bytes> {
    if |batch| > MAX_BATCH then batch[..2] else batch
  }

  function Written(batch: seq<bytes>): seq<Record> {
    (if |batch| > MAX_BATCH then [DropNotice(|batch| - 2)] else []) + AsData(Kept(batch))
  }

  function AsData(batch: seq<bytes>): seq<Record> {
    seq(|batch|, i requires 0 <= i < |batch| => Data(batch[i]))
  }

  function WriteOut(s: State): State {
    if s.batch == [] then s.(pc := Aborted)
    else
      var kept := Kept(s.batch);
      s.(pc := Recycling, output := s.output + Written(s.batch), rounds := s.rounds + [s.batch],
         batch := if |kept| > 2 then kept[..2] else kept)
  }

  /** Refills the first spare from the back of the batch, then the second. */
  function Refill1(s: State): State {
    if s.newBuffer1.Some? then s
    else if s.batch == [] then s.(pc := Aborted)
    else s.(newBuffer1 := Some([]), batch := s.batch[..|s.batch| - 1])
  }

  function Refill2(s: State): State {
    if s.pc.Aborted? || s.newBuffer2.Some? then s
    else if s.batch == [] then s.(pc := Aborted)
    else s.(newBuffer2 := Some([]), batch := s.batch[..|s.batch| - 1])
  }

  function RefillBoth(s: State): State {
    var t := Refill2(Refill1(s));
    if t.pc.Aborted? then t else t.(pc := Top, batch := [])
  }

  function Apply(s: State, step: Step): State
    requires Enabled(s, step)
  {
    match step
    case Append(line) => AppendLine(s, line)
    case TakeMutex => Enter(s)
    case WaitEnds => if s.newBuffer1.None? then s.(pc := Aborted) else SwapOut(s)
    case WriteBatch => WriteOut(s)
    case Recycle => RefillBoth(s)
    case Stop => s.(running := false)
  }

  predicate Legal(s: State, steps: seq<Step>)
    decreases |steps|
  {
    steps == [] || (Enabled(s, steps[0]) && Legal(Apply(s, steps[0]), steps[1..]))
  }

  function Run(s: State, steps: seq<Step>): State
    requires Legal(s, steps)
    decreases |steps|
  {
    if steps == [] then s else Run(Apply(s, steps[0]), steps[1..])
  }

  // ---- spare buffers -------------------------------------------------------------------------

  /** An absent spare means a full buffer is queued, so the coming batch can refill both spares. */
  predicate Spares(s: State) {
    && !s.pc.Aborted?
    && (s.next.None? ==> s.buffers != [])
    && (s.next.Some? ==> s.next.value == [])
    && |s.current| < LARGE_BUFFER
    && match s.pc
       case Top => s.newBuffer1 == Some([]) && s.newBuffer2 == Some([]) && s.batch == []
       case Waiting => s.newBuffer1 == Some([]) && s.newBuffer2 == Some([]) && s.batch == []
       case Writing =>
         s.newBuffer1.None? && (s.newBuffer2 == Some([]) || (s.newBuffer2.None? && |s.batch| >= 2)) && |s.batch| >= 1
       case Recycling =>
         s.newBuffer1.None? && (s.newBuffer2 == Some([]) || (s.newBuffer2.None? && |s.batch| == 2)) && 1 <= |s.batch| <= 2
       case _ => true
  }

  lemma StepKeepsSpares(s: State, step: Step)
    requires Spares(s) && Enabled(s, step)
    ensures Spares(Apply(s, step))
  {
  }

  /** No assert of the logging thread fails, in any interleaving and with lines of any length. */
  lemma {:induction false} NeverAborts(s: State, steps: seq<Step>)
    requires Spares(s) && Legal(s, steps)
    ensures Spares(Run(s, steps))
    decreases |steps|
  {
    if steps == [] {
    } else {
      StepKeepsSpares(s, steps[0]);
      NeverAborts(Apply(s, steps[0]), steps[1..]);
    }
  }

  // ---- bytes ---------------------------------------------------------------------------------

  function Concat(bs: seq<bytes>): bytes {
    if bs == [] then [] else Concat(bs[..|bs| - 1]) + bs[|bs| - 1]
  }

  function ConcatRounds(rounds: seq<seq<bytes>>): bytes {
    if rounds == [] then [] else ConcatRounds(rounds[..|rounds| - 1]) + Concat(rounds[|rounds| - 1])
  }

  function WrittenRounds(rounds: seq<seq<bytes>>): seq<Record> {
    if rounds == [] then [] else WrittenRounds(rounds[..|rounds| - 1]) + Written(rounds[|rounds| - 1])
  }

  /** Bytes on their way to the file: the batch, the queue, the current buffer. */
  function InFlight(s: State): bytes {
    (if s.pc.Writing? then Concat(s.batch) else []) + Queued(s)
  }

  function Queued(s: State): bytes {
    Concat(s.buffers) + s.current
  }

  predicate Full(bs: seq<bytes>) {
    forall i | 0 <= i < |bs| :: bs[i] != []
  }

  predicate FullButLast(bs: seq<bytes>) {
    bs != [] && Full(bs[..|bs| - 1])
  }

  predicate Conserved(s: State) {
    && s.appended == ConcatRounds(s.rounds) + InFlight(s)
    && s.output == WrittenRounds(s.rounds)
    && Full(s.buffers)
    && (s.pc.Writing? ==> FullButLast(s.batch))
    && (forall i | 0 <= i < |s.rounds| :: FullButLast(s.rounds[i]))
  }

  predicate Short(step: Step) {
    step.Append? ==> |step.line| < LARGE_BUFFER
  }

  lemma ConcatSnoc(bs: seq<bytes>, b: bytes)
    ensures Concat(bs + [b]) == Concat(bs) + b
  {
    assert (bs + [b])[..|bs|] == bs;
  }

  /** append keeps a line exactly when it is shorter than a whole buffer. */
  lemma LineIsKept(s: State, line: bytes)
    requires Spares(s)
    ensures InFlight(AppendLine(s, line)) == InFlight(s) + line <==> |line| < LARGE_BUFFER
  {
    QueueGrows(s, line);
    hide Queued, AppendLine, Concat, Spares;
    var r := AppendLine(s, line);
    var head := if s.pc.Writing? then Concat(s.batch) else [];
    assert InFlight(r) == head + Queued(r) && InFlight(s) == head + Queued(s);
    assert head + Queued(s) + line == head + (Queued(s) + line);
  }

  lemma QueueGrows(s: State, line: bytes)
    requires Spares(s)
    ensures AppendLine(s, line).pc == s.pc && AppendLine(s, line).batch == s.batch
    ensures Queued(AppendLine(s, line)) == Queued(s) + (if |line| < LARGE_BUFFER then line else [])
  {
    ConcatSnoc(s.buffers, s.current);
    hide Concat;
    var kept := if |line| < LARGE_BUFFER then line else [];
    if LARGE_BUFFER - |s.current| > |line| {
      assert Concat(s.buffers) + (s.current + line) == Queued(s) + kept;
    } else {
      assert AppendLine(s, line).current == kept;
    }
  }

  lemma AppendConserves(s: State, line: bytes)
    requires Spares(s) && Conserved(s) && |line| < LARGE_BUFFER
    ensures Conserved(AppendLine(s, line))
  {
    LineIsKept(s, line);
    hide InFlight;
    var r := AppendLine(s, line);
    assert s.appended + line == ConcatRounds(s.rounds) + InFlight(s) + line == ConcatRounds(s.rounds) + (InFlight(s) + line);
  }

  lemma SwapConserves(s: State)
    requires Spares(s) && Conserved(s) && (s.pc.Top? || s.pc.Waiting?)
    ensures Conserved(SwapOut(s))
  {
    ConcatSnoc(s.buffers, s.current);
    var r := SwapOut(s);
    assert r.batch[..|r.batch| - 1] == s.buffers;
    assert InFlight(r) == Concat(r.batch) + ([] + []) == InFlight(s);
  }

  lemma RoundsSnoc(rounds: seq<seq<bytes>>, batch: seq<bytes>)
    ensures ConcatRounds(rounds + [batch]) == ConcatRounds(rounds) + Concat(batch)
    ensures WrittenRounds(rounds + [batch]) == WrittenRounds(rounds) + Written(batch)
  {
    assert (rounds + [batch])[..|rounds|] == rounds;
  }

  lemma WriteConserves(s: State)
    requires Spares(s) && Conserved(s) && s.pc.Writing?
    ensures Conserved(WriteOut(s))
  {
    hide Concat, ConcatRounds, WrittenRounds, Written, FullButLast;
    RoundsSnoc(s.rounds, s.batch);
    var r := WriteOut(s);
    assert InFlight(s) == Concat(s.batch) + InFlight(r);
    assert s.appended == ConcatRounds(s.rounds) + Concat(s.batch) + InFlight(r);
  }

  lemma StepConserves(s: State, step: Step)
    requires Spares(s) && Conserved(s) && Enabled(s, step) && Short(step)
    ensures Conserved(Apply(s, step))
  {
    match step
    case Append(line) => AppendConserves(s, line);
    case TakeMutex => SwapConserves(s);
    case WaitEnds => SwapConserves(s);
    case WriteBatch => WriteConserves(s);
    case _ =>
  }

  /** Every appended byte is in a finished round or still in flight, in order. */
  lemma {:induction false} RunConserves(s: State, steps: seq<Step>)
    requires Spares(s) && Conserved(s) && Legal(s, steps)
    requires forall i | 0 <= i < |steps| :: Short(steps[i])
    ensures Conserved(Run(s, steps))
    decreases |steps|
  {
    if steps == [] {
    } else {
      StepKeepsSpares(s, steps[0]);
      StepConserves(s, steps[0]);
      RunConserves(Apply(s, steps[0]), steps[1..]);
    }
  }

  // ---- what the file holds -------------------------------------------------------------------

  /** The logged bytes in a file, without the notices. */
  function Content(output: seq<Record>): bytes {
    if output == [] then []
    else
      var last := output[|output| - 1];
      Content(output[..|output| - 1]) + (if last.Data? then last.content else [])
  }

  lemma {:induction false} ContentSplit(a: seq<Record>, b: seq<Record>)
    ensures Content(a + b) == Content(a) + Content(b)
    decreases |b|
  {
    if b == [] {
      assert a + b == a;
    } else {
      var n := |b| - 1;
      assert (a + b)[..|a| + n] == a + b[..n];
      ContentSplit(a, b[..n]);
    }
  }

  lemma {:induction false} ContentOfData(batch: seq<bytes>)
    ensures Content(AsData(batch)) == Concat(batch)
  {
    if batch == [] {
    } else {
      var n := |batch| - 1;
      assert AsData(batch)[..n] == AsData(batch[..n]);
      ContentOfData(batch[..n]);
    }
  }

  lemma ContentOfRound(batch: seq<bytes>)
    ensures Content(Written(batch)) == Concat(Kept(batch))
  {
    var notice: seq<Record> := if |batch| > MAX_BATCH then [DropNotice(|batch| - 2)] else [];
    ContentSplit(notice, AsData(Kept(batch)));
    ContentOfData(Kept(batch));
    assert Content(notice) == [];
  }

  /** The notice in the file states how many buffers were dropped, and comes before the two kept ones. */
  lemma NoticeCountsDropped(batch: seq<bytes>)
    requires |batch| > MAX_BATCH
    ensures Written(batch) == [DropNotice(|batch| - |Kept(batch)|), Data(batch[0]), Data(batch[1])]
  {
    assert AsData(Kept(batch)) == [Data(batch[0]), Data(batch[1])];
  }

  lemma {:induction false} ConcatGrows(bs: seq<bytes>, k: nat)
    requires k <= |bs|
    ensures |Concat(bs[..k])| <= |Concat(bs)|
    ensures k < |bs| && bs[k] != [] ==> |Concat(bs[..k])| < |Concat(bs)|
  {
    if k < |bs| {
      var n := |bs| - 1;
      ConcatGrows(bs[..n], k);
      assert bs[..n][..k] == bs[..k];
    } else {
      assert bs[..k] == bs;
    }
  }

  predicate NoOverflow(rounds: seq<seq<bytes>>) {
    forall i | 0 <= i < |rounds| :: |rounds[i]| <= MAX_BATCH
  }

  lemma {:induction false} FileHoldsRounds(rounds: seq<seq<bytes>>)
    ensures |Content(WrittenRounds(rounds))| <= |ConcatRounds(rounds)|
    ensures NoOverflow(rounds) ==> Content(WrittenRounds(rounds)) == ConcatRounds(rounds)
  {
    if rounds == [] {
    } else {
      var n := |rounds| - 1;
      FileHoldsRounds(rounds[..n]);
      ContentSplit(WrittenRounds(rounds[..n]), Written(rounds[n]));
      RoundLoses(rounds[n]);
      NoOverflowSplit(rounds);
      hide Content, Concat, Written, NoOverflow;
    }
  }

  lemma {:induction false} FileLosesRounds(rounds: seq<seq<bytes>>)
    requires !NoOverflow(rounds) && forall i | 0 <= i < |rounds| :: FullButLast(rounds[i])
    ensures |Content(WrittenRounds(rounds))| < |ConcatRounds(rounds)|
  {
    var n := |rounds| - 1;
    FileHoldsRounds(rounds[..n]);
    ContentSplit(WrittenRounds(rounds[..n]), Written(rounds[n]));
    RoundLoses(rounds[n]);
    NoOverflowSplit(rounds);
    hide Content, Concat, Written, FullButLast, NoOverflow;
    if |rounds[n]| <= MAX_BATCH {
      FileLosesRounds(rounds[..n]);
    }
  }

  lemma NoOverflowSplit(rounds: seq<seq<bytes>>)
    requires rounds != []
    ensures var n := |rounds| - 1;
            NoOverflow(rounds) <==> NoOverflow(rounds[..n]) && |rounds[n]| <= MAX_BATCH
  {
    var n := |rounds| - 1;
    if NoOverflow(rounds[..n]) && |rounds[n]| <= MAX_BATCH {
      forall i | 0 <= i < |rounds|
        ensures |rounds[i]| <= MAX_BATCH
      {
        assert i < n ==> rounds[i] == rounds[..n][i];
      }
    }
  }

  lemma RoundLoses(batch: seq<bytes>)
    ensures |Content(Written(batch))| <= |Concat(batch)|
    ensures |batch| <= MAX_BATCH ==> Content(Written(batch)) == Concat(batch)
    ensures |batch| > MAX_BATCH && FullButLast(batch) ==> |Content(Written(batch))| < |Concat(batch)|
  {
    ContentOfRound(batch);
    if |batch| > MAX_BATCH {
      ConcatGrows(batch, 2);
      if FullButLast(batch) {
        assert batch[2] == batch[..|batch| - 1][2] != [];
      }
    }
  }

  // ---- lines as long as a buffer -------------------------------------------------------------

  /** Bytes appended that are neither in a finished round nor in flight. */
  function Missing(s: State): int {
    |s.appended| - |ConcatRounds(s.rounds)| - |InFlight(s)|
  }

  predicate Accounted(s: State) {
    s.output == WrittenRounds(s.rounds) && Missing(s) >= 0
  }

  lemma SwapAccounts(s: State)
    requires Spares(s) && (s.pc.Top? || s.pc.Waiting?)
    ensures Missing(SwapOut(s)) == Missing(s)
  {
    ConcatSnoc(s.buffers, s.current);
  }

  lemma WriteAccounts(s: State)
    requires Spares(s) && s.pc.Writing?
    ensures Missing(WriteOut(s)) == Missing(s)
    ensures WriteOut(s).output == s.output + Written(s.batch)
    ensures WrittenRounds(WriteOut(s).rounds) == WrittenRounds(s.rounds) + Written(s.batch)
  {
    var r := WriteOut(s);
    assert r.rounds[..|r.rounds| - 1] == s.rounds;
    hide Written;
  }

  /** Only a line that is too long adds to what is missing, and nothing takes it back. */
  lemma StepAccounts(s: State, step: Step)
    requires Spares(s) && Accounted(s) && Enabled(s, step)
    ensures Accounted(Apply(s, step))
    ensures Missing(Apply(s, step)) == Missing(s) + (if Short(step) then 0 else |step.line|)
  {
    match step
    case Append(line) => AppendAccounts(s, line);
    case TakeMutex =>
      if s.running && s.buffers != [] {
        SwapAccounts(s);
      }
    case WaitEnds => SwapAccounts(s);
    case WriteBatch => WriteAccounts(s);
    case _ =>
  }

  lemma AppendAccounts(s: State, line: bytes)
    requires Spares(s)
    ensures var r := AppendLine(s, line);
            && r.rounds == s.rounds && r.output == s.output
            && Missing(r) == Missing(s) + (if |line| < LARGE_BUFFER then 0 else |line|)
  {
    QueueGrows(s, line);
    hide Queued;
  }

  lemma {:induction false} RunAccounts(s: State, steps: seq<Step>)
    requires Spares(s) && Accounted(s) && Legal(s, steps)
    ensures Accounted(Run(s, steps)) && Missing(Run(s, steps)) >= Missing(s)
    ensures (exists i | 0 <= i < |steps| :: !Short(steps[i])) ==> Missing(Run(s, steps)) > Missing(s)
    decreases |steps|
  {
    hide Accounted, Missing, Spares, Apply, Enabled;
    if steps == [] {
    } else {
      var r := Apply(s, steps[0]);
      StepKeepsSpares(s, steps[0]);
      StepAccounts(s, steps[0]);
      RunAccounts(r, steps[1..]);
      if exists i | 0 <= i < |steps| :: !Short(steps[i]) {
        var i :| 0 <= i < |steps| && !Short(steps[i]);
        assert i > 0 ==> steps[i] == steps[1..][i - 1];
      }
    }
  }

  /**
   The file followed by the bytes in flight is exactly what was appended, if and only if no batch
   ever exceeded 25 buffers and no line was as long as a buffer.
   */
  lemma FileIsTheLog(steps: seq<Step>)
    requires Legal(INITIAL, steps)
    ensures var s := Run(INITIAL, steps);
            && (Content(s.output) + InFlight(s) == Lines(steps) <==>
                  NoOverflow(s.rounds) && forall i | 0 <= i < |steps| :: Short(steps[i]))
            && s.output == WrittenRounds(s.rounds)
  {
    var s := Run(INITIAL, steps);
    AppendedIsLines(INITIAL, steps);
    FileHoldsRounds(s.rounds);
    if forall i | 0 <= i < |steps| :: Short(steps[i]) {
      RunConserves(INITIAL, steps);
      if !NoOverflow(s.rounds) {
        FileLosesRounds(s.rounds);
      }
    } else {
      RunAccounts(INITIAL, steps);
      assert |Content(s.output)| + |InFlight(s)| < |s.appended|;
    }
  }

  // ---- rounds --------------------------------------------------------------------------------

  /** The lines of a run's append calls, in order. */
  function Lines(steps: seq<Step>): bytes {
    if steps == [] then [] else LineOf(steps[0]) + Lines(steps[1..])
  }

  function LineOf(step: Step): bytes {
    if step.Append? then step.line else []
  }

  lemma StepAppends(s: State, step: Step)
    requires Enabled(s, step)
    ensures Apply(s, step).appended == s.appended + LineOf(step)
  {
  }

  lemma {:induction false} AppendedIsLines(s: State, steps: seq<Step>)
    requires Legal(s, steps)
    ensures Run(s, steps).appended == s.appended + Lines(steps)
    decreases |steps|
  {
    hide Enabled, Apply, LineOf;
    if steps == [] {
    } else {
      StepAppends(s, steps[0]);
      AppendedIsLines(Apply(s, steps[0]), steps[1..]);
    }
  }

  predicate OfLogger(step: Step) {
    !step.Append? && !step.Stop?
  }

  /** How many steps of a run are the logging thread's. */
  function LoggerSteps(steps: seq<Step>): nat {
    if steps == [] then 0 else (if OfLogger(steps[0]) then 1 else 0) + LoggerSteps(steps[1..])
  }

  /** How many more steps the logging thread needs to have written what is queued now. */
  function ToGo(pc: Pc): nat {
    match pc
    case Top => 3
    case Waiting => 2
    case Writing => 1
    case _ => 0
  }

  function Owed(s: State, n: nat): nat {
    if n < |s.rounds| then 0 else ToGo(s.pc)
  }

  /** The round after the first n is to hold these bytes first: they are queued, swapped out, or written. */
  predicate Heading(s: State, n: nat, head: bytes) {
    || ((s.pc.Top? || s.pc.Waiting?) && |s.rounds| == n && head <= Queued(s))
    || (s.pc.Writing? && |s.rounds| == n && head <= Concat(s.batch))
    || (n < |s.rounds| && head <= Concat(s.rounds[n]))
  }

  lemma SwapHeads(s: State, head: bytes)
    requires head <= Queued(s) && s.newBuffer1.Some?
    ensures head <= Concat(SwapOut(s).batch)
  {
    ConcatSnoc(s.buffers, s.current);
  }

  lemma StepHeads(s: State, step: Step, n: nat, head: bytes)
    requires Spares(s) && Enabled(s, step) && Heading(s, n, head)
    requires s.pc.Top? && n == |s.rounds| ==> s.running
    ensures Heading(Apply(s, step), n, head)
  {
    hide Concat, Written;
    match step
    case Append(line) => QueueGrows(s, line);
    case TakeMutex =>
      if n == |s.rounds| {
        SwapHeads(s, head);
      }
    case WaitEnds =>
      if n == |s.rounds| {
        SwapHeads(s, head);
      }
    case _ =>
  }

  lemma {:induction false} RunHeads(s: State, steps: seq<Step>, n: nat, head: bytes)
    requires Spares(s) && Legal(s, steps) && Heading(s, n, head)
    requires s.pc.Top? && n == |s.rounds| ==> s.running && Stop !in steps
    ensures Heading(Run(s, steps), n, head) && (LoggerSteps(steps) >= Owed(s, n) ==> n < |Run(s, steps).rounds|)
    ensures Spares(Run(s, steps)) && s.rounds <= Run(s, steps).rounds
    decreases |steps|
  {
    if steps == [] {
    } else {
      StepKeepsSpares(s, steps[0]);
      StepHeads(s, steps[0], n, head);
      StepRounds(s, steps[0], n, head);
      StepOwes(s, steps[0], n);
      assert Stop !in steps ==> steps[0] != Stop && Stop !in steps[1..];
      hide Spares, Heading, Enabled, Apply, Owed;
      RunHeads(Apply(s, steps[0]), steps[1..], n, head);
      OwedNothing(Run(s, steps), n, head);
    }
  }

  lemma StepOwes(s: State, step: Step, n: nat)
    requires Spares(s) && Enabled(s, step) && (s.pc.Top? && n == |s.rounds| ==> s.running)
    requires n == |s.rounds| ==> s.pc.Top? || s.pc.Waiting? || s.pc.Writing?
    requires n <= |s.rounds|
    ensures OfLogger(step) && Owed(s, n) > 0 ==> Owed(Apply(s, step), n) < Owed(s, n)
    ensures Owed(Apply(s, step), n) <= Owed(s, n)
  {
  }

  lemma OwedNothing(s: State, n: nat, head: bytes)
    requires Heading(s, n, head)
    ensures Owed(s, n) == 0 <==> n < |s.rounds|
  {
  }

  /** Where a step leaves the logging thread. */
  lemma StepRounds(s: State, step: Step, n: nat, head: bytes)
    requires Spares(s) && Enabled(s, step) && Heading(s, n, head)
    ensures var r := Apply(s, step);
            && s.rounds <= r.rounds
            && (r.pc.Top? && n == |r.rounds| ==> s.pc.Top? && n == |s.rounds| && (s.running && step != Stop ==> r.running))
  {
  }

  lemma {:induction false} RunningIsNotStopped(s: State, steps: seq<Step>)
    requires Legal(s, steps)
    ensures Run(s, steps).running <==> s.running && Stop !in steps
    decreases |steps|
  {
    if steps == [] {
    } else {
      assert steps == [steps[0]] + steps[1..];
      RunningIsNotStopped(Apply(s, steps[0]), steps[1..]);
    }
  }

  lemma {:induction false} FileGrows(rounds: seq<seq<bytes>>, k: nat)
    requires k <= |rounds|
    ensures Content(WrittenRounds(rounds[..k])) <= Content(WrittenRounds(rounds))
    decreases |rounds|
  {
    hide Content, Written, WrittenRounds;
    if k == |rounds| {
      assert rounds[..k] == rounds;
    } else {
      var n := |rounds| - 1;
      FileGrows(rounds[..n], k);
      assert rounds[..n][..k] == rounds[..k];
      assert rounds == rounds[..n] + [rounds[n]];
      RoundsSnoc(rounds[..n], rounds[n]);
      ContentSplit(WrittenRounds(rounds[..n]), Written(rounds[n]));
    }
  }

  /** What the file holds after one more round of no more than 25 buffers. */
  lemma FileAfterRound(rounds: seq<seq<bytes>>, n: nat, head: bytes)
    requires n < |rounds| && |rounds[n]| <= MAX_BATCH && head <= Concat(rounds[n])
    ensures Content(WrittenRounds(rounds[..n])) + head <= Content(WrittenRounds(rounds))
  {
    hide Content, Concat, Written, WrittenRounds;
    assert rounds[..n + 1] == rounds[..n] + [rounds[n]];
    RoundsSnoc(rounds[..n], rounds[n]);
    ContentSplit(WrittenRounds(rounds[..n]), Written(rounds[n]));
    RoundLoses(rounds[n]);
    FileGrows(rounds, n + 1);
  }

  lemma QueuedReachesFile(s: State, steps: seq<Step>)
    requires Spares(s) && Accounted(s) && Legal(s, steps) && LoggerSteps(steps) >= 3
    requires s.pc.Waiting? || (s.pc.Top? && s.running && Stop !in steps)
    ensures var r, n := Run(s, steps), |s.rounds|;
            && s.rounds < r.rounds && Queued(s) <= Concat(r.rounds[n])
            && (|r.rounds[n]| <= MAX_BATCH ==> Content(s.output) + Queued(s) <= Content(r.output))
  {
    var r, n := Run(s, steps), |s.rounds|;
    RunAccounts(s, steps);
    RunHeads(s, steps, n, Queued(s));
    hide Run, Legal, Content, Concat, Queued, WrittenRounds, Spares, Missing;
    assert r.rounds[..n] == s.rounds;
    if |r.rounds[n]| <= MAX_BATCH {
      FileAfterRound(r.rounds, n, Queued(s));
    }
  }

  /**
   Whatever is queued while the logging thread is outside a round, partly filled buffer included, is in the
   next batch once that thread has taken three more steps, and in the file unless that batch is over 25
   buffers; with no such batch so far, every line appended up to now is.
   */
  lemma LinesReachFile(before: seq<Step>, steps: seq<Step>)
    requires Legal(INITIAL, before) && Legal(Run(INITIAL, before), steps)
    requires Run(INITIAL, before).pc.Waiting? || (Run(INITIAL, before).pc.Top? && Stop !in before && Stop !in steps)
    requires LoggerSteps(steps) >= 3
    ensures var s := Run(INITIAL, before);
            var r, n := Run(s, steps), |s.rounds|;
            && s.rounds < r.rounds && Queued(s) <= Concat(r.rounds[n])
            && (|r.rounds[n]| <= MAX_BATCH ==> Content(s.output) + Queued(s) <= Content(r.output))
            && (NoOverflow(r.rounds[..n + 1]) && (forall i | 0 <= i < |before| :: Short(before[i])) ==>
                  Lines(before) <= Content(r.output))
  {
    hide *;
    var s := Run(INITIAL, before);
    Reached(before);
    QueuedReachesFile(s, steps);
    var r, n := Run(s, steps), |s.rounds|;
    assert r.rounds[..n + 1][..n] == s.rounds;
    NoOverflowSplit(r.rounds[..n + 1]);
    if NoOverflow(s.rounds) && forall i | 0 <= i < |before| :: Short(before[i]) {
      FileUpToNow(before);
    }
  }

  lemma Reached(before: seq<Step>)
    requires Legal(INITIAL, before)
    ensures var s := Run(INITIAL, before);
            Spares(s) && Accounted(s) && (s.running <==> Stop !in before)
  {
    RunningIsNotStopped(INITIAL, before);
    NeverAborts(INITIAL, before);
    RunAccounts(INITIAL, before);
  }

  /** Outside a round, with nothing lost so far, the lines are in the file or queued. */
  lemma FileUpToNow(before: seq<Step>)
    requires Legal(INITIAL, before) && (forall i | 0 <= i < |before| :: Short(before[i]))
    requires NoOverflow(Run(INITIAL, before).rounds) && !Run(INITIAL, before).pc.Writing?
    ensures Lines(before) == Content(Run(INITIAL, before).output) + Queued(Run(INITIAL, before))
  {
    FileIsTheLog(before);
    var s := Run(INITIAL, before);
    hide Run, Legal, Content, Queued, Lines, NoOverflow;
    assert InFlight(s) == Queued(s);
  }

  /** The steps of one round from where the logging thread is. */
  function RoundFrom(s: State): seq<Step> {
    (if s.pc.Top? then [TakeMutex] else [])
    + (if s.pc.Waiting? || s.buffers == [] then [WaitEnds] else [])
    + [WriteBatch]
  }

  /** Undisturbed, a round can always be taken, writes exactly what was queued and leaves nothing in flight. */
  lemma OneRound(s: State)
    requires Spares(s) && (s.pc.Waiting? || (s.pc.Top? && s.running))
    ensures Legal(s, RoundFrom(s))
    ensures var r := Run(s, RoundFrom(s));
            && |r.rounds| == |s.rounds| + 1 && s.rounds <= r.rounds
            && Concat(r.rounds[|s.rounds|]) == Queued(s) && InFlight(r) == []
            && r.output == s.output + Written(r.rounds[|s.rounds|])
  {
    RoundIsSwapAndWrite(s);
    ConcatSnoc(s.buffers, s.current);
    assert s.newBuffer1 == Some([]);
    hide Legal, Run, RoundFrom, Written, Spares;
    var r := WriteOut(SwapOut(s));
    assert r.rounds == s.rounds + [s.buffers + [s.current]];
    assert InFlight(r) == [] + (Concat([]) + []);
  }

  lemma RoundIsSwapAndWrite(s: State)
    requires Spares(s) && (s.pc.Waiting? || (s.pc.Top? && s.running))
    ensures Legal(s, RoundFrom(s)) && Run(s, RoundFrom(s)) == WriteOut(SwapOut(s))
  {
    var swapped := SwapOut(s);
    var done := WriteOut(swapped);
    hide WriteOut, SwapOut;
    assert [WriteBatch][1..] == [] && Legal(done, []) && Run(done, []) == done;
    assert swapped.pc.Writing? by { SwapWrites(s); }
    assert Legal(swapped, [WriteBatch]) && Run(swapped, [WriteBatch]) == done;
    if s.pc.Top? && s.buffers == [] {
      var waits := s.(pc := Waiting);
      assert RoundFrom(s)[1..] == [WaitEnds, WriteBatch] && [WaitEnds, WriteBatch][1..] == [WriteBatch];
      assert SwapOut(waits) == swapped by { SwapWrites(s); }
      assert Legal(waits, [WaitEnds, WriteBatch]) && Run(waits, [WaitEnds, WriteBatch]) == done;
    } else {
      assert RoundFrom(s)[1..] == [WriteBatch];
    }
  }

  /** What is swapped out does not depend on whether the thread waited. */
  lemma SwapWrites(s: State)
    requires s.newBuffer1.Some?
    ensures SwapOut(s).pc.Writing? && SwapOut(s.(pc := Waiting)) == SwapOut(s)
  {
  }

  /** After stop() the logging thread leaves at its next look at the loop condition, for good. */
  lemma {:induction false} StopEndsLogger(s: State, steps: seq<Step>)
    requires Legal(s, steps) && !s.running && (s.pc.Exited? || TakeMutex in steps)
    ensures Run(s, steps).pc.Exited? && (s.pc.Exited? ==> Run(s, steps).output == s.output)
    decreases |steps|
  {
    if steps == [] {
    } else {
      StopEndsLogger(Apply(s, steps[0]), steps[1..]);
    }
  }

  // ---- a batch that overflows ----------------------------------------------------------------

  lemma {:induction false} RunInTwo(s: State, a: seq<Step>, b: seq<Step>)
    requires Legal(s, a) && Legal(Run(s, a), b)
    ensures Legal(s, a + b) && Run(s, a + b) == Run(Run(s, a), b)
    decreases |a|
  {
    if a == [] {
      assert a + b == b;
    } else {
      assert (a + b)[0] == a[0] && (a + b)[1..] == a[1..] + b;
      RunInTwo(Apply(s, a[0]), a[1..], b);
    }
  }

  function Copies(line: bytes, n: nat): seq<bytes> {
    seq(n, _ => line)
  }

  function Burst(line: bytes, n: nat): seq<Step> {
    seq(n, _ => Append(line))
  }

  /** Lines one byte short of a buffer fill a buffer each while the logging thread is away. */
  lemma {:induction false} RunBurst(line: bytes, n: nat)
    requires n > 0 && |line| == LARGE_BUFFER - 1
    ensures Legal(INITIAL, Burst(line, n))
    ensures var s := Run(INITIAL, Burst(line, n));
            && s.current == line && s.buffers == Copies(line, n - 1) && (s.next.Some? ==> s.next.value == [])
            && s == INITIAL.(current := s.current, buffers := s.buffers, next := s.next, appended := s.appended)
    decreases n
  {
    if n == 1 {
      assert Burst(line, 1) == [Append(line)] && [Append(line)][1..] == [];
      assert Copies(line, 0) == [];
    } else {
      RunBurst(line, n - 1);
      var s := Run(INITIAL, Burst(line, n - 1));
      assert [Append(line)][1..] == [];
      assert Legal(Apply(s, Append(line)), []);
      RunInTwo(INITIAL, Burst(line, n - 1), [Append(line)]);
      assert Burst(line, n) == Burst(line, n - 1) + [Append(line)];
      assert Copies(line, n - 1) == Copies(line, n - 2) + [line];
    }
  }

  lemma WriteBurst(s: State, line: bytes, n: nat)
    requires n > MAX_BATCH && s.current == line && s.buffers == Copies(line, n - 1)
    requires s == INITIAL.(current := s.current, buffers := s.buffers, next := s.next, appended := s.appended)
    ensures Legal(s, [TakeMutex, WriteBatch])
    ensures var r := Run(s, [TakeMutex, WriteBatch]);
            r.rounds == [Copies(line, n)] && r.output == [DropNotice(n - 2), Data(line), Data(line)]
  {
    var batch := Copies(line, n);
    var b := Apply(s, TakeMutex);
    assert b.batch == batch;
    NoticeCountsDropped(batch);
    hide Written, Copies;
    var c := Apply(b, WriteBatch);
    assert c.rounds == [batch] && c.output == Written(batch);
    var tail := [TakeMutex, WriteBatch];
    assert tail[1..] == [WriteBatch] && [WriteBatch][1..] == [];
    assert Legal(b, [WriteBatch]) && Run(b, [WriteBatch]) == c;
  }

  /** More than 25 such lines before the logging thread gets the mutex: bytes are missing from the file. */
  lemma BurstOverflows(line: bytes, n: nat)
    requires n > MAX_BATCH && |line| == LARGE_BUFFER - 1
    ensures var steps := Burst(line, n) + [TakeMutex, WriteBatch];
            && Legal(INITIAL, steps)
            && Run(INITIAL, steps).rounds == [Copies(line, n)] && !NoOverflow(Run(INITIAL, steps).rounds)
            && Run(INITIAL, steps).output == [DropNotice(n - 2), Data(line), Data(line)]
            && Content(Run(INITIAL, steps).output) + InFlight(Run(INITIAL, steps)) != Lines(steps)
  {
    hide Legal, Run, Content, InFlight;
    RunBurst(line, n);
    var s := Run(INITIAL, Burst(line, n));
    WriteBurst(s, line, n);
    var steps := Burst(line, n) + [TakeMutex, WriteBatch];
    RunInTwo(INITIAL, Burst(line, n), [TakeMutex, WriteBatch]);
    assert !NoOverflow(Run(INITIAL, steps).rounds) by {
      assert |Run(INITIAL, steps).rounds[0]| == n;
    }
    FileIsTheLog(steps);
  }
}
