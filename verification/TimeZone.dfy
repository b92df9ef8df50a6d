/**
 UTC and local time (IMServer/base/TimeZone.cc).

 A zone is a table of transitions. The lookups search the table by UTC second or by local second;
 the results compare them with the set of UTC seconds that really show a given local second.
 */
module TimeZone {
  import opened CInt
  import opened Calendar
  import opened Options

  // ---- broken-down UTC -----------------------------------------------------------------------

  datatype DateTime = DateTime(year: int, month: int, day: int, hour: int, minute: int, second: int) {
    function Day(): Date {
      Date(year, month, day)
    }
  }

  const SECONDS_PER_DAY := 86400
  const EPOCH := 2440588

  /** Date::kJulianDayOf1970_01_01 is computed from the calendar; this is its value. */
  lemma EpochIs1970()
    ensures EPOCH == JulianDayNumber(1970, 1, 1)
  {
  }

  function FillHMS(seconds: nat, ymd: Date): DateTime {
    var minutes := seconds / 60;
    DateTime(ymd.year, ymd.month, ymd.day, minutes / 60, minutes % 60, seconds % 60)
  }

  function BreakTime(t: int): DateTime {
    var seconds := Rem(t, SECONDS_PER_DAY);
    var days := Quot(t, SECONDS_PER_DAY);
    if seconds < 0 then
      FillHMS(seconds + SECONDS_PER_DAY, YearMonthDay(days - 1 + EPOCH))
    else
      FillHMS(seconds, YearMonthDay(days + EPOCH))
  }

  function FromUtcTime(dt: DateTime): int {
    (JulianDayNumber(dt.year, dt.month, dt.day) - EPOCH) * SECONDS_PER_DAY
    + (dt.hour * 3600 + dt.minute * 60 + dt.second)
  }

  predicate ValidDateTime(dt: DateTime) {
    && InDomain(dt.Day())
    && 0 <= dt.hour < 24 && 0 <= dt.minute < 60 && 0 <= dt.second < 60
  }

  /** Seconds from the first day of the calendar's domain on. */
  predicate InRange(t: int) {
    t >= (FIRST_DAY - EPOCH) * SECONDS_PER_DAY
  }

  /** The correction after truncating division leaves the floor quotient and remainder. */
  lemma BreakTimeByFloor(t: int)
    ensures BreakTime(t) == FillHMS(t % SECONDS_PER_DAY, YearMonthDay(t / SECONDS_PER_DAY + EPOCH))
  {
    hide YearMonthDay;
    if t < 0 {
      FloorOfNegative(-t);
    }
  }

  lemma FloorOfNegative(u: int)
    requires u > 0
    ensures (-u) / 86400 == if u % 86400 == 0 then -(u / 86400) else -(u / 86400) - 1
    ensures (-u) % 86400 == if u % 86400 == 0 then 0 else 86400 - u % 86400
  {
  }

  lemma ClockFields(seconds: nat)
    requires seconds < SECONDS_PER_DAY
    ensures var minutes := seconds / 60;
            && 0 <= minutes / 60 < 24
            && (minutes / 60) * 3600 + (minutes % 60) * 60 + seconds % 60 == seconds
  {
  }

  lemma ClockSeconds(h: int, m: int, s: int)
    requires 0 <= h < 24 && 0 <= m < 60 && 0 <= s < 60
    ensures var seconds := h * 3600 + m * 60 + s;
            0 <= seconds < SECONDS_PER_DAY
            && seconds % 60 == s && (seconds / 60) % 60 == m && seconds / 60 / 60 == h
  {
  }

  /** Seconds to fields and back, negative seconds included. */
  lemma UtcRoundTrip(t: int)
    requires InRange(t)
    ensures ValidDateTime(BreakTime(t))
    ensures FromUtcTime(BreakTime(t)) == t
  {
    hide YearMonthDay, JulianDayNumber, InDomain;
    BreakTimeByFloor(t);
    var days := t / SECONDS_PER_DAY + EPOCH;
    NumberRoundTrip(days);
    ClockFields(t % SECONDS_PER_DAY);
    assert Number(YearMonthDay(days)) == days;
  }

  /** Fields to seconds and back. */
  lemma DateTimeRoundTrip(dt: DateTime)
    requires ValidDateTime(dt)
    ensures InRange(FromUtcTime(dt))
    ensures BreakTime(FromUtcTime(dt)) == dt
  {
    hide YearMonthDay, JulianDayNumber, InDomain;
    var t := FromUtcTime(dt);
    BreakTimeByFloor(t);
    DateRoundTrip(dt.Day());
    ClockSeconds(dt.hour, dt.minute, dt.second);
    assert Number(dt.Day()) == JulianDayNumber(dt.year, dt.month, dt.day);
    DaysAndSeconds(JulianDayNumber(dt.year, dt.month, dt.day) - EPOCH, dt.hour * 3600 + dt.minute * 60 + dt.second);
  }

  lemma DaysAndSeconds(days: int, seconds: int)
    requires 0 <= seconds < SECONDS_PER_DAY
    ensures (days * SECONDS_PER_DAY + seconds) / SECONDS_PER_DAY == days
    ensures (days * SECONDS_PER_DAY + seconds) % SECONDS_PER_DAY == seconds
  {
  }

  /** The next second of the clock, with its carries, on the calendar of Successor. */
  function NextSecond(dt: DateTime): DateTime {
    if dt.second < 59 then dt.(second := dt.second + 1)
    else if dt.minute < 59 then dt.(second := 0, minute := dt.minute + 1)
    else if dt.hour < 23 then dt.(second := 0, minute := 0, hour := dt.hour + 1)
    else
      var day := Successor(dt.Day());
      DateTime(day.year, day.month, day.day, 0, 0, 0)
  }

  /** Counting seconds is the clock ticking, from midnight of 1 January 1970, forwards and backwards. */
  lemma BreakTimeTicks(t: int)
    requires InRange(t)
    ensures BreakTime(0) == DateTime(1970, 1, 1, 0, 0, 0)
    ensures BreakTime(t + 1) == NextSecond(BreakTime(t))
  {
    hide YearMonthDay, JulianDayNumber, InDomain, Successor, Number;
    var days, seconds := t / SECONDS_PER_DAY, t % SECONDS_PER_DAY;
    EpochDay();
    BreakTimeByFloor(0);
    BreakTimeByFloor(t);
    BreakTimeByFloor(t + 1);
    ClockTicks(seconds);
    DayAfter(days + EPOCH);
    DaysAndSeconds(if seconds == 86399 then days + 1 else days, if seconds == 86399 then 0 else seconds + 1);
  }

  lemma EpochDay()
    ensures YearMonthDay(EPOCH) == Date(1970, 1, 1)
  {
    EpochIs1970();
    DateRoundTrip(Date(1970, 1, 1));
  }

  /** The date of the next day number is the next date. */
  lemma DayAfter(j: int)
    requires j >= FIRST_DAY
    ensures YearMonthDay(j + 1) == Successor(YearMonthDay(j))
  {
    EnumeratesCalendar(j - FIRST_DAY);
    EnumeratesCalendar(j - FIRST_DAY + 1);
    hide YearMonthDay, Successor;
  }

  lemma ClockTicks(seconds: nat)
    requires seconds < SECONDS_PER_DAY
    ensures var day := Date(2000, 1, 1);
            var dt := FillHMS(seconds, day);
            && (seconds < 86399 ==> dt.second < 59 || dt.minute < 59 || dt.hour < 23)
            && (seconds == 86399 ==> dt.second == 59 && dt.minute == 59 && dt.hour == 23)
            && (seconds < 86399 ==> NextSecond(dt) == FillHMS(seconds + 1, day))
  {
    hide Successor;
  }

  // ---- zone data -----------------------------------------------------------------------------

  datatype Transition = Transition(utctime: int, localtime: int, localtimeIdx: int)

  datatype LocalTime = LocalTime(utcOffset: int, isDst: bool, desigIdx: int)

  datatype Data = Data(transitions: seq<Transition>, localtimes: seq<LocalTime>) {

    function AddLocalTime(utcOffset: int, isDst: bool, desigIdx: int): Data {
      this.(localtimes := localtimes + [LocalTime(utcOffset, isDst, desigIdx)])
    }

    /** vector::at throws on an index out of range. */
    function AddTransition(utcTime: int, localtimeIdx: int): Option<Data> {
      if 0 <= localtimeIdx < |localtimes| then
        var offset := localtimes[localtimeIdx].utcOffset;
        Some(this.(transitions := transitions + [Transition(utcTime, utcTime + offset, localtimeIdx)]))
      else
        None
    }

    predicate Consistent() {
      && |localtimes| > 0
      && (forall i | 0 <= i < |transitions| :: 0 <= transitions[i].localtimeIdx < |localtimes|)
      && (forall i | 0 <= i < |transitions| ::
            transitions[i].localtime == transitions[i].utctime + localtimes[transitions[i].localtimeIdx].utcOffset)
    }

    /** The offset in force from transition i on. */
    function Offset(i: int): int
      requires Consistent() && 0 <= i < |transitions|
    {
      localtimes[transitions[i].localtimeIdx].utcOffset
    }

    function Utc(i: int): int
      requires 0 <= i < |transitions|
    {
      transitions[i].utctime
    }

    function Local(i: int): int
      requires 0 <= i < |transitions|
    {
      transitions[i].localtime
    }

    /** Consecutive transitions lie further apart than any two offsets. */
    predicate Spaced() {
      forall i, a, b | 0 <= i < |transitions| - 1 && 0 <= a < |localtimes| && 0 <= b < |localtimes| ::
        Utc(i + 1) - Utc(i) > localtimes[a].utcOffset - localtimes[b].utcOffset
    }

    predicate WellSpaced() {
      Consistent() && Spaced()
    }

    // ---- lookups -----------------------------------------------------------------------------

    function FindByUtc(utcTime: int): LocalTime
      requires Consistent()
    {
      if transitions == [] || utcTime < transitions[0].utctime then
        localtimes[0]
      else
        var end := UpperBound(UtcTimes(transitions), utcTime);
        if end < |transitions| then
          localtimes[transitions[end - 1].localtimeIdx]
        else
          localtimes[transitions[|transitions| - 1].localtimeIdx]
    }

    function FindByLocal(localtime: int, postTransition: bool): LocalTime
      requires Consistent()
    {
      if transitions == [] || localtime < transitions[0].localtime then
        localtimes[0]
      else
        var end := UpperBound(LocalTimes(transitions), localtime);
        if end == |transitions| then
          localtimes[transitions[|transitions| - 1].localtimeIdx]
        else
          var prior := transitions[end - 1];
          var priorSecond := transitions[end].utctime - 1 + localtimes[prior.localtimeIdx].utcOffset;
          if priorSecond < localtime then
            // skipped
            localtimes[(if postTransition then transitions[end] else prior).localtimeIdx]
          else
            var at := end - 1;
            // At the first transition the two values of the skip test are used again.
            var prior' := if at != 0 then transitions[at - 1] else prior;
            var priorSecond' := if at != 0
                                then transitions[at].utctime - 1 + localtimes[prior'.localtimeIdx].utcOffset
                                else priorSecond;
            if localtime <= priorSecond' then
              // repeated
              localtimes[(if postTransition then transitions[at] else prior').localtimeIdx]
            else
              localtimes[transitions[at].localtimeIdx]
    }

    /** The local second shown at a UTC second. */
    function ToLocal(t: int): int
      requires Consistent()
    {
      t + FindByUtc(t).utcOffset
    }

    function FromLocal(l: int, postTransition: bool): int
      requires Consistent()
    {
      l - FindByLocal(l, postTransition).utcOffset
    }

    function ToLocalTime(t: int): DateTime
      requires Consistent()
    {
      BreakTime(ToLocal(t))
    }

    function FromLocalTime(dt: DateTime, postTransition: bool): int
      requires Consistent()
    {
      FromLocal(FromUtcTime(dt), postTransition)
    }

    /** t is a UTC second, not before the table starts, that shows local second l. */
    predicate Preimage(t: int, l: int)
      requires Consistent() && transitions != []
    {
      t >= Utc(0) && ToLocal(t) == l
    }

    /** l is shown twice around the last transition, which findLocalTime does not look behind. */
    predicate RepeatedAtLast(l: int)
      requires Consistent()
    {
      var n := |transitions|;
      n >= 2 && Local(n - 1) <= l < Utc(n - 1) + Offset(n - 2)
    }
  }

  function UtcTimes(ts: seq<Transition>): seq<int> {
    seq(|ts|, i requires 0 <= i < |ts| => ts[i].utctime)
  }

  function LocalTimes(ts: seq<Transition>): seq<int> {
    seq(|ts|, i requires 0 <= i < |ts| => ts[i].localtime)
  }

  /** std::upper_bound: the first position whose key exceeds x. */
  function UpperBound(keys: seq<int>, x: int): (k: nat)
    ensures k <= |keys|
    ensures forall i | 0 <= i < k :: keys[i] <= x
    ensures k < |keys| ==> keys[k] > x
  {
    if keys == [] || keys[0] > x then 0
    else
      var k := UpperBound(keys[1..], x);
      assert forall i | 1 <= i < k + 1 :: keys[i] == keys[1..][i - 1];
      k + 1
  }

  /** The table that belongs to the decoded arrays: each transition has its own type and that type's offset. */
  predicate Loaded(d: Data, times: seq<int>, indices: seq<int>, types: seq<LocalTime>)
    requires |indices| == |times|
  {
    && d.localtimes == types && |d.transitions| == |times|
    && forall i | 0 <= i < |times| ::
         0 <= indices[i] < |types| && d.transitions[i] == Transition(times[i], times[i] + types[indices[i]].utcOffset, indices[i])
  }

  /** The part of readDataBlock that fills the table from the decoded arrays. */
  method LoadTable(times: seq<int>, indices: seq<int>, types: seq<LocalTime>) returns (r: Option<Data>)
    requires |indices| == |times|
    ensures r.Some? <==> forall i | 0 <= i < |indices| :: 0 <= indices[i] < |types|
    ensures r.Some? ==> Loaded(r.value, times, indices, types) && UtcTimes(r.value.transitions) == times
    ensures r.Some? && types != [] ==> r.value.Consistent()
  {
    var data := Data([], []);
    for i := 0 to |types|
      invariant data == Data([], types[..i])
    {
      data := data.AddLocalTime(types[i].utcOffset, types[i].isDst, types[i].desigIdx);
    }
    for i := 0 to |times|
      invariant Loaded(data, times[..i], indices[..i], types)
    {
      var added := data.AddTransition(times[i], indices[i]);
      if added.None? {
        return None;
      }
      data := added.value;
    }
    assert times[..|times|] == times && indices[..|times|] == indices;
    r := Some(data);
  }

  /**
   What a loaded zone shows: from one time of the decoded array up to the next, the offset of the type
   the array gives for it; before the first time, the offset of the first type.
   */
  lemma LoadedShows(d: Data, times: seq<int>, indices: seq<int>, types: seq<LocalTime>, t: int, i: int)
    requires |indices| == |times| && types != [] && Loaded(d, times, indices, types)
    requires forall j, k | 0 <= j < k < |times| :: times[j] <= times[k]
    requires -1 <= i < |times| && (i >= 0 ==> times[i] <= t) && (i + 1 < |times| ==> t < times[i + 1])
    ensures d.Consistent()
    ensures var shown := if i >= 0 then types[indices[i]] else types[0];
            d.FindByUtc(t) == shown && d.ToLocal(t) == t + shown.utcOffset
  {
    if i >= 0 {
      var keys := UtcTimes(d.transitions);
      assert keys == times;
      var end := UpperBound(keys, t);
      assert end == i + 1;
    }
  }

  // ---- proofs --------------------------------------------------------------------------------

  /** Offsets never differ by as much as transitions do. */
  lemma {:induction false} FarApart(d: Data, i: int, k: int, a: int, b: int)
    requires d.WellSpaced()
    requires 0 <= i < k < |d.transitions| && 0 <= a < |d.localtimes| && 0 <= b < |d.localtimes|
    ensures d.Utc(k) - d.Utc(i) > d.localtimes[a].utcOffset - d.localtimes[b].utcOffset
    decreases k
  {
    assert d.Utc(k - 1 + 1) - d.Utc(k - 1) > d.localtimes[a].utcOffset - d.localtimes[b].utcOffset;
    if i < k - 1 {
      FarApart(d, i, k - 1, a, a);
    }
  }

  /** The same, for the offsets in force after two transitions. */
  lemma Apart(d: Data, i: int, k: int, p: int, q: int)
    requires d.WellSpaced()
    requires 0 <= i < k < |d.transitions| && 0 <= p < |d.transitions| && 0 <= q < |d.transitions|
    ensures d.Utc(k) - d.Utc(i) > d.Offset(p) - d.Offset(q)
  {
    FarApart(d, i, k, d.transitions[p].localtimeIdx, d.transitions[q].localtimeIdx);
  }

  /** The transition in force at a UTC second. */
  lemma PeriodAt(d: Data, t: int) returns (k: int)
    requires d.WellSpaced() && d.transitions != [] && t >= d.Utc(0)
    ensures 0 <= k < |d.transitions| && d.Utc(k) <= t && (k + 1 < |d.transitions| ==> t < d.Utc(k + 1))
    ensures d.ToLocal(t) == t + d.Offset(k)
  {
    var keys := UtcTimes(d.transitions);
    k := UpperBound(keys, t) - 1;
    assert keys[0] == d.Utc(0);
    assert keys[k] == d.Utc(k);
  }

  /** The period is unique. */
  lemma InPeriod(d: Data, t: int, k: int)
    requires d.WellSpaced()
    requires 0 <= k < |d.transitions| && d.Utc(k) <= t && (k + 1 < |d.transitions| ==> t < d.Utc(k + 1))
    ensures t >= d.Utc(0) && d.ToLocal(t) == t + d.Offset(k)
  {
    hide Data.Spaced, Data.ToLocal;
    if k > 0 {
      Apart(d, 0, k, 0, 0);
    }
    var j := PeriodAt(d, t);
    if j < k && j + 1 < k {
      Apart(d, j + 1, k, 0, 0);
    } else if k < j && k + 1 < j {
      Apart(d, k + 1, j, 0, 0);
    }
  }

  /** The last transition whose local time is not after l; the search by local second ends behind it. */
  lemma LocalPeriodAt(d: Data, l: int) returns (j: int)
    requires d.WellSpaced() && d.transitions != [] && l >= d.Local(0)
    ensures 0 <= j < |d.transitions| && d.Local(j) <= l && (j + 1 < |d.transitions| ==> l < d.Local(j + 1))
    ensures UpperBound(LocalTimes(d.transitions), l) == j + 1
  {
    var keys := LocalTimes(d.transitions);
    j := UpperBound(keys, l) - 1;
    assert keys[0] == d.Local(0);
    assert keys[j] == d.Local(j);
  }

  /** The local second l falls into the hour that transition j + 1 jumps over. */
  ghost predicate SkippedAfter(d: Data, l: int, j: int)
    requires d.Consistent() && 0 <= j < |d.transitions|
  {
    j + 1 < |d.transitions| && l >= d.Utc(j + 1) + d.Offset(j)
  }

  /** The local second l was already shown before transition j turned the clock back. */
  ghost predicate RepeatedAt(d: Data, l: int, j: int)
    requires d.Consistent() && 0 <= j < |d.transitions|
  {
    j > 0 && l < d.Utc(j) + d.Offset(j - 1)
  }

  /** Every preimage of l is one of at most two seconds, found in periods j and j - 1. */
  lemma Preimages(d: Data, l: int, j: int, t: int)
    requires d.WellSpaced() && 0 <= j < |d.transitions|
    requires d.Local(j) <= l && (j + 1 < |d.transitions| ==> l < d.Local(j + 1))
    ensures d.Preimage(t, l) <==>
            || (t == l - d.Offset(j) && !SkippedAfter(d, l, j))
            || (RepeatedAt(d, l, j) && t == l - d.Offset(j - 1))
    ensures !(SkippedAfter(d, l, j) && RepeatedAt(d, l, j))
  {
    hide Data.Spaced, Data.ToLocal;
    if j > 0 && j + 1 < |d.transitions| {
      Apart(d, j, j + 1, j - 1, j);
    }
    if d.Preimage(t, l) {
      var k := PeriodAt(d, t);
      if k > j {
        LocalGrows(d, j, k);
      } else if k < j - 1 {
        Apart(d, k + 1, j, k, j);
      }
    }
    if t == l - d.Offset(j) && !SkippedAfter(d, l, j) {
      InPeriod(d, t, j);
    }
    if RepeatedAt(d, l, j) && t == l - d.Offset(j - 1) {
      Apart(d, j - 1, j, j - 1, j);
      InPeriod(d, t, j - 1);
    }
  }

  lemma LocalGrows(d: Data, j: int, k: int)
    requires d.WellSpaced() && 0 <= j < k < |d.transitions|
    ensures d.Local(j + 1) <= d.Local(k)
  {
    if j + 1 < k {
      Apart(d, j + 1, k, j + 1, k);
    }
  }

  /** What fromLocalTime answers, in terms of the period found. */
  lemma Answer(d: Data, l: int, j: int, post: bool)
    requires d.WellSpaced() && 0 <= j < |d.transitions| && l >= d.Local(0)
    requires d.Local(j) <= l && (j + 1 < |d.transitions| ==> l < d.Local(j + 1))
    requires UpperBound(LocalTimes(d.transitions), l) == j + 1
    ensures j + 1 == |d.transitions| ==> d.FromLocal(l, post) == l - d.Offset(j)
    ensures SkippedAfter(d, l, j) ==> d.FromLocal(l, post) == l - (if post then d.Offset(j + 1) else d.Offset(j))
    ensures j + 1 < |d.transitions| && !SkippedAfter(d, l, j) ==>
              d.FromLocal(l, post) == l - (if RepeatedAt(d, l, j) && !post then d.Offset(j - 1) else d.Offset(j))
  {
  }

  // ---- the results ---------------------------------------------------------------------------

  /** Post-transition lookup: if l is shown at all, the answer is the latest second that shows it. */
  lemma PostIsLatest(d: Data, l: int, t: int)
    requires d.WellSpaced() && d.transitions != [] && l >= d.Local(0)
    requires d.Preimage(t, l)
    ensures d.Preimage(d.FromLocal(l, true), l)
    ensures t <= d.FromLocal(l, true)
  {
    hide Data.Spaced, Data.FromLocal, Data.Preimage;
    var j := LocalPeriodAt(d, l);
    var r := d.FromLocal(l, true);
    Answer(d, l, j, true);
    Preimages(d, l, j, t);
    Preimages(d, l, j, r);
  }

  /**
   Pre-transition lookup: if l is shown at all, the answer is the earliest second that shows it,
   except when l is repeated at the last transition; there it is not.
   */
  lemma PreIsEarliest(d: Data, l: int, t: int)
    requires d.WellSpaced() && d.transitions != [] && l >= d.Local(0)
    requires d.Preimage(t, l)
    ensures d.Preimage(d.FromLocal(l, false), l)
    ensures !d.RepeatedAtLast(l) ==> d.FromLocal(l, false) <= t
    ensures d.RepeatedAtLast(l) ==>
              exists u :: d.Preimage(u, l) && u < d.FromLocal(l, false)
  {
    hide Data.Spaced, Data.FromLocal, Data.Preimage;
    var j := LocalPeriodAt(d, l);
    var r := d.FromLocal(l, false);
    Answer(d, l, j, false);
    Preimages(d, l, j, t);
    Preimages(d, l, j, r);
    if d.RepeatedAtLast(l) {
      var n := |d.transitions|;
      if j < n - 1 {
        LocalGrows(d, j, n - 1);
      }
      var u := l - d.Offset(n - 2);
      Preimages(d, l, j, u);
      assert d.Preimage(u, l) && u < r;
    }
  }

  /** A local second shown once is mapped to the second that shows it, whatever the flag. */
  lemma UniqueIsExact(d: Data, l: int, t: int, post: bool)
    requires d.WellSpaced() && d.transitions != [] && l >= d.Local(0)
    requires d.Preimage(t, l) && forall u :: d.Preimage(u, l) ==> u == t
    ensures d.FromLocal(l, post) == t
  {
    if post {
      PostIsLatest(d, l, t);
    } else {
      PreIsEarliest(d, l, t);
    }
  }

  /**
   A local second that is never shown lies in the gap of one transition: the answer without the
   flag falls at or after that transition, the answer with it before.
   */
  lemma SkippedStraddles(d: Data, l: int)
    requires d.WellSpaced() && d.transitions != [] && l >= d.Local(0)
    requires forall t :: !d.Preimage(t, l)
    ensures exists k | 0 < k < |d.transitions| ::
              && d.FromLocal(l, true) < d.Utc(k) <= d.FromLocal(l, false)
              && d.FromLocal(l, false) - d.FromLocal(l, true) == d.Offset(k) - d.Offset(k - 1)
  {
    hide Data.Spaced, Data.FromLocal, Data.Preimage;
    var j := LocalPeriodAt(d, l);
    Preimages(d, l, j, l - d.Offset(j));
    Answer(d, l, j, true);
    Answer(d, l, j, false);
    assert SkippedAfter(d, l, j);
    var k := j + 1;
    assert d.FromLocal(l, true) < d.Utc(k) <= d.FromLocal(l, false);
  }

  /** At most two seconds show the same local second. */
  lemma AtMostTwo(d: Data, l: int, t: int, u: int, v: int)
    requires d.WellSpaced() && d.transitions != [] && l >= d.Local(0)
    requires d.Preimage(t, l) && d.Preimage(u, l) && d.Preimage(v, l)
    ensures t == u || u == v || t == v
  {
    var j := LocalPeriodAt(d, l);
    Preimages(d, l, j, t);
    Preimages(d, l, j, u);
    Preimages(d, l, j, v);
  }

  /** Where a second survives the trip to local time and back under one of the flags. */
  predicate Recoverable(d: Data, t: int)
    requires d.Consistent()
  {
    var n := |d.transitions|;
    || n == 0
    || (t < d.Utc(0) && d.ToLocal(t) < d.Local(0))
    || (t >= d.Utc(0) && d.ToLocal(t) < d.Local(n - 1))
    || t >= d.Utc(n - 1)
  }

  /** The trip to local time and back, decided for every second. */
  lemma LocalRoundTrip(d: Data, t: int)
    requires d.WellSpaced()
    ensures Recoverable(d, t) <==>
            d.FromLocal(d.ToLocal(t), false) == t || d.FromLocal(d.ToLocal(t), true) == t
  {
    if d.transitions != [] {
      if t < d.Utc(0) {
        if d.ToLocal(t) >= d.Local(0) {
          BeforeTable(d, t);
        }
      } else {
        InTable(d, t);
      }
    }
  }

  lemma ShownBeforeTable(d: Data, t: int)
    requires d.Consistent() && d.transitions != [] && t < d.Utc(0)
    ensures d.ToLocal(t) == t + d.localtimes[0].utcOffset
  {
  }

  /** What is shown before the table starts does not reach past its first period. */
  lemma FirstPeriodOnly(d: Data, l: int, j: int)
    requires d.WellSpaced() && 0 <= j < |d.transitions|
    requires d.Local(j) <= l < d.Utc(0) + d.localtimes[0].utcOffset
    ensures j == 0
  {
    if j > 0 {
      FarApart(d, 0, j, 0, d.transitions[j].localtimeIdx);
    }
  }

  lemma BeforeTable(d: Data, t: int)
    requires d.WellSpaced() && d.transitions != []
    requires t < d.Utc(0) && d.ToLocal(t) >= d.Local(0)
    ensures !Recoverable(d, t)
    ensures d.FromLocal(d.ToLocal(t), false) != t && d.FromLocal(d.ToLocal(t), true) != t
  {
    ShownBeforeTable(d, t);
    hide Data.Spaced, Data.FromLocal, Data.ToLocal, UpperBound;
    var l := d.ToLocal(t);
    var n := |d.transitions|;
    var j := LocalPeriodAt(d, l);
    FirstPeriodOnly(d, l, j);
    if n > 1 {
      FarApart(d, 0, n - 1, 0, 0);
      FarApart(d, 0, 1, 0, d.transitions[0].localtimeIdx);
    }
    Answer(d, l, j, false);
    Answer(d, l, j, true);
  }

  lemma ShowsItself(d: Data, t: int)
    requires d.Consistent() && d.transitions != [] && t >= d.Utc(0)
    ensures d.Preimage(t, d.ToLocal(t))
  {
    hide Data.ToLocal;
  }

  lemma InTable(d: Data, t: int)
    requires d.WellSpaced() && d.transitions != []
    requires t >= d.Utc(0)
    ensures Recoverable(d, t) <==>
            d.FromLocal(d.ToLocal(t), false) == t || d.FromLocal(d.ToLocal(t), true) == t
  {
    hide Data.Spaced, Data.FromLocal, Data.Preimage, Data.ToLocal;
    var l := d.ToLocal(t);
    var n := |d.transitions|;
    var k := PeriodAt(d, t);
    if k > 0 {
      Apart(d, 0, k, 0, k);
    }
    assert l >= d.Local(0);
    var j := LocalPeriodAt(d, l);
    Answer(d, l, j, false);
    Answer(d, l, j, true);
    assert d.Preimage(t, l) by {
      ShowsItself(d, t);
    }
    Preimages(d, l, j, t);
    if k < n - 1 && k + 1 < n - 1 {
      Apart(d, k + 1, n - 1, 0, 0);
    }
    if j < n - 1 {
      LocalGrows(d, j, n - 1);
    }
  }

  /** The same trip through broken-down local time. */
  lemma LocalTimeRoundTrip(d: Data, t: int)
    requires d.WellSpaced() && InRange(d.ToLocal(t))
    ensures Recoverable(d, t) <==>
            d.FromLocalTime(d.ToLocalTime(t), false) == t || d.FromLocalTime(d.ToLocalTime(t), true) == t
  {
    hide Recoverable, Data.FindByLocal, Data.FindByUtc, FromUtcTime, BreakTime, Data.Consistent, Data.Spaced;
    UtcRoundTrip(d.ToLocal(t));
    LocalRoundTrip(d, t);
  }

  /** A zone with one offset needs no table and loses nothing. */
  lemma FixedZoneRoundTrip(eastOfUtc: int, t: int, post: bool)
    requires InRange(t + eastOfUtc)
    ensures var d := Data([], []).AddLocalTime(eastOfUtc, false, 0);
            d.FromLocalTime(d.ToLocalTime(t), post) == t
  {
    hide BreakTime, FromUtcTime;
    UtcRoundTrip(t + eastOfUtc);
  }

  /** A zone whose last transition turns the clock back by an hour. */
  function AutumnZone(): Data {
    Data([Transition(0, 7200, 0), Transition(100000, 103600, 1)], [LocalTime(7200, true, 0), LocalTime(3600, false, 0)])
  }

  lemma TwoTransitionsSpaced(d: Data)
    requires |d.transitions| == 2 && |d.localtimes| == 2
    requires d.Utc(1) - d.Utc(0) > d.localtimes[0].utcOffset - d.localtimes[1].utcOffset >= 0
    ensures d.Spaced()
  {
    forall i, a, b | 0 <= i < |d.transitions| - 1 && 0 <= a < |d.localtimes| && 0 <= b < |d.localtimes|
      ensures d.Utc(i + 1) - d.Utc(i) > d.localtimes[a].utcOffset - d.localtimes[b].utcOffset
    {
      assert i == 0 && (a == 0 || a == 1) && (b == 0 || b == 1);
    }
  }

  /** An hour repeated at the last transition: the flag is ignored and the first showing is lost. */
  lemma LastRepeatIsLost()
    ensures var d := AutumnZone();
            && d.WellSpaced() && d.RepeatedAtLast(d.ToLocal(98000))
            && d.FromLocal(d.ToLocal(98000), false) == 101600
            && d.FromLocal(d.ToLocal(98000), true) == 101600
  {
    hide Data.FromLocal, Data.ToLocal, Data.Spaced;
    var d := AutumnZone();
    TwoTransitionsSpaced(d);
    InPeriod(d, 98000, 0);
    var j := LocalPeriodAt(d, 105200);
    Answer(d, 105200, j, false);
    Answer(d, 105200, j, true);
  }
}
