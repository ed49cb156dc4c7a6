/**
 * Publication schedules: when one is active, and which windows it has in a range.
 * A time is a number of nanoseconds since the Unix epoch; a zone, in seconds east of UTC, decides its year.
 */
module Schedules {
  import opened Bytes

  const SECOND := 1_000_000_000
  const FIRST_YEAR := -62135596800 * SECOND
  const LAST_YEAR_END := 253402300800 * SECOND
  const MAX_OCCURRENCES := 100000
  const MAX_HOURS := 2562047

  datatype Mode = Always | Once | Periodic

  datatype Schedule = Schedule(mode: Mode, start: int, end: int, hasEnd: bool, activeSeconds: nat, repeatSeconds: nat,
                               startZone: int, endZone: int)
  {
    /** What parsing guarantees. */
    ghost predicate Valid() {
      && (mode.Once? ==> hasEnd && start < end)
      && (mode.Periodic? ==> 0 < activeSeconds <= repeatSeconds && (hasEnd ==> start < end))
    }

    function Repeat(): nat { repeatSeconds * SECOND }

    function Lasts(): nat { activeSeconds * SECOND }
  }

  datatype Interval = Interval(start: int, end: int)

  datatype Result<T> = Ok(value: T) | OutsideCalendar | TooMany | Invalid

  function Unix(t: int): int { t / SECOND }

  function Nanosecond(t: int): nat { t % SECOND }

  /** The year in the zone is between 1 and 9999. */
  predicate CalendarTime(t: int, zone: int) {
    FIRST_YEAR <= t + zone * SECOND < LAST_YEAR_END
  }

  // ------------------------------------------------------------------
  // Parsing, from timestamps already read.

  datatype Stamp = Absent | Unreadable | At(time: int, zone: int)

  /** A time that is left out, or read and within the calendar. */
  predicate StampOk(s: Stamp) {
    s.Absent? || (s.At? && CalendarTime(s.time, s.zone))
  }

  predicate Before(a: Stamp, b: Stamp) {
    a.At? && b.At? && a.time < b.time
  }

  /** Permanent, one-time with an end, or periodic with a start and at most as many active hours as repeating ones. */
  predicate ScheduleOk(startsAt: Stamp, endsAt: Stamp, activeHours: int, repeatHours: int) {
    && StampOk(startsAt) && StampOk(endsAt) && repeatHours <= MAX_HOURS
    && if activeHours == 0 == repeatHours then (startsAt.Absent? && endsAt.Absent?) || Before(startsAt, endsAt)
       else 0 < activeHours <= repeatHours && startsAt.At? && (endsAt.Absent? || Before(startsAt, endsAt))
  }

  function ParseSchedule(startsAt: Stamp, endsAt: Stamp, activeHours: int, repeatHours: int): (r: Result<Schedule>)
    ensures r.Ok? <==> ScheduleOk(startsAt, endsAt, activeHours, repeatHours)
    ensures r.Ok? ==> r.value.Valid()
  {
    if activeHours < 0 || repeatHours < 0 || activeHours > MAX_HOURS || repeatHours > MAX_HOURS then Invalid
    else if startsAt.Unreadable? || (startsAt.At? && !CalendarTime(startsAt.time, startsAt.zone)) then Invalid
    else if endsAt.Unreadable? || (endsAt.At? && !CalendarTime(endsAt.time, endsAt.zone)) then Invalid
    else
      var (start, startZone) := if startsAt.At? then (startsAt.time, startsAt.zone) else (0, 0);
      var (end, endZone) := if endsAt.At? then (endsAt.time, endsAt.zone) else (0, 0);
      if activeHours == 0 && repeatHours == 0 then
        if startsAt.Absent? && endsAt.Absent? then Ok(Schedule(Always, 0, 0, false, 0, 0, 0, 0))
        else if startsAt.At? && endsAt.At? && end > start then Ok(Schedule(Once, start, end, true, 0, 0, startZone, endZone))
        else Invalid
      else if startsAt.Absent? || activeHours == 0 || repeatHours == 0 then Invalid
      else if activeHours > repeatHours then Invalid
      else if endsAt.At? && end <= start then Invalid
      else Ok(Schedule(Periodic, start, end, endsAt.At?, activeHours * 3600, repeatHours * 3600, startZone, endZone))
  }

  // ------------------------------------------------------------------
  // The point predicate.

  /** Whole seconds from start to at, from Unix seconds and a correction for the nanoseconds. */
  function ElapsedWholeSeconds(start: int, at: int): int {
    Unix(at) - Unix(start) - (if Nanosecond(at) < Nanosecond(start) then 1 else 0)
  }

  /** Go's remainder: the dividend's sign. */
  function Remainder(a: int, b: nat): int
    requires b > 0
  {
    if a >= 0 then a % b else -(-a % b)
  }

  predicate Active(s: Schedule, now: int)
    requires s.Valid()
  {
    if s.mode.Always? then true
    else if now < s.start || (s.hasEnd && now >= s.end) then false
    else if s.mode.Once? then true
    else Remainder(ElapsedWholeSeconds(s.start, now), s.repeatSeconds) < s.activeSeconds
  }

  /** The correction makes it the floor of the exact difference. */
  lemma ElapsedIsFloor(start: int, at: int)
    ensures ElapsedWholeSeconds(start, at) == (at - start) / SECOND
  {
    var q, r := Unix(at) - Unix(start), Nanosecond(at) - Nanosecond(start);
    assert at - start == q * SECOND + r;
  }

  /** Seconds modulo a period, against nanoseconds modulo the period in nanoseconds. */
  lemma SecondsInPeriod(x: nat, repeat: nat, active: nat)
    requires repeat > 0
    ensures repeat * SECOND > 0
    ensures x / SECOND % repeat < active <==> x % (repeat * SECOND) < active * SECOND
    ensures x / SECOND / repeat == x / (repeat * SECOND)
  {
    var secs := x / SECOND;
    var q, r, n := secs / repeat, secs % repeat, x % SECOND;
    assert secs == q * repeat + r;
    assert x == secs * SECOND + n;
    assert (q * repeat + r) * SECOND == q * (repeat * SECOND) + r * SECOND by {
    }
    assert r * SECOND + n < repeat * SECOND;
    QuotientUnique(x, repeat * SECOND, q, r * SECOND + n);
  }

  // ------------------------------------------------------------------
  // The enumeration.

  /** The start of cycle k: Unix seconds are multiplied, the anchor's nanoseconds kept. */
  function CycleStart(s: Schedule, k: int): int {
    (Unix(s.start) + k * s.repeatSeconds) * SECOND + Nanosecond(s.start)
  }

  /** Cut off by nothing but the schedule's own end. */
  function CycleEnd(s: Schedule, k: int): int {
    var end := CycleStart(s, k) + s.Lasts();
    if s.hasEnd && end > s.end then s.end else end
  }

  lemma CyclesAdvance(s: Schedule, k: nat)
    requires s.repeatSeconds > 0
    ensures CycleStart(s, k + 1) == CycleStart(s, k) + s.Repeat() && s.Repeat() >= SECOND
  {
    assert (k + 1) * s.Repeat() == k * s.Repeat() + s.Repeat();
  }

  /** A cycle ends in the zone of the schedule's start, unless the schedule's end cuts it short. */
  function EndZone(s: Schedule, k: nat): int
    requires s.repeatSeconds > 0
  {
    if s.hasEnd && CycleStart(s, k) + s.Lasts() > s.end then s.endZone else s.startZone
  }

  predicate PastRange(s: Schedule, until: int, k: nat) {
    CycleStart(s, k) >= until || (s.hasEnd && CycleStart(s, k) >= s.end)
  }

  /** The windows from cycle k on, when count have been found before. */
  function Cycles(s: Schedule, from: int, until: int, k: nat, count: nat): Result<seq<Interval>>
    requires s.repeatSeconds > 0
    decreases until - CycleStart(s, k)
  {
    CyclesAdvance(s, k);
    if PastRange(s, until, k) then Ok([])
    else
      var start, end := CycleStart(s, k), CycleEnd(s, k);
      if !CalendarTime(start, s.startZone) || !CalendarTime(end, EndZone(s, k)) then OutsideCalendar
      else if end > from then
        if count >= MAX_OCCURRENCES then TooMany
        else
          var rest := Cycles(s, from, until, k + 1, count + 1);
          if rest.Ok? then Ok([Interval(start, end)] + rest.value) else rest
      else Cycles(s, from, until, k + 1, count)
  }

  function FirstCycle(s: Schedule, from: int): nat
    requires s.repeatSeconds > 0
  {
    if from < s.start then 0
    else
      ElapsedIsFloor(s.start, from);
      ElapsedWholeSeconds(s.start, from) / s.repeatSeconds
  }

  function WindowsOf(s: Schedule, from: int, until: int): Result<seq<Interval>>
    requires s.Valid()
  {
    if s.mode.Always? then Ok([Interval(from, until)])
    else if s.start >= until || (s.hasEnd && s.end <= from) then Ok([])
    else if s.mode.Once? then Ok([Interval(s.start, s.end)])
    else Cycles(s, from, until, FirstCycle(s, from), 0)
  }

  method Windows(s: Schedule, from: int, until: int) returns (r: Result<seq<Interval>>)
    requires s.Valid()
    ensures r == WindowsOf(s, from, until)
  {
    if s.mode.Always? {
      return Ok([Interval(from, until)]);
    }
    if s.start >= until || (s.hasEnd && s.end <= from) {
      return Ok([]);
    }
    if s.mode.Once? {
      return Ok([Interval(s.start, s.end)]);
    }
    var cycle: nat := 0;
    if from >= s.start {
      ElapsedIsFloor(s.start, from);
      cycle := ElapsedWholeSeconds(s.start, from) / s.repeatSeconds;
    }
    var result: seq<Interval> := [];
    ghost var goal := WindowsOf(s, from, until);
    PrefixedNone(goal);
    while true
      invariant goal == Prefixed(result, Cycles(s, from, until, cycle, |result|))
      decreases until - CycleStart(s, cycle)
    {
      CyclesAdvance(s, cycle);
      var start := CycleStart(s, cycle);
      if start >= until || (s.hasEnd && start >= s.end) {
        break;
      }
      var end, zone := start + s.Lasts(), s.startZone;
      if s.hasEnd && end > s.end {
        end, zone := s.end, s.endZone;
      }
      if !CalendarTime(start, s.startZone) || !CalendarTime(end, zone) {
        return OutsideCalendar;
      }
      if end > from {
        if |result| >= MAX_OCCURRENCES {
          return TooMany;
        }
        PrefixedCons(result, Interval(start, end), Cycles(s, from, until, cycle + 1, |result| + 1));
        result := result + [Interval(start, end)];
      }
      cycle := cycle + 1;
    }
    r := Ok(result);
    assert result + [] == result;
  }

  function Prefixed(done: seq<Interval>, rest: Result<seq<Interval>>): Result<seq<Interval>> {
    if rest.Ok? then Ok(done + rest.value) else rest
  }

  lemma PrefixedNone(rest: Result<seq<Interval>>)
    ensures Prefixed([], rest) == rest
  {
    if rest.Ok? {
      assert [] + rest.value == rest.value;
    }
  }

  lemma PrefixedCons(done: seq<Interval>, w: Interval, rest: Result<seq<Interval>>)
    ensures Prefixed(done + [w], rest) == Prefixed(done, if rest.Ok? then Ok([w] + rest.value) else rest)
  {
    if rest.Ok? {
      assert done + [w] + rest.value == done + ([w] + rest.value);
    }
  }

  // ------------------------------------------------------------------
  // The enumeration agrees with the point predicate.

  /** The cycle that contains t, for t from the anchor on. */
  function CycleOf(s: Schedule, t: int): nat
    requires s.repeatSeconds > 0 && t >= s.start
  {
    (t - s.start) / s.Repeat()
  }

  lemma CycleOfContains(s: Schedule, t: int)
    requires s.repeatSeconds > 0 && t >= s.start
    ensures CycleStart(s, CycleOf(s, t)) <= t < CycleStart(s, CycleOf(s, t)) + s.Repeat()
  {
  }

  lemma CycleOfUnique(s: Schedule, t: int, k: nat)
    requires s.repeatSeconds > 0 && CycleStart(s, k) <= t < CycleStart(s, k) + s.Repeat()
    ensures t >= s.start && CycleOf(s, t) == k
  {
    assert k * s.Repeat() >= 0;
    QuotientUnique(t - s.start, s.Repeat(), k, t - CycleStart(s, k));
  }

  /** A periodic schedule is active at t exactly when t lies in the active part of its cycle, before its end. */
  lemma ActiveIffInCycle(s: Schedule, t: int)
    requires s.Valid() && s.mode.Periodic?
    ensures Active(s, t) <==>
            t >= s.start && (s.hasEnd ==> t < s.end) && t < CycleStart(s, CycleOf(s, t)) + s.Lasts()
  {
    if t >= s.start {
      var x := t - s.start;
      ElapsedIsFloor(s.start, t);
      SecondsInPeriod(x, s.repeatSeconds, s.activeSeconds);
      assert x == CycleOf(s, t) * s.Repeat() + x % s.Repeat();
    }
  }

  lemma FirstCycleIs(s: Schedule, from: int)
    requires s.repeatSeconds > 0
    ensures FirstCycle(s, from) == if from < s.start then 0 else CycleOf(s, from)
  {
    if from >= s.start {
      ElapsedIsFloor(s.start, from);
      SecondsInPeriod(from - s.start, s.repeatSeconds, 0);
    }
  }

  predicate Within(t: int, w: Interval) {
    w.start <= t < w.end
  }

  /** w is cycle k of s. */
  predicate IsCycle(s: Schedule, w: Interval, k: nat) {
    w == Interval(CycleStart(s, k), CycleEnd(s, k))
  }

  /** Windows in order, each over before the next begins. */
  ghost predicate Ordered(ws: seq<Interval>) {
    && (forall i :: 0 <= i < |ws| ==> ws[i].start < ws[i].end)
    && (forall i, j :: 0 <= i < j < |ws| ==> ws[i].end <= ws[j].start)
  }

  /** Every window overlaps the range and is a whole cycle from k on, cut only by the schedule's own end. */
  ghost predicate CyclesFrom(s: Schedule, ws: seq<Interval>, from: int, until: int, k: nat) {
    forall w :: w in ws ==> w.end > from && w.start < until && w.start >= CycleStart(s, k)
                            && exists n: nat :: n >= k && IsCycle(s, w, n)
  }

  lemma CycleStartMonotone(s: Schedule, k: nat, n: nat)
    requires s.repeatSeconds > 0 && k <= n
    ensures CycleStart(s, k) <= CycleStart(s, n)
    decreases n - k
  {
    if k < n {
      CyclesAdvance(s, k);
      CycleStartMonotone(s, k + 1, n);
    }
  }

  lemma {:induction false} CyclesOrdered(s: Schedule, from: int, until: int, k: nat, count: nat)
    requires s.Valid() && s.mode.Periodic? && Cycles(s, from, until, k, count).Ok?
    ensures Ordered(Cycles(s, from, until, k, count).value)
    ensures CyclesFrom(s, Cycles(s, from, until, k, count).value, from, until, k)
    decreases until - CycleStart(s, k)
  {
    CyclesAdvance(s, k);
    if !PastRange(s, until, k) {
      var counted := if CycleEnd(s, k) > from then count + 1 else count;
      CyclesOrdered(s, from, until, k + 1, counted);
      var w := Interval(CycleStart(s, k), CycleEnd(s, k));
      assert IsCycle(s, w, k);
    }
  }

  /** An instant whose cycle is not before k is found by the enumeration from k exactly when it is active. */
  lemma {:induction false} CyclesComplete(s: Schedule, from: int, until: int, k: nat, count: nat, t: int)
    requires s.Valid() && s.mode.Periodic? && Cycles(s, from, until, k, count).Ok?
    requires from <= t < until && Active(s, t) && k <= CycleOf(s, t)
    ensures (exists w :: w in Cycles(s, from, until, k, count).value && Within(t, w))
    decreases until - CycleStart(s, k)
  {
    ActiveIffInCycle(s, t);
    CycleOfContains(s, t);
    CyclesAdvance(s, k);
    CycleStartMonotone(s, k, CycleOf(s, t));
    var ws := Cycles(s, from, until, k, count).value;
    if k == CycleOf(s, t) {
      assert Within(t, ws[0]);
    } else {
      var counted := if CycleEnd(s, k) > from then count + 1 else count;
      CyclesComplete(s, from, until, k + 1, counted, t);
      var w :| w in Cycles(s, from, until, k + 1, counted).value && Within(t, w);
      assert w in ws;
    }
  }

  lemma InCycleActive(s: Schedule, w: Interval, n: nat, t: int)
    requires s.Valid() && s.mode.Periodic? && IsCycle(s, w, n) && Within(t, w)
    ensures Active(s, t)
  {
    CycleOfUnique(s, t, n);
    ActiveIffInCycle(s, t);
  }

  /**
   * When the enumeration of a range succeeds, its windows are in order and disjoint, all overlap
   * the range, and an instant of the range lies in one of them exactly when the schedule is active.
   */
  lemma WindowsAgree(s: Schedule, from: int, until: int, t: int)
    requires s.Valid() && from < until && WindowsOf(s, from, until).Ok?
    ensures Ordered(WindowsOf(s, from, until).value)
    ensures forall w :: w in WindowsOf(s, from, until).value ==> w.end > from && w.start < until
    ensures from <= t < until ==> (Active(s, t) <==> exists w :: w in WindowsOf(s, from, until).value && Within(t, w))
  {
    var ws := WindowsOf(s, from, until).value;
    if s.mode.Always? {
      assert from <= t < until ==> Within(t, ws[0]);
    } else if s.start >= until || (s.hasEnd && s.end <= from) {
    } else if s.mode.Once? {
      assert ws[0] == Interval(s.start, s.end);
      assert from <= t < until && Active(s, t) ==> Within(t, ws[0]);
    } else {
      PeriodicAgrees(s, from, until, t);
    }
  }

  lemma PeriodicAgrees(s: Schedule, from: int, until: int, t: int)
    requires s.Valid() && s.mode.Periodic? && from < until
    requires Cycles(s, from, until, FirstCycle(s, from), 0).Ok?
    ensures var ws := Cycles(s, from, until, FirstCycle(s, from), 0).value;
            && Ordered(ws)
            && (forall w :: w in ws ==> w.end > from && w.start < until)
            && (from <= t < until ==> (Active(s, t) <==> exists w :: w in ws && Within(t, w)))
  {
    var k := FirstCycle(s, from);
    var ws := Cycles(s, from, until, k, 0).value;
    CyclesOrdered(s, from, until, k, 0);
    if from <= t < until {
      if Active(s, t) {
        FirstCycleNotLate(s, from, t);
        CyclesComplete(s, from, until, k, 0, t);
      }
      if w :| w in ws && Within(t, w) {
        var n: nat :| n >= k && IsCycle(s, w, n);
        InCycleActive(s, w, n, t);
      }
    }
  }

  /** Starting at the cycle of from misses nothing. */
  lemma FirstCycleNotLate(s: Schedule, from: int, t: int)
    requires s.repeatSeconds > 0 && from <= t && t >= s.start
    ensures FirstCycle(s, from) <= CycleOf(s, t)
  {
    FirstCycleIs(s, from);
    if from >= s.start {
      var k, n := CycleOf(s, from), CycleOf(s, t);
      CycleOfContains(s, from);
      CycleOfContains(s, t);
      if n < k {
        CyclesAdvance(s, n);
        CycleStartMonotone(s, n + 1, k);
        assert false;
      }
    }
  }

  // ------------------------------------------------------------------
  // When the enumeration is refused.

  /** Cycle n begins and ends in the years 1 to 9999. */
  predicate InCalendar(s: Schedule, n: nat)
    requires s.repeatSeconds > 0
  {
    CalendarTime(CycleStart(s, n), s.startZone) && CalendarTime(CycleEnd(s, n), EndZone(s, n))
  }

  /** Every cycle from k on that begins before the range or the schedule ends is in the calendar. */
  ghost predicate AllInCalendar(s: Schedule, until: int, k: nat)
    requires s.repeatSeconds > 0
  {
    forall n: nat :: n >= k && !PastRange(s, until, n) ==> InCalendar(s, n)
  }

  lemma InCalendarFrom(s: Schedule, until: int, k: nat)
    requires s.repeatSeconds > 0
    ensures AllInCalendar(s, until, k) <==> (PastRange(s, until, k) || InCalendar(s, k)) && AllInCalendar(s, until, k + 1)
  {
    forall n: nat | n >= k && !PastRange(s, until, n)
      ensures !PastRange(s, until, k)
    {
      CycleStartMonotone(s, k, n);
    }
  }

  /** From a cycle on that ends in the range, so many more windows fit. */
  lemma {:induction false} CyclesFit(s: Schedule, from: int, until: int, k: nat, count: nat)
    requires s.Valid() && s.mode.Periodic? && count <= MAX_OCCURRENCES && (PastRange(s, until, k) || CycleEnd(s, k) > from)
    ensures Cycles(s, from, until, k, count).Ok? <==>
            AllInCalendar(s, until, k) && PastRange(s, until, k + (MAX_OCCURRENCES - count))
    decreases until - CycleStart(s, k)
  {
    CyclesAdvance(s, k);
    InCalendarFrom(s, until, k);
    if PastRange(s, until, k) {
      CycleStartMonotone(s, k, k + (MAX_OCCURRENCES - count));
      forall n: nat | n >= k
        ensures PastRange(s, until, n)
      {
        CycleStartMonotone(s, k, n);
      }
    } else if count < MAX_OCCURRENCES {
      LaterEnds(s, from, until, k);
      CyclesFit(s, from, until, k + 1, count + 1);
    }
  }

  lemma LaterEnds(s: Schedule, from: int, until: int, k: nat)
    requires s.Valid() && s.mode.Periodic? && CycleEnd(s, k) > from
    ensures PastRange(s, until, k + 1) || CycleEnd(s, k + 1) > from
  {
    CyclesAdvance(s, k);
  }

  /** The first cycle that ends behind the beginning of the range. */
  function FirstInRange(s: Schedule, from: int): nat
    requires s.repeatSeconds > 0
  {
    var k := FirstCycle(s, from);
    if CycleEnd(s, k) > from then k else k + 1
  }

  /**
   * A periodic schedule that overlaps the range can be enumerated exactly when all its cycles before the end of the
   * range are in the calendar, and no more than the allowed number of them end behind the beginning of the range.
   */
  lemma WindowsFit(s: Schedule, from: int, until: int)
    requires s.Valid() && s.mode.Periodic? && from < until && s.start < until && !(s.hasEnd && s.end <= from)
    ensures WindowsOf(s, from, until).Ok? <==>
            AllInCalendar(s, until, FirstCycle(s, from)) && PastRange(s, until, FirstInRange(s, from) + MAX_OCCURRENCES)
  {
    var k := FirstCycle(s, from);
    CyclesAdvance(s, k);
    InCalendarFrom(s, until, k);
    FirstCycleIs(s, from);
    if PastRange(s, until, k) || CycleEnd(s, k) > from {
      CyclesFit(s, from, until, k, 0);
    } else {
      SecondEnds(s, from, until, k);
      CyclesFit(s, from, until, k + 1, 0);
    }
  }

  lemma SecondEnds(s: Schedule, from: int, until: int, k: nat)
    requires s.Valid() && s.mode.Periodic? && k == FirstCycle(s, from) && CycleEnd(s, k) <= from && !(s.hasEnd && s.end <= from)
    ensures PastRange(s, until, k + 1) || CycleEnd(s, k + 1) > from
  {
    CyclesAdvance(s, k);
    FirstCycleIs(s, from);
    if from >= s.start {
      CycleOfContains(s, from);
    }
  }

  // ------------------------------------------------------------------
  // What an accepted entry says, in its own fields.

  /** An hour, in nanoseconds. */
  const HOUR := 3_600_000_000_000

  /** The active hours of cycle k. */
  predicate InCycle(start: int, activeHours: int, repeatHours: int, k: nat, t: int) {
    start + k * (repeatHours * HOUR) <= t < start + k * (repeatHours * HOUR) + activeHours * HOUR
  }

  /**
   * Without times always; with times alone from the one to the other; with hours during the active hours of every
   * cycle from the start on, up to the end if there is one.
   */
  ghost predicate Runs(startsAt: Stamp, endsAt: Stamp, activeHours: int, repeatHours: int, t: int) {
    if !startsAt.At? then true
    else if repeatHours == 0 then startsAt.time <= t && endsAt.At? && t < endsAt.time
    else (exists k: nat :: InCycle(startsAt.time, activeHours, repeatHours, k, t)) && (endsAt.At? ==> t < endsAt.time)
  }

  lemma HoursAre(s: Schedule, activeHours: nat, repeatHours: nat, k: nat)
    requires s.activeSeconds == activeHours * 3600 && s.repeatSeconds == repeatHours * 3600
    ensures s.Lasts() == activeHours * HOUR && s.Repeat() == repeatHours * HOUR
    ensures CycleStart(s, k) == s.start + k * (repeatHours * HOUR)
  {
    assert k * s.repeatSeconds * SECOND == k * (s.repeatSeconds * SECOND);
  }

  /** An instant lies in the active hours of a cycle exactly when it does in those of the cycle that contains it. */
  lemma SomeCycle(s: Schedule, activeHours: nat, repeatHours: nat, t: int)
    requires s.Valid() && s.mode.Periodic? && s.activeSeconds == activeHours * 3600 && s.repeatSeconds == repeatHours * 3600
    ensures (exists k: nat :: InCycle(s.start, activeHours, repeatHours, k, t)) <==>
            t >= s.start && t < CycleStart(s, CycleOf(s, t)) + s.Lasts()
  {
    if k: nat :| InCycle(s.start, activeHours, repeatHours, k, t) {
      HoursAre(s, activeHours, repeatHours, k);
      LastsRepeat(s);
      CycleOfUnique(s, t, k);
    }
    if t >= s.start && t < CycleStart(s, CycleOf(s, t)) + s.Lasts() {
      HoursAre(s, activeHours, repeatHours, CycleOf(s, t));
      CycleOfContains(s, t);
      assert InCycle(s.start, activeHours, repeatHours, CycleOf(s, t), t);
    }
  }

  lemma LastsRepeat(s: Schedule)
    requires s.Valid() && s.mode.Periodic?
    ensures 0 < s.Lasts() <= s.Repeat()
  {
  }

  /** The schedule of an accepted entry is active exactly when the entry says so, and permanent exactly without times. */
  lemma ParsedRuns(startsAt: Stamp, endsAt: Stamp, activeHours: int, repeatHours: int, t: int)
    requires ScheduleOk(startsAt, endsAt, activeHours, repeatHours)
    ensures var s := ParseSchedule(startsAt, endsAt, activeHours, repeatHours).value;
            && (Active(s, t) <==> Runs(startsAt, endsAt, activeHours, repeatHours, t))
            && (s.mode.Always? <==> startsAt.Absent?)
  {
    var s := ParseSchedule(startsAt, endsAt, activeHours, repeatHours).value;
    if s.mode.Periodic? {
      SomeCycle(s, activeHours, repeatHours, t);
      ActiveIffInCycle(s, t);
    }
  }

  /** A window of the entry, in a range that it overlaps: a permanent one is the range, any other is whole. */
  ghost predicate WindowOf(startsAt: Stamp, endsAt: Stamp, activeHours: int, repeatHours: int, from: int, until: int, w: Interval) {
    && w.end > from && w.start < until
    && if !startsAt.At? then w == Interval(from, until)
       else if repeatHours == 0 then endsAt.At? && w == Interval(startsAt.time, endsAt.time)
       else exists k: nat :: CycleIs(startsAt, endsAt, activeHours, repeatHours, k, w)
  }

  predicate CycleIs(startsAt: Stamp, endsAt: Stamp, activeHours: int, repeatHours: int, k: nat, w: Interval)
    requires startsAt.At?
  {
    var end := w.start + activeHours * HOUR;
    && w.start == startsAt.time + k * (repeatHours * HOUR) && (endsAt.At? ==> w.start < endsAt.time)
    && w.end == if endsAt.At? && end > endsAt.time then endsAt.time else end
  }

  lemma CycleIff(s: Schedule, startsAt: Stamp, endsAt: Stamp, activeHours: int, repeatHours: int, k: nat, w: Interval)
    requires ScheduleOk(startsAt, endsAt, activeHours, repeatHours) && repeatHours > 0
    requires s == ParseSchedule(startsAt, endsAt, activeHours, repeatHours).value
    ensures CycleIs(startsAt, endsAt, activeHours, repeatHours, k, w) <==>
            IsCycle(s, w, k) && (s.hasEnd ==> w.start < s.end)
  {
    HoursAre(s, activeHours, repeatHours, k);
  }

  /** When a range can be enumerated, its windows are exactly those of the entry that overlap it, in order. */
  lemma ParsedWindows(startsAt: Stamp, endsAt: Stamp, activeHours: int, repeatHours: int, from: int, until: int, w: Interval)
    requires ScheduleOk(startsAt, endsAt, activeHours, repeatHours) && from < until
    requires WindowsOf(ParseSchedule(startsAt, endsAt, activeHours, repeatHours).value, from, until).Ok?
    ensures var ws := WindowsOf(ParseSchedule(startsAt, endsAt, activeHours, repeatHours).value, from, until).value;
            Ordered(ws) && (w in ws <==> WindowOf(startsAt, endsAt, activeHours, repeatHours, from, until, w))
  {
    var s := ParseSchedule(startsAt, endsAt, activeHours, repeatHours).value;
    WindowsAgree(s, from, until, from);
    if s.mode.Periodic? {
      if w in WindowsOf(s, from, until).value {
        WindowIsCycle(s, from, until, w);
        var k: nat :| IsCycle(s, w, k) && (s.hasEnd ==> w.start < s.end);
        CycleIff(s, startsAt, endsAt, activeHours, repeatHours, k, w);
      }
      if WindowOf(startsAt, endsAt, activeHours, repeatHours, from, until, w) {
        var k: nat :| CycleIs(startsAt, endsAt, activeHours, repeatHours, k, w);
        CycleIff(s, startsAt, endsAt, activeHours, repeatHours, k, w);
        CycleListed(s, from, until, k, w);
      }
    }
  }

  lemma WindowIsCycle(s: Schedule, from: int, until: int, w: Interval)
    requires s.Valid() && s.mode.Periodic? && from < until && WindowsOf(s, from, until).Ok? && w in WindowsOf(s, from, until).value
    ensures w.end > from && w.start < until && exists k: nat :: IsCycle(s, w, k) && (s.hasEnd ==> w.start < s.end)
  {
    var first := FirstCycle(s, from);
    CyclesOrdered(s, from, until, first, 0);
    var k: nat :| k >= first && IsCycle(s, w, k);
    assert w.start < w.end;
  }

  /** A cycle that begins before the schedule's end and overlaps the range is one of its windows. */
  lemma CycleListed(s: Schedule, from: int, until: int, k: nat, w: Interval)
    requires s.Valid() && s.mode.Periodic? && from < until && WindowsOf(s, from, until).Ok?
    requires IsCycle(s, w, k) && (s.hasEnd ==> w.start < s.end) && w.end > from && w.start < until
    ensures w in WindowsOf(s, from, until).value
  {
    LastsRepeat(s);
    var t := if w.start < from then from else w.start;
    InCycleActive(s, w, k, t);
    WindowsAgree(s, from, until, t);
    var w' :| w' in WindowsOf(s, from, until).value && Within(t, w');
    WindowIsCycle(s, from, until, w');
    var n: nat :| IsCycle(s, w', n) && (s.hasEnd ==> w'.start < s.end);
    CycleOfUnique(s, t, k);
    CycleOfUnique(s, t, n);
  }
}
