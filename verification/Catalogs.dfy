/**
 * The publication catalogue: its validation, the question whether a quest is published
 * at a place and an instant, and the calendar of all publication windows in a range.
 */
module Catalogs {
  import opened Schedules
  import opened Sorting
  import opened Texts

  const MAX_PROFILES := 4096
  const MAX_SCHEDULES := 8192
  const MAX_QUEST_ID := 65535
  const MAX_REQUIREMENTS := 64
  const MAX_REQUIREMENT_BYTES := 4096
  const MAX_ELEMENTS := 1000000
  const MAX_SPAN := 366 * 24 * 3600 * SECOND

  datatype Profile = Profile(id: string, worlds: seq<string>, channels: seq<int>)

  datatype Quest = Quest(profiles: seq<string>, schedule: string, disabled: bool, title: string,
                         requirements: seq<string>)

  datatype Occurrence = Occurrence(questId: int, title: string, scheduleId: string, permanent: bool,
                                   start: int, end: int, profiles: seq<Profile>, requirements: seq<string>)

  datatype Catalog = Catalog(profiles: map<string, Profile>, profileIds: seq<string>, schedules: map<string, Schedule>,
                             quests: map<int, Quest>, questIds: seq<int>)
  {
    ghost predicate Valid() {
      && (forall id :: id in schedules ==> schedules[id].Valid())
      && (forall q :: q in quests && !quests[q].disabled ==> QuestResolved(quests[q]))
      && (forall q :: q in questIds <==> q in quests)
      && Ascending(questIds, Below)
      && (forall p :: p in profileIds <==> p in profiles)
      && Ascending(profileIds, TextBelow)
    }

    /** The references of an enabled quest lead somewhere. */
    ghost predicate QuestResolved(q: Quest) {
      q.schedule in schedules && forall p :: p in q.profiles ==> p in profiles
    }
  }

  // ------------------------------------------------------------------
  // The point question.

  predicate Matches(p: Profile, world: string, channel: int) {
    world in p.worlds && (p.channels == [] || channel in p.channels)
  }

  method MatchesProfile(p: Profile, world: string, channel: int) returns (r: bool)
    ensures r == Matches(p, world, channel)
  {
    var foundWorld := false;
    for i := 0 to |p.worlds|
      invariant !foundWorld && world !in p.worlds[..i]
    {
      if p.worlds[i] == world {
        foundWorld := true;
        break;
      }
    }
    if !foundWorld {
      return false;
    }
    if |p.channels| == 0 {
      return true;
    }
    for i := 0 to |p.channels|
      invariant channel !in p.channels[..i]
    {
      if p.channels[i] == channel {
        return true;
      }
    }
    return false;
  }

  datatype Verdict = Verdict(managed: bool, allowed: bool)

  /** Some profile of the quest lists the place. */
  ghost predicate Listed(c: Catalog, q: Quest, world: string, channel: int) {
    exists id :: id in q.profiles && id in c.profiles && Matches(c.profiles[id], world, channel)
  }

  ghost function Allows(c: Catalog, questId: int, world: string, channel: int, now: int): Verdict
    requires c.Valid()
  {
    if questId !in c.quests then Verdict(false, false)
    else
      var q := c.quests[questId];
      Verdict(true, !q.disabled && 1 <= channel <= 65535 && Active(c.schedules[q.schedule], now)
                    && Listed(c, q, world, channel))
  }

  method AllowsQuest(c: Catalog, questId: int, world: string, channel: int, now: int) returns (r: Verdict)
    requires c.Valid()
    ensures r == Allows(c, questId, world, channel, now)
  {
    if questId !in c.quests {
      return Verdict(false, false);
    }
    var q := c.quests[questId];
    if q.disabled || channel < 1 || channel > 65535 || !Active(c.schedules[q.schedule], now) {
      return Verdict(true, false);
    }
    for i := 0 to |q.profiles|
      invariant forall id :: id in q.profiles[..i] ==> !Matches(c.profiles[id], world, channel)
    {
      var m := MatchesProfile(c.profiles[q.profiles[i]], world, channel);
      if m {
        return Verdict(true, true);
      }
    }
    return Verdict(true, false);
  }

  // ------------------------------------------------------------------
  // The calendar.

  /** The windows of a quest in the range: none when it is disabled or its schedule has none. */
  function Spans(c: Catalog, id: int, from: int, until: int): Result<seq<Interval>>
    requires c.Valid() && id in c.quests
  {
    if c.quests[id].disabled then Ok([]) else WindowsOf(c.schedules[c.quests[id].schedule], from, until)
  }

  function ProfileWeight(p: Profile): nat { 1 + |p.worlds| + |p.channels| }

  function ProfilesWeight(c: Catalog, ids: seq<string>): nat
    requires forall id :: id in ids ==> id in c.profiles
  {
    if ids == [] then 0
    else ProfilesWeight(c, ids[..|ids| - 1]) + ProfileWeight(c.profiles[ids[|ids| - 1]])
  }

  /** The nested elements one row of the quest copies. */
  function Weight(c: Catalog, q: Quest): nat
    requires forall id :: id in q.profiles ==> id in c.profiles
  {
    |q.requirements| + ProfilesWeight(c, q.profiles)
  }

  function RowOf(c: Catalog, id: int, span: Interval): Occurrence
    requires c.Valid() && id in c.quests && !c.quests[id].disabled
  {
    var q := c.quests[id];
    Occurrence(id, q.title, q.schedule, c.schedules[q.schedule].mode.Always?, span.start, span.end,
               seq(|q.profiles|, i requires 0 <= i < |q.profiles| => c.profiles[q.profiles[i]]), q.requirements)
  }

  function RowsOfQuest(c: Catalog, id: int, spans: seq<Interval>): seq<Occurrence>
    requires c.Valid() && id in c.quests && (c.quests[id].disabled ==> spans == [])
  {
    if spans == [] then []
    else RowsOfQuest(c, id, spans[..|spans| - 1]) + [RowOf(c, id, spans[|spans| - 1])]
  }

  /** What the range holds, when every schedule could be expanded: its rows in quest order, and their cost. */
  datatype Expansion = Expansion(rows: seq<Occurrence>, elements: nat)

  /** The rows and the cost of one more quest. */
  function Extend(c: Catalog, before: Result<Expansion>, id: int, from: int, until: int): Result<Expansion>
    requires c.Valid() && id in c.quests
  {
    if !before.Ok? then before
    else
      var spans := Spans(c, id, from, until);
      if !spans.Ok? then Invalid
      else
        var cost := if c.quests[id].disabled then 0 else |spans.value| * Weight(c, c.quests[id]);
        Ok(Expansion(before.value.rows + RowsOfQuest(c, id, spans.value), before.value.elements + cost))
  }

  function Expand(c: Catalog, ids: seq<int>, from: int, until: int): Result<Expansion>
    requires c.Valid() && forall id :: id in ids ==> id in c.quests
  {
    if ids == [] then Ok(Expansion([], 0))
    else Extend(c, Expand(c, ids[..|ids| - 1], from, until), ids[|ids| - 1], from, until)
  }

  /** By start, then quest, then schedule. */
  predicate Before(a: Occurrence, b: Occurrence) {
    if a.start != b.start then a.start < b.start
    else if a.questId != b.questId then a.questId < b.questId
    else TextBelow(a.scheduleId, b.scheduleId)
  }

  predicate RangeOk(from: int, until: int) {
    from < until && until - from <= MAX_SPAN
  }

  /** The calendar is exported in full, or not at all. */
  predicate Exportable(c: Catalog, from: int, until: int)
    requires c.Valid()
  {
    && RangeOk(from, until)
    && var all := Expand(c, c.questIds, from, until);
       all.Ok? && |all.value.rows| <= MAX_OCCURRENCES && all.value.elements <= MAX_ELEMENTS
  }

  function Calendar(c: Catalog, from: int, until: int): seq<Occurrence>
    requires c.Valid() && Exportable(c, from, until)
  {
    Sort(Expand(c, c.questIds, from, until).value.rows, Before)
  }

  // ------------------------------------------------------------------
  // The loops of the export.

  /** a expands no less than the prefix it continues. */
  predicate Continues(before: Result<Expansion>, after: Result<Expansion>) {
    after.Ok? ==> before.Ok? && |before.value.rows| <= |after.value.rows| && before.value.elements <= after.value.elements
  }

  lemma ExtendContinues(c: Catalog, before: Result<Expansion>, id: int, from: int, until: int)
    requires c.Valid() && id in c.quests
    ensures Continues(before, Extend(c, before, id, from, until))
  {
  }

  lemma {:induction false} ExpandPrefix(c: Catalog, ids: seq<int>, n: nat, from: int, until: int)
    requires c.Valid() && (forall id :: id in ids ==> id in c.quests) && n <= |ids|
    ensures Continues(Expand(c, ids[..n], from, until), Expand(c, ids, from, until))
  {
    if n == |ids| {
      assert ids[..n] == ids;
    } else {
      var init := ids[..|ids| - 1];
      assert init[..n] == ids[..n];
      ExpandPrefix(c, init, n, from, until);
      ExtendContinues(c, Expand(c, init, from, until), ids[|ids| - 1], from, until);
    }
  }

  lemma ExpandNext(c: Catalog, ids: seq<int>, n: nat, from: int, until: int)
    requires c.Valid() && (forall id :: id in ids ==> id in c.quests) && n < |ids|
    ensures Expand(c, ids[..n + 1], from, until) == Extend(c, Expand(c, ids[..n], from, until), ids[n], from, until)
  {
    var init := ids[..n + 1];
    assert init[..n] == ids[..n] && init[n] == ids[n];
  }

  lemma {:induction false} RowsAt(c: Catalog, id: int, spans: seq<Interval>)
    requires c.Valid() && id in c.quests && (c.quests[id].disabled ==> spans == [])
    ensures |RowsOfQuest(c, id, spans)| == |spans|
    ensures forall i :: 0 <= i < |spans| ==> RowsOfQuest(c, id, spans)[i] == RowOf(c, id, spans[i])
  {
    if spans != [] {
      RowsAt(c, id, spans[..|spans| - 1]);
    }
  }

  /** Every cached expansion is its schedule's. */
  ghost predicate Cached(c: Catalog, windows: map<string, seq<Interval>>, from: int, until: int)
    requires c.Valid()
  {
    forall k :: k in windows ==> k in c.schedules && WindowsOf(c.schedules[k], from, until) == Ok(windows[k])
  }

  /** Dividing the remaining budget is the same as multiplying out the cost. */
  lemma DivideFirst(weight: nat, count: nat, left: nat)
    requires count > 0
    ensures weight > left / count <==> count * weight > left
    ensures weight <= left / count && left <= MAX_ELEMENTS ==> count * weight <= MAX_ELEMENTS
  {
    var q, r := left / count, left % count;
    assert left == q * count + r && 0 <= r < count;
    if weight > q {
      assert weight * count >= (q + 1) * count by { Grows(q + 1, weight, count); }
    } else {
      assert weight * count <= q * count by { Grows(weight, q, count); }
    }
  }

  lemma Grows(a: nat, b: nat, n: nat)
    requires a <= b
    ensures a * n <= b * n
  {
  }

  lemma {:induction false} WeightPrefix(c: Catalog, ids: seq<string>, n: nat)
    requires (forall id :: id in ids ==> id in c.profiles) && n <= |ids|
    ensures ProfilesWeight(c, ids[..n]) <= ProfilesWeight(c, ids)
  {
    if n == |ids| {
      assert ids[..n] == ids;
    } else {
      var init := ids[..|ids| - 1];
      assert init[..n] == ids[..n];
      WeightPrefix(c, init, n);
    }
  }

  /** The weight of one row, or false once it passes the bound. */
  method WeighRow(c: Catalog, q: Quest) returns (ok: bool, weight: nat)
    requires c.QuestResolved(q)
    ensures ok ==> weight == Weight(c, q)
    ensures !ok ==> Weight(c, q) > MAX_ELEMENTS
  {
    weight := |q.requirements|;
    for i := 0 to |q.profiles|
      invariant weight == |q.requirements| + ProfilesWeight(c, q.profiles[..i])
    {
      var p := c.profiles[q.profiles[i]];
      var additional := 1 + |p.worlds| + |p.channels|;
      var init := q.profiles[..i + 1];
      assert init[..i] == q.profiles[..i] && init[i] == q.profiles[i];
      if additional > MAX_ELEMENTS - weight {
        WeightPrefix(c, q.profiles, i + 1);
        return false, weight;
      }
      weight := weight + additional;
    }
    assert q.profiles[..|q.profiles|] == q.profiles;
    ok := true;
  }

  /** The schedule's windows, expanded at most once. */
  method LookUp(c: Catalog, q: Quest, windows: map<string, seq<Interval>>, from: int, until: int)
      returns (r: Result<seq<Interval>>, cache: map<string, seq<Interval>>)
    requires c.Valid() && q.schedule in c.schedules && Cached(c, windows, from, until)
    ensures r.Ok? <==> WindowsOf(c.schedules[q.schedule], from, until).Ok?
    ensures r.Ok? ==> r == WindowsOf(c.schedules[q.schedule], from, until) && cache == windows[q.schedule := r.value]
    ensures Cached(c, cache, from, until)
  {
    cache := windows;
    if q.schedule in windows {
      return Ok(windows[q.schedule]), cache;
    }
    r := Schedules.Windows(c.schedules[q.schedule], from, until);
    if r.Ok? {
      cache := windows[q.schedule := r.value];
    }
  }

  /** Adds a quest's rows and elements to the totals, unless that passes a bound. */
  method Charge(c: Catalog, q: Quest, count: nat, rows: nat, elements: nat) returns (ok: bool, rows': nat, elements': nat)
    requires c.Valid() && c.QuestResolved(q) && rows <= MAX_OCCURRENCES && elements <= MAX_ELEMENTS
    ensures ok <==> rows + count <= MAX_OCCURRENCES && elements + count * Weight(c, q) <= MAX_ELEMENTS
    ensures ok ==> rows' == rows + count && elements' == elements + count * Weight(c, q)
  {
    rows', elements' := rows, elements;
    if count > MAX_OCCURRENCES - rows {
      return false, rows, elements;
    }
    if count > 0 {
      var fits, weight := WeighRow(c, q);
      CostGrows(count, Weight(c, q));
      if !fits {
        return false, rows, elements;
      }
      DivideFirst(weight, count, MAX_ELEMENTS - elements);
      if weight > (MAX_ELEMENTS - elements) / count {
        return false, rows, elements;
      }
      elements' := elements + count * weight;
    }
    ok, rows' := true, rows + count;
  }

  /** The first loop: expand each referenced schedule once, and count rows and elements before copying any. */
  method CountRows(c: Catalog, from: int, until: int) returns (ok: bool, windows: map<string, seq<Interval>>)
    requires c.Valid() && RangeOk(from, until)
    ensures ok <==> Exportable(c, from, until)
    ensures ok ==> Cached(c, windows, from, until)
    ensures ok ==> forall id :: id in c.questIds && !c.quests[id].disabled ==> c.quests[id].schedule in windows
  {
    windows := map[];
    var resultCount: nat, elementCount: nat := 0, 0;
    for n := 0 to |c.questIds|
      invariant Cached(c, windows, from, until)
      invariant forall id :: id in c.questIds[..n] && id in c.quests && !c.quests[id].disabled ==>
                               c.quests[id].schedule in windows
      invariant Counted(Expand(c, c.questIds[..n], from, until), resultCount, elementCount)
    {
      var id := c.questIds[n];
      var q := c.quests[id];
      ExpandNext(c, c.questIds, n, from, until);
      ExpandPrefix(c, c.questIds, n + 1, from, until);
      if q.disabled {
        continue;
      }
      var r;
      r, windows := LookUp(c, q, windows, from, until);
      if !r.Ok? {
        return false, windows;
      }
      ExtendCounts(c, Expand(c, c.questIds[..n], from, until), id, from, until, r.value);
      ok, resultCount, elementCount := Charge(c, q, |r.value|, resultCount, elementCount);
      if !ok {
        return false, windows;
      }
    }
    assert c.questIds[..|c.questIds|] == c.questIds;
    ok := true;
  }

  lemma ExtendCounts(c: Catalog, before: Result<Expansion>, id: int, from: int, until: int, spans: seq<Interval>)
    requires c.Valid() && before.Ok? && id in c.quests && !c.quests[id].disabled
    requires WindowsOf(c.schedules[c.quests[id].schedule], from, until) == Ok(spans)
    ensures var after := Extend(c, before, id, from, until);
            && after.Ok? && |after.value.rows| == |before.value.rows| + |spans|
            && after.value.elements == before.value.elements + |spans| * Weight(c, c.quests[id])
  {
    RowsAt(c, id, spans);
  }

  lemma CostGrows(count: nat, weight: nat)
    requires count > 0
    ensures count * weight >= weight
  {
    Grows(1, count, weight);
  }

  predicate Counted(all: Result<Expansion>, rows: nat, elements: nat) {
    all.Ok? && rows == |all.value.rows| && elements == all.value.elements
    && rows <= MAX_OCCURRENCES && elements <= MAX_ELEMENTS
  }

  /** The rows of one quest, each with its own copy of the profiles. */
  method CopyRows(c: Catalog, id: int, spans: seq<Interval>) returns (rows: seq<Occurrence>)
    requires c.Valid() && id in c.quests && !c.quests[id].disabled
    ensures rows == RowsOfQuest(c, id, spans)
  {
    var q := c.quests[id];
    rows := [];
    for i := 0 to |spans|
      invariant rows == RowsOfQuest(c, id, spans[..i])
    {
      var span := spans[i];
      var p := seq(|q.profiles|, j requires 0 <= j < |q.profiles| => c.profiles[q.profiles[j]]);
      assert spans[..i + 1][..i] == spans[..i];
      rows := rows + [Occurrence(id, q.title, q.schedule, c.schedules[q.schedule].mode.Always?,
                                 span.start, span.end, p, q.requirements)];
    }
    assert spans[..|spans|] == spans;
  }

  /** The rows of one more quest. */
  method AppendRows(c: Catalog, n: nat, from: int, until: int, windows: map<string, seq<Interval>>, rows: seq<Occurrence>)
      returns (result: seq<Occurrence>)
    requires c.Valid() && n < |c.questIds| && Expand(c, c.questIds, from, until).Ok? && Cached(c, windows, from, until)
    requires forall id :: id in c.questIds && !c.quests[id].disabled ==> c.quests[id].schedule in windows
    requires Expand(c, c.questIds[..n], from, until).Ok? && rows == Expand(c, c.questIds[..n], from, until).value.rows
    ensures Expand(c, c.questIds[..n + 1], from, until).Ok? && result == Expand(c, c.questIds[..n + 1], from, until).value.rows
  {
    result := rows;
    var id := c.questIds[n];
    ExpandNext(c, c.questIds, n, from, until);
    ExpandPrefix(c, c.questIds, n + 1, from, until);
    if c.quests[id].disabled {
      return;
    }
    var spans := windows[c.quests[id].schedule];
    assert Spans(c, id, from, until) == Ok(spans);
    var more := CopyRows(c, id, spans);
    result := result + more;
  }

  /** The calendar of a range: complete or refused, never cut short. */
  method Windows(c: Catalog, from: int, until: int, fromZone: int, untilZone: int) returns (r: Result<seq<Occurrence>>)
    requires c.Valid()
    ensures r.Ok? <==> CalendarTime(from, fromZone) && CalendarTime(until, untilZone) && Exportable(c, from, until)
    ensures r.Ok? ==> r.value == Calendar(c, from, until)
  {
    if !CalendarTime(from, fromZone) || !CalendarTime(until, untilZone) || from >= until {
      return Invalid;
    }
    if until - from > MAX_SPAN {
      return Invalid;
    }
    var ok, windows := CountRows(c, from, until);
    if !ok {
      return TooMany;
    }
    var result: seq<Occurrence> := [];
    for n := 0 to |c.questIds|
      invariant Expand(c, c.questIds[..n], from, until).Ok?
      invariant result == Expand(c, c.questIds[..n], from, until).value.rows
    {
      result := AppendRows(c, n, from, until, windows, result);
    }
    assert c.questIds[..|c.questIds|] == c.questIds;
    return Ok(Sort(result, Before));
  }

  // ------------------------------------------------------------------
  // The calendar agrees with the point question.

  /** The row is this quest's, for one of its windows. */
  ghost predicate RowFor(c: Catalog, o: Occurrence, id: int, span: Interval, from: int, until: int)
    requires c.Valid()
  {
    && id in c.quests && !c.quests[id].disabled && o == RowOf(c, id, span)
    && Spans(c, id, from, until).Ok? && span in Spans(c, id, from, until).value
  }

  lemma {:induction false} RowsSound(c: Catalog, ids: seq<int>, from: int, until: int, o: Occurrence) returns (span: Interval)
    requires c.Valid() && (forall id :: id in ids ==> id in c.quests)
    requires Expand(c, ids, from, until).Ok? && o in Expand(c, ids, from, until).value.rows
    ensures o.questId in ids && RowFor(c, o, o.questId, span, from, until)
  {
    var init, id := ids[..|ids| - 1], ids[|ids| - 1];
    var spans := Spans(c, id, from, until).value;
    RowsAt(c, id, spans);
    if o in Expand(c, init, from, until).value.rows {
      span := RowsSound(c, init, from, until, o);
    } else {
      var i :| 0 <= i < |spans| && o == RowsOfQuest(c, id, spans)[i];
      span := spans[i];
    }
  }

  lemma {:induction false} RowsComplete(c: Catalog, ids: seq<int>, from: int, until: int, id: int, span: Interval)
    requires c.Valid() && (forall k :: k in ids ==> k in c.quests)
    requires Expand(c, ids, from, until).Ok? && id in ids && !c.quests[id].disabled
    requires Spans(c, id, from, until).Ok? && span in Spans(c, id, from, until).value
    ensures RowOf(c, id, span) in Expand(c, ids, from, until).value.rows
  {
    var init, last := ids[..|ids| - 1], ids[|ids| - 1];
    assert ids == init + [last];
    if id == last {
      var spans := Spans(c, id, from, until).value;
      RowsAt(c, id, spans);
      var i :| 0 <= i < |spans| && spans[i] == span;
      assert RowsOfQuest(c, id, spans)[i] == RowOf(c, id, span);
    } else {
      RowsComplete(c, init, from, until, id, span);
    }
  }

  /** Two rows of one quest with one start are one row. */
  lemma KeyUnique(c: Catalog, from: int, until: int, a: Occurrence, b: Occurrence)
    requires c.Valid() && from < until && Expand(c, c.questIds, from, until).Ok?
    requires a in Expand(c, c.questIds, from, until).value.rows && b in Expand(c, c.questIds, from, until).value.rows
    requires a.start == b.start && a.questId == b.questId
    ensures a == b
  {
    var sa := RowsSound(c, c.questIds, from, until, a);
    var sb := RowsSound(c, c.questIds, from, until, b);
    var id := a.questId;
    WindowsAgree(c.schedules[c.quests[id].schedule], from, until, from);
    var spans := Spans(c, id, from, until).value;
    var i :| 0 <= i < |spans| && spans[i] == sa;
    var j :| 0 <= j < |spans| && spans[j] == sb;
  }

  lemma RowsLinear(c: Catalog, from: int, until: int)
    requires c.Valid() && from < until && Expand(c, c.questIds, from, until).Ok?
    ensures Linear(Expand(c, c.questIds, from, until).value.rows, Before)
  {
    var rows := Expand(c, c.questIds, from, until).value.rows;
    forall a, b | a in rows && b in rows && a.start == b.start && a.questId == b.questId
      ensures a == b
    {
      KeyUnique(c, from, until, a, b);
    }
    forall a | a in rows
      ensures !Before(a, a)
    {
      TextIrreflexive(a.scheduleId);
    }
  }

  lemma {:induction false} RowsDistinct(c: Catalog, ids: seq<int>, from: int, until: int)
    requires c.Valid() && (forall k :: k in ids ==> k in c.quests) && Ascending(ids, Below)
    requires from < until && Expand(c, ids, from, until).Ok?
    ensures Distinct(Expand(c, ids, from, until).value.rows)
  {
    if ids != [] {
      var init, id := ids[..|ids| - 1], ids[|ids| - 1];
      RowsDistinct(c, init, from, until);
      var rows, spans := Expand(c, init, from, until).value.rows, Spans(c, id, from, until).value;
      RowsAt(c, id, spans);
      QuestRowsDistinct(c, id, from, until);
      forall o | o in rows
        ensures o.questId != id
      {
        var span := RowsSound(c, init, from, until, o);
        var i :| 0 <= i < |init| && init[i] == o.questId;
        assert Below(ids[i], ids[|ids| - 1]);
      }
      assert forall o :: o in RowsOfQuest(c, id, spans) ==> o.questId == id;
      DistinctJoin(rows, RowsOfQuest(c, id, spans));
    }
  }

  lemma DistinctJoin<T>(a: seq<T>, b: seq<T>)
    requires Distinct(a) && Distinct(b) && forall x :: x in a ==> x !in b
    ensures Distinct(a + b)
  {
    forall i, j | 0 <= i < j < |a + b|
      ensures (a + b)[i] != (a + b)[j]
    {
      if i < |a| <= j {
        assert a[i] in a && b[j - |a|] in b;
      }
    }
  }

  lemma QuestRowsDistinct(c: Catalog, id: int, from: int, until: int)
    requires c.Valid() && id in c.quests && from < until && Spans(c, id, from, until).Ok?
    ensures Distinct(RowsOfQuest(c, id, Spans(c, id, from, until).value))
  {
    var spans := Spans(c, id, from, until).value;
    RowsAt(c, id, spans);
    if !c.quests[id].disabled {
      WindowsAgree(c.schedules[c.quests[id].schedule], from, until, from);
      forall i, j | 0 <= i < j < |spans|
        ensures RowOf(c, id, spans[i]) != RowOf(c, id, spans[j])
      {
        assert spans[i].start < spans[j].start;
      }
    }
  }

  /**
   * The calendar is in strict order, whatever sort the library runs: it holds the rows of the expansion,
   * and any other ascending arrangement of them is the same list.
   */
  lemma CalendarOrdered(c: Catalog, from: int, until: int)
    requires c.Valid() && Exportable(c, from, until)
    ensures Ascending(Calendar(c, from, until), Before)
    ensures multiset(Calendar(c, from, until)) == multiset(Expand(c, c.questIds, from, until).value.rows)
    ensures forall other: seq<Occurrence> ::
              Ascending(other, Before) && multiset(other) == multiset(Calendar(c, from, until))
              ==> other == Calendar(c, from, until)
  {
    var rows := Expand(c, c.questIds, from, until).value.rows;
    RowsLinear(c, from, until);
    RowsDistinct(c, c.questIds, from, until);
    SortOrders(rows, Before);
    SortKeeps(rows, Before);
    forall other: seq<Occurrence> | Ascending(other, Before) && multiset(other) == multiset(Calendar(c, from, until))
      ensures other == Calendar(c, from, until)
    {
      AnySortAgrees(rows, other, Before);
    }
  }

  /** Row o publishes the quest at the place and the instant. */
  ghost predicate Publishes(o: Occurrence, questId: int, world: string, channel: int, t: int) {
    o.questId == questId && o.start <= t < o.end && exists p :: p in o.profiles && Matches(p, world, channel)
  }

  lemma RowLists(c: Catalog, id: int, span: Interval, world: string, channel: int)
    requires c.Valid() && id in c.quests && !c.quests[id].disabled
    ensures (exists p :: p in RowOf(c, id, span).profiles && Matches(p, world, channel)) <==>
            Listed(c, c.quests[id], world, channel)
  {
    var q, row := c.quests[id], RowOf(c, id, span);
    if Listed(c, q, world, channel) {
      var k :| k in q.profiles && k in c.profiles && Matches(c.profiles[k], world, channel);
      var i :| 0 <= i < |q.profiles| && q.profiles[i] == k;
      assert row.profiles[i] == c.profiles[k] && row.profiles[i] in row.profiles;
    }
    if p :| p in row.profiles && Matches(p, world, channel) {
      var i :| 0 <= i < |row.profiles| && row.profiles[i] == p;
      assert q.profiles[i] in q.profiles && Matches(c.profiles[q.profiles[i]], world, channel);
    }
  }

  /**
   * The exported calendar and the point question give the same answer for every quest, place and
   * instant of the range.
   */
  lemma CalendarAgrees(c: Catalog, from: int, until: int, questId: int, world: string, channel: int, t: int)
    requires c.Valid() && Exportable(c, from, until)
    requires 1 <= channel <= 65535 && from <= t < until
    ensures Allows(c, questId, world, channel, t) == Verdict(true, true) <==>
            exists o :: o in Calendar(c, from, until) && Publishes(o, questId, world, channel, t)
  {
    CalendarOrdered(c, from, until);
    var rows, calendar := Expand(c, c.questIds, from, until).value.rows, Calendar(c, from, until);
    SameElements(calendar, rows);
    if Allows(c, questId, world, channel, t) == Verdict(true, true) {
      var span := ActiveWindow(c, from, until, questId, t);
      RowsComplete(c, c.questIds, from, until, questId, span);
      RowLists(c, questId, span, world, channel);
      assert Publishes(RowOf(c, questId, span), questId, world, channel, t);
    }
    if o :| o in calendar && Publishes(o, questId, world, channel, t) {
      var span := RowsSound(c, c.questIds, from, until, o);
      RowLists(c, questId, span, world, channel);
      WindowsAgree(c.schedules[c.quests[questId].schedule], from, until, t);
      assert Within(t, span);
    }
  }

  lemma {:induction false} ExpandOk(c: Catalog, ids: seq<int>, from: int, until: int, id: int)
    requires c.Valid() && (forall k :: k in ids ==> k in c.quests)
    requires Expand(c, ids, from, until).Ok? && id in ids
    ensures Spans(c, id, from, until).Ok?
  {
    var init, last := ids[..|ids| - 1], ids[|ids| - 1];
    assert ids == init + [last];
    if id != last {
      ExpandOk(c, init, from, until, id);
    }
  }

  lemma ActiveWindow(c: Catalog, from: int, until: int, id: int, t: int) returns (span: Interval)
    requires c.Valid() && Exportable(c, from, until) && from <= t < until
    requires id in c.quests && !c.quests[id].disabled && Active(c.schedules[c.quests[id].schedule], t)
    ensures Spans(c, id, from, until).Ok? && span in Spans(c, id, from, until).value && Within(t, span)
  {
    ExpandOk(c, c.questIds, from, until, id);
    WindowsAgree(c.schedules[c.quests[id].schedule], from, until, t);
    span :| span in Spans(c, id, from, until).value && Within(t, span);
  }
}
