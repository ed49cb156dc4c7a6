/**
 * Collaboration presentations and their cohort: one-time windows that may not overlap, and quests that must be
 * listed at every location.
 */
module Collab {
  import opened Catalogs
  import opened Publication
  import opened Schedules
  import opened Sorting
  import opened Texts

  const DEFINITIONS: seq<int> := [40211, 40212, 40213, 40214, 40215, 40217, 40221, 40223, 40224, 40225, 40226, 40227, 40239]

  datatype Rule = Rule(event: string, scheduleId: string)

  datatype Presentation = Presentation(event: string, scheduleId: string, schedule: Schedule)

  function TuneId(scope: string): Result<nat> {
    if scope == "kaiji" then Ok(1106)
    else if scope == "higanjima" then Ok(1144)
    else if scope == "nier" then Ok(1153)
    else if scope == "evangelion" then Ok(1156)
    else if scope == "pso2" then Ok(1130)
    else Invalid
  }

  // ------------------------------------------------------------------
  // Presentations whose windows do not overlap.

  predicate Earlier(a: Presentation, b: Presentation) {
    if a.schedule.start != b.schedule.start then a.schedule.start < b.schedule.start
    else TextBelow(a.scheduleId, b.scheduleId)
  }

  predicate Bounded(p: Presentation) {
    p.schedule.mode.Once? && p.schedule.start < p.schedule.end
  }

  predicate Apart(a: Presentation, b: Presentation) {
    a.schedule.end <= b.schedule.start || b.schedule.end <= a.schedule.start
  }

  predicate AllApart(plan: seq<Presentation>) {
    forall i, j :: 0 <= i < j < |plan| ==> Apart(plan[i], plan[j])
  }

  /** What is checked after sorting: neighbours only. */
  predicate NeighboursApart(plan: seq<Presentation>) {
    forall i :: 0 < i < |plan| ==> plan[i - 1].schedule.end <= plan[i].schedule.start
  }

  /** Neighbours apart are all in order, each over before any later one begins. */
  lemma {:induction false} NeighboursOrder(plan: seq<Presentation>)
    requires NeighboursApart(plan) && forall p :: p in plan ==> Bounded(p)
    ensures forall i, j :: 0 <= i < j < |plan| ==> plan[i].schedule.end <= plan[j].schedule.start
  {
    if plan != [] {
      var init := plan[..|plan| - 1];
      NeighboursOrder(init);
      forall i, j | 0 <= i < j < |plan|
        ensures plan[i].schedule.end <= plan[j].schedule.start
      {
        if j == |plan| - 1 && i < j - 1 {
          assert init[i].schedule.end <= init[j - 1].schedule.start && Bounded(plan[j - 1]);
        } else if j < |plan| - 1 {
          assert init[i].schedule.end <= init[j].schedule.start;
        }
      }
    }
  }

  lemma EarlierLinear(plan: seq<Presentation>)
    requires AllApart(plan) && forall p :: p in plan ==> Bounded(p)
    ensures Distinct(plan) && Linear(plan, Earlier)
  {
    forall i, j | 0 <= i < j < |plan|
      ensures plan[i].schedule.start != plan[j].schedule.start
    {
      assert Bounded(plan[i]) && Bounded(plan[j]) && Apart(plan[i], plan[j]);
    }
    forall a, b | a in plan && b in plan && a != b
      ensures a.schedule.start != b.schedule.start
    {
      var i :| 0 <= i < |plan| && plan[i] == a;
      var j :| 0 <= j < |plan| && plan[j] == b;
    }
    forall a | a in plan
      ensures !Earlier(a, a)
    {
      TextIrreflexive(a.scheduleId);
    }
  }

  /** Sets of positions do not matter: apart is a matter of the elements, when each stands once. */
  lemma ApartElements(plan: seq<Presentation>)
    requires forall p :: p in plan ==> Bounded(p)
    ensures AllApart(plan) <==> Distinct(plan) && forall a, b :: a in plan && b in plan && a != b ==> Apart(a, b)
  {
    if AllApart(plan) {
      EarlierLinear(plan);
      forall a, b | a in plan && b in plan && a != b
        ensures Apart(a, b)
      {
        var i :| 0 <= i < |plan| && plan[i] == a;
        var j :| 0 <= j < |plan| && plan[j] == b;
        assert if i < j then Apart(plan[i], plan[j]) else Apart(plan[j], plan[i]);
      }
    }
    if Distinct(plan) && forall a, b :: a in plan && b in plan && a != b ==> Apart(a, b) {
      forall i, j | 0 <= i < j < |plan|
        ensures Apart(plan[i], plan[j])
      {
        assert plan[i] in plan && plan[j] in plan;
      }
    }
  }

  /** Checking neighbours after sorting finds exactly whether any two windows overlap. */
  lemma SortedCheck(plan: seq<Presentation>)
    requires forall p :: p in plan ==> Bounded(p)
    ensures NeighboursApart(Sort(plan, Earlier)) <==> AllApart(plan)
  {
    var sorted := Sort(plan, Earlier);
    SortKeeps(plan, Earlier);
    SameElements(sorted, plan);
    DistinctCounts(plan);
    DistinctCounts(sorted);
    ApartElements(plan);
    ApartElements(sorted);
    if AllApart(plan) {
      EarlierLinear(plan);
      SortOrders(plan, Earlier);
      forall i | 0 < i < |sorted|
        ensures sorted[i - 1].schedule.end <= sorted[i].schedule.start
      {
        assert Earlier(sorted[i - 1], sorted[i]) && Apart(sorted[i - 1], sorted[i]);
        assert sorted[i] in sorted && Bounded(sorted[i]);
      }
    }
    if NeighboursApart(sorted) {
      NeighboursOrder(sorted);
    }
  }

  // ------------------------------------------------------------------
  // Compiling the presentation rules.

  predicate RuleOk(c: Catalog, r: Rule) {
    TuneId(r.event).Ok? && r.scheduleId in c.schedules && !c.schedules[r.scheduleId].mode.Periodic?
  }

  predicate DefinitionsManaged(c: Catalog) {
    forall id :: id in DEFINITIONS ==> id in c.quests
  }

  function PlanOf(c: Catalog, rules: seq<Rule>): seq<Presentation>
    requires forall r :: r in rules ==> RuleOk(c, r)
  {
    seq(|rules|, i requires 0 <= i < |rules| => assert rules[i] in rules; PresentationOf(c, rules[i]))
  }

  function PresentationOf(c: Catalog, r: Rule): Presentation
    requires RuleOk(c, r)
  {
    Presentation(r.event, r.scheduleId, c.schedules[r.scheduleId])
  }

  /** Known rules, an unlimited one only alone, and no two windows that overlap. */
  predicate Compilable(c: Catalog, rules: seq<Rule>) {
    && DefinitionsManaged(c) && (forall r :: r in rules ==> RuleOk(c, r))
    && (|rules| > 1 ==> (forall r :: r in rules ==> !c.schedules[r.scheduleId].mode.Always?) && AllApart(PlanOf(c, rules)))
  }

  method FindDefinitions(c: Catalog) returns (ok: bool)
    requires c.Valid()
    ensures ok <==> DefinitionsManaged(c)
  {
    for i := 0 to |DEFINITIONS|
      invariant forall k :: 0 <= k < i ==> DEFINITIONS[k] in c.quests
    {
      if DEFINITIONS[i] !in c.quests {
        assert DEFINITIONS[i] in DEFINITIONS;
        return false;
      }
    }
    return true;
  }

  method PlanRules(c: Catalog, rules: seq<Rule>) returns (r: Result<seq<Presentation>>)
    requires c.Valid()
    ensures r.Ok? <==> forall rule :: rule in rules ==> RuleOk(c, rule)
    ensures r.Ok? ==> r.value == PlanOf(c, rules)
  {
    var plan: seq<Presentation> := [];
    for i := 0 to |rules|
      invariant |plan| == i && forall k :: 0 <= k < i ==> RuleOk(c, rules[k])
      invariant forall k :: 0 <= k < i ==> plan[k] == PresentationOf(c, rules[k])
    {
      var rule := rules[i];
      assert rule in rules;
      if !TuneId(rule.event).Ok? || rule.scheduleId !in c.schedules {
        return Invalid;
      }
      var s := c.schedules[rule.scheduleId];
      if s.mode.Periodic? {
        return Invalid;
      }
      plan := plan + [Presentation(rule.event, rule.scheduleId, s)];
    }
    return Ok(plan);
  }

  /** Of several presentations none may be permanent. */
  method AnyPermanent(plan: seq<Presentation>) returns (found: bool)
    ensures found <==> exists p :: p in plan && p.schedule.mode.Always?
  {
    for i := 0 to |plan|
      invariant forall k :: 0 <= k < i ==> !plan[k].schedule.mode.Always?
    {
      if plan[i].schedule.mode.Always? {
        assert plan[i] in plan;
        return true;
      }
    }
    return false;
  }

  method SortPlan(unsorted: seq<Presentation>) returns (r: Result<seq<Presentation>>)
    requires |unsorted| > 1 ==> forall p :: p in unsorted ==> Bounded(p)
    ensures r.Ok? <==> (|unsorted| > 1 ==> AllApart(unsorted))
    ensures r.Ok? ==> r.value == Sort(unsorted, Earlier)
  {
    if |unsorted| > 1 {
      SortedCheck(unsorted);
    }
    var plan := Sort(unsorted, Earlier);
    SortKeeps(unsorted, Earlier);
    SameElements(plan, unsorted);
    var i := 1;
    while i < |plan|
      invariant forall k :: 0 < k < i && k < |plan| ==> plan[k - 1].schedule.end <= plan[k].schedule.start
    {
      if plan[i].schedule.start < plan[i - 1].schedule.end {
        return Invalid;
      }
      i := i + 1;
    }
    return Ok(plan);
  }

  method CompilePresentations(c: Catalog, rules: seq<Rule>) returns (r: Result<seq<Presentation>>)
    requires c.Valid()
    ensures r.Ok? <==> Compilable(c, rules)
    ensures r.Ok? ==> r.value == Sort(PlanOf(c, rules), Earlier)
  {
    var managed := FindDefinitions(c);
    if !managed {
      return Invalid;
    }
    r := PlanRules(c, rules);
    if !r.Ok? {
      return;
    }
    if |rules| > 1 {
      var permanent := AnyPermanent(r.value);
      PermanentRules(c, rules);
      if permanent {
        return Invalid;
      }
      PlanBounded(c, rules);
    }
    r := SortPlan(r.value);
  }

  lemma PermanentRules(c: Catalog, rules: seq<Rule>)
    requires c.Valid() && forall r :: r in rules ==> RuleOk(c, r)
    ensures (exists p :: p in PlanOf(c, rules) && p.schedule.mode.Always?)
      <==> exists r :: r in rules && RuleOk(c, r) && c.schedules[r.scheduleId].mode.Always?
  {
    if r :| r in rules && RuleOk(c, r) && c.schedules[r.scheduleId].mode.Always? {
      var i :| 0 <= i < |rules| && rules[i] == r;
      assert PlanOf(c, rules)[i] in PlanOf(c, rules);
    }
  }

  lemma PlanBounded(c: Catalog, rules: seq<Rule>)
    requires c.Valid() && forall r :: r in rules ==> RuleOk(c, r) && !c.schedules[r.scheduleId].mode.Always?
    ensures forall p :: p in PlanOf(c, rules) ==> Bounded(p)
  {
    forall p | p in PlanOf(c, rules)
      ensures Bounded(p)
    {
      var i :| 0 <= i < |rules| && PlanOf(c, rules)[i] == p;
      assert rules[i] in rules;
    }
  }

  // ------------------------------------------------------------------
  // The presentation at an instant.

  datatype Shown = Nothing | Shown(event: string, tune: nat)

  function ShownAt(plan: seq<Presentation>, t: int): Shown
    requires forall p :: p in plan ==> p.schedule.Valid()
  {
    if plan == [] then Nothing
    else if Active(plan[0].schedule, t) then
      Shown(plan[0].event, var id := TuneId(plan[0].event); if id.Ok? then id.value else 0)
    else ShownAt(plan[1..], t)
  }

  /** A plan as compilation leaves it, in any order. */
  ghost predicate PlanOk(plan: seq<Presentation>) {
    && (forall p :: p in plan ==> p.schedule.Valid())
    && (|plan| > 1 ==> AllApart(plan) && forall p :: p in plan ==> Bounded(p))
  }

  lemma CompiledOk(c: Catalog, rules: seq<Rule>)
    requires c.Valid() && Compilable(c, rules)
    ensures PlanOk(PlanOf(c, rules))
  {
    var plan := PlanOf(c, rules);
    forall p | p in plan
      ensures p.schedule.Valid()
    {
      var i :| 0 <= i < |plan| && plan[i] == p;
      assert rules[i] in rules;
    }
    if |plan| > 1 {
      PlanBounded(c, rules);
    }
  }

  /** At most one presentation is active at any instant. */
  lemma OneActive(plan: seq<Presentation>, i: nat, j: nat, t: int)
    requires PlanOk(plan) && i < j < |plan|
    ensures !(Active(plan[i].schedule, t) && Active(plan[j].schedule, t))
  {
    assert Bounded(plan[i]) && Bounded(plan[j]) && Apart(plan[i], plan[j]);
  }

  lemma {:induction false} ShownIsActive(plan: seq<Presentation>, t: int, p: Presentation)
    requires (forall x :: x in plan ==> x.schedule.Valid()) && p in plan && Active(p.schedule, t)
    requires forall x :: x in plan && Active(x.schedule, t) ==> x == p
    ensures ShownAt(plan, t) == ShownAt([p], t)
  {
    assert plan[0] in plan;
    if plan[0] != p {
      assert plan == [plan[0]] + plan[1..];
      ShownIsActive(plan[1..], t, p);
    }
  }

  lemma {:induction false} NothingShown(plan: seq<Presentation>, t: int)
    requires (forall x :: x in plan ==> x.schedule.Valid()) && forall x :: x in plan ==> !Active(x.schedule, t)
    ensures ShownAt(plan, t) == Nothing
  {
    if plan != [] {
      assert plan[0] in plan;
      NothingShown(plan[1..], t);
    }
  }

  /** What is shown does not depend on the order of the plan. */
  lemma OrderDoesNotMatter(plan: seq<Presentation>, other: seq<Presentation>, t: int)
    requires PlanOk(plan) && multiset(other) == multiset(plan)
    ensures forall x :: x in other ==> x.schedule.Valid()
    ensures ShownAt(other, t) == ShownAt(plan, t)
  {
    SameElements(other, plan);
    if p :| p in plan && Active(p.schedule, t) {
      var i :| 0 <= i < |plan| && plan[i] == p;
      forall x | x in plan && Active(x.schedule, t)
        ensures x == p
      {
        var j :| 0 <= j < |plan| && plan[j] == x;
        if i < j {
          OneActive(plan, i, j, t);
        } else if j < i {
          OneActive(plan, j, i, t);
        }
      }
      ShownIsActive(plan, t, p);
      ShownIsActive(other, t, p);
    } else {
      NothingShown(plan, t);
      NothingShown(other, t);
    }
  }

  // ------------------------------------------------------------------
  // Quests listed at every location.

  /** The profiles of the quest name only configured locations, and list all of them. */
  ghost predicate Common(c: Catalog, q: Quest, locations: seq<Location>) {
    && (forall id :: id in q.profiles && id in c.profiles ==> Named(c.profiles[id], locations))
    && Covers(c, q, locations)
  }

  ghost predicate AllCommon(c: Catalog, locations: seq<Location>) {
    forall id :: id in DEFINITIONS && id in c.quests && !c.quests[id].disabled ==> Common(c, c.quests[id], locations)
  }

  /** One quest: the set of locations its profiles list, compared by size with the configured ones. */
  method CheckQuest(c: Catalog, q: Quest, locations: seq<Location>, configured: map<Location, nat>, worlds: map<string, seq<int>>)
      returns (ok: bool)
    requires c.Valid() && c.QuestResolved(q) && Indexed(locations, configured, worlds) && Distinct(locations)
    ensures ok <==> Common(c, q, locations)
  {
    var covered: set<Location> := {};
    for i := 0 to |q.profiles|
      invariant forall k :: 0 <= k < i ==> Named(c.profiles[q.profiles[k]], locations)
      invariant forall l :: l in covered <==> l in locations && ListedFirst(c, q, i, l)
    {
      var p := c.profiles[q.profiles[i]];
      var more;
      ok, more := CoveredBy(p, locations, configured, worlds);
      if !ok {
        return false;
      }
      covered := covered + more;
    }
    CoveredSize(c, q, locations, covered);
    ok := |covered| == |locations|;
  }

  lemma CoveredSize(c: Catalog, q: Quest, locations: seq<Location>, covered: set<Location>)
    requires Distinct(locations) && forall l :: l in covered <==> l in locations && ListedFirst(c, q, |q.profiles|, l)
    ensures |covered| == |locations| <==> Covers(c, q, locations)
  {
    var all := set l | l in locations;
    SetOfSize(locations);
    assert covered <= all;
    if |covered| == |locations| {
      EqualSize(covered, all);
    } else {
      assert covered != all;
    }
    AllListed(c, q, locations);
    if forall j :: 0 <= j < |locations| ==> ListedFirst(c, q, |q.profiles|, locations[j]) {
      assert covered == all;
    }
  }

  lemma EqualSize<T>(a: set<T>, b: set<T>)
    requires a <= b && |a| == |b|
    ensures a == b
  {
    if x :| x in b && x !in a {
      SubsetSize(a, b - {x});
    }
  }

  /** The configured locations one profile lists; fails at one that is not configured. */
  method CoveredBy(p: Profile, locations: seq<Location>, configured: map<Location, nat>, worlds: map<string, seq<int>>)
      returns (ok: bool, covered: set<Location>)
    requires Indexed(locations, configured, worlds)
    ensures ok <==> Named(p, locations)
    ensures ok ==> forall l :: l in covered <==> l in locations && Matches(p, l.world, l.channel)
  {
    covered := {};
    for i := 0 to |p.worlds|
      invariant forall k :: 0 <= k < i ==> NamedAt(p.worlds[k], p.channels, locations)
      invariant forall l :: l in covered <==> l in locations && MatchesFirst(p, i, l)
    {
      var world := p.worlds[i];
      assert world in p.worlds;
      if world !in worlds {
        return false, {};
      }
      if exists n :: n in p.channels && Location(world, n) !in configured {
        return false, {};
      }
      var channels := if |p.channels| == 0 then worlds[world] else p.channels;
      ghost var before := covered;
      covered := covered + set n | n in channels :: Location(world, n);
      forall l
        ensures l in covered <==> l in locations && MatchesFirst(p, i + 1, l)
      {
        assert p.worlds[..i + 1] == p.worlds[..i] + [world];
        assert l == Location(l.world, l.channel);
        assert l in before <==> l in locations && MatchesFirst(p, i, l);
      }
    }
    assert p.worlds[..|p.worlds|] == p.worlds;
    ok := true;
  }

  /** The quests published at a place and an instant, in the order of the definitions. */
  ghost function QuestsAt(c: Catalog, l: Location, t: int, ids: seq<int>): seq<int>
    requires c.Valid()
  {
    if ids == [] then []
    else
      QuestsAt(c, l, t, ids[..|ids| - 1])
      + if Allows(c, ids[|ids| - 1], l.world, l.channel, t) == Verdict(true, true) then [ids[|ids| - 1]] else []
  }

  /** The list taken at one location is the one every location would give. */
  lemma {:induction false} SameAtEveryLocation(c: Catalog, locations: seq<Location>, a: Location, b: Location, t: int, ids: seq<int>)
    requires c.Valid() && AllCommon(c, locations) && a in locations && b in locations && LocationOk(a) && LocationOk(b)
    requires forall id :: id in ids ==> id in DEFINITIONS
    ensures QuestsAt(c, a, t, ids) == QuestsAt(c, b, t, ids)
  {
    if ids != [] {
      var init, id := ids[..|ids| - 1], ids[|ids| - 1];
      SameAtEveryLocation(c, locations, a, b, t, init);
      assert id in ids;
      if id in c.quests && !c.quests[id].disabled {
        assert Common(c, c.quests[id], locations);
        assert Listed(c, c.quests[id], a.world, a.channel) && Listed(c, c.quests[id], b.world, b.channel);
      }
    }
  }

  /** It is the quests of the list that are allowed there, in the list's order, by rising number. */
  lemma {:induction false} QuestsListed(c: Catalog, l: Location, t: int, ids: seq<int>, id: int)
    requires c.Valid() && Ascending(ids, Below)
    ensures id in QuestsAt(c, l, t, ids) <==> id in ids && Allows(c, id, l.world, l.channel, t) == Verdict(true, true)
    ensures forall i, j :: 0 <= i < j < |QuestsAt(c, l, t, ids)| ==> QuestsAt(c, l, t, ids)[i] < QuestsAt(c, l, t, ids)[j]
    ensures forall k :: k in QuestsAt(c, l, t, ids) ==> k in ids
    decreases |ids|
  {
    if ids != [] {
      var init, last := ids[..|ids| - 1], ids[|ids| - 1];
      assert ids == init + [last];
      QuestsListed(c, l, t, init, id);
      forall k | k in QuestsAt(c, l, t, init)
        ensures k < last
      {
        var i :| 0 <= i < |init| && init[i] == k;
        assert Below(ids[i], ids[|ids| - 1]);
      }
      var before := QuestsAt(c, l, t, init);
      assert forall i :: 0 <= i < |before| ==> before[i] in before;
    }
  }

  /** So are the definitions, and what a view shows of them. */
  lemma ViewListed(c: Catalog, l: Location, t: int, id: int)
    requires c.Valid()
    ensures id in QuestsAt(c, l, t, DEFINITIONS) <==>
            id in DEFINITIONS && Allows(c, id, l.world, l.channel, t) == Verdict(true, true)
    ensures Ascending(QuestsAt(c, l, t, DEFINITIONS), Below)
  {
    assert Ascending(DEFINITIONS, Below);
    QuestsListed(c, l, t, DEFINITIONS, id);
  }

  /** Whichever presentation of a plan is active is the one shown, with its tune; without one nothing is. */
  lemma ShownExactly(plan: seq<Presentation>, t: int)
    requires PlanOk(plan)
    ensures forall p :: p in plan && Active(p.schedule, t) && TuneId(p.event).Ok? ==>
                          ShownAt(plan, t) == Shown(p.event, TuneId(p.event).value)
    ensures ShownAt(plan, t) == Nothing <==> forall p :: p in plan ==> !Active(p.schedule, t)
  {
    forall p | p in plan && Active(p.schedule, t)
      ensures ShownAt(plan, t) == ShownAt([p], t) != Nothing
    {
      forall x | x in plan && Active(x.schedule, t)
        ensures x == p
      {
        var i :| 0 <= i < |plan| && plan[i] == p;
        var j :| 0 <= j < |plan| && plan[j] == x;
        if i < j {
          OneActive(plan, i, j, t);
        } else if j < i {
          OneActive(plan, j, i, t);
        }
      }
      ShownIsActive(plan, t, p);
    }
    if forall p :: p in plan ==> !Active(p.schedule, t) {
      NothingShown(plan, t);
    }
  }

  // ------------------------------------------------------------------
  // The cohort and its view.

  datatype CollabCohort = CollabCohort(catalog: Catalog, plan: seq<Presentation>, locations: seq<Location>)

  ghost predicate CapabilitiesOk(capabilities: seq<string>, plan: seq<Presentation>) {
    && Distinct(capabilities) && (forall s :: s in capabilities ==> TuneId(s).Ok?)
    && forall p :: p in plan ==> p.event in capabilities
  }

  method Configure(locations: seq<Location>) returns (ok: bool, configured: map<Location, nat>, worlds: map<string, seq<int>>)
    requires 1 <= |locations| <= 65535
    ensures ok <==> Configured(locations)
    ensures ok ==> Indexed(locations, configured, worlds)
  {
    configured, worlds := map[], map[];
    for i := 0 to |locations|
      invariant Indexed(locations[..i], configured, worlds) && Sound(locations[..i])
    {
      var l := locations[i];
      SoundNext(locations, i);
      if !ValidId(l.world) || l.channel < 1 || l.channel > 65535 || l in configured {
        return false, configured, worlds;
      }
      IndexStep(locations, i, configured, worlds);
      configured := configured[l := i];
      worlds := worlds[l.world := (if l.world in worlds then worlds[l.world] else []) + [l.channel]];
    }
    Whole(locations);
    ok := true;
  }

  /** The catalogue's own plan: its rules as they were compiled. */
  ghost predicate Compiled(c: Catalog, rules: seq<Rule>, plan: seq<Presentation>)
    requires c.Valid()
  {
    Compilable(c, rules) && plan == Sort(PlanOf(c, rules), Earlier)
  }

  /** A cohort exists exactly when every enabled quest is common to all locations and every event has a capability. */
  method BuildCollabCohort(c: Catalog, ghost rules: seq<Rule>, plan: seq<Presentation>, locations: seq<Location>,
                           capabilities: seq<string>) returns (r: Result<CollabCohort>)
    requires c.Valid() && Compiled(c, rules, plan)
    ensures r.Ok? <==> Configured(locations) && DefinitionsManaged(c) && AllCommon(c, locations) && CapabilitiesOk(capabilities, plan)
    ensures r.Ok? ==> r.value == CollabCohort(c, plan, locations)
  {
    if |locations| == 0 || |locations| > 65535 {
      return Invalid;
    }
    var ok, configured, worlds := Configure(locations);
    if !ok {
      return Invalid;
    }
    ok := CheckDefinitions(c, locations, configured, worlds);
    if !ok {
      return Invalid;
    }
    ok := CheckCapabilities(capabilities, plan);
    return if ok then Ok(CollabCohort(c, plan, locations)) else Invalid;
  }

  /** The first n quests of the list are managed, and common where they are enabled. */
  ghost predicate CheckedFirst(c: Catalog, locations: seq<Location>, ids: seq<int>, n: nat)
    requires n <= |ids|
  {
    forall k :: 0 <= k < n ==> ids[k] in c.quests && (!c.quests[ids[k]].disabled ==> Common(c, c.quests[ids[k]], locations))
  }

  lemma CheckedAll(c: Catalog, locations: seq<Location>, ids: seq<int>)
    ensures CheckedFirst(c, locations, ids, |ids|) <==>
            (forall id :: id in ids ==> id in c.quests)
            && forall id :: id in ids && id in c.quests && !c.quests[id].disabled ==> Common(c, c.quests[id], locations)
  {
    if CheckedFirst(c, locations, ids, |ids|) {
      forall id | id in ids
        ensures id in c.quests && (!c.quests[id].disabled ==> Common(c, c.quests[id], locations))
      {
        var k :| 0 <= k < |ids| && ids[k] == id;
      }
    }
    if (forall id :: id in ids ==> id in c.quests)
       && forall id :: id in ids && id in c.quests && !c.quests[id].disabled ==> Common(c, c.quests[id], locations) {
      forall k | 0 <= k < |ids|
        ensures ids[k] in c.quests && (!c.quests[ids[k]].disabled ==> Common(c, c.quests[ids[k]], locations))
      {
        assert ids[k] in ids;
      }
    }
  }

  method CheckDefinitions(c: Catalog, locations: seq<Location>, configured: map<Location, nat>, worlds: map<string, seq<int>>)
      returns (ok: bool)
    requires c.Valid() && Indexed(locations, configured, worlds) && Distinct(locations)
    ensures ok <==> DefinitionsManaged(c) && AllCommon(c, locations)
  {
    CheckedAll(c, locations, DEFINITIONS);
    for i := 0 to |DEFINITIONS|
      invariant CheckedFirst(c, locations, DEFINITIONS, i)
    {
      var id := DEFINITIONS[i];
      if id !in c.quests {
        return false;
      }
      if !c.quests[id].disabled {
        ok := CheckQuest(c, c.quests[id], locations, configured, worlds);
        if !ok {
          return false;
        }
      }
    }
    ok := true;
  }

  method CheckCapabilities(capabilities: seq<string>, plan: seq<Presentation>) returns (ok: bool)
    ensures ok <==> CapabilitiesOk(capabilities, plan)
  {
    var known: set<string> := {};
    for i := 0 to |capabilities|
      invariant known == (set s | s in capabilities[..i]) && Distinct(capabilities[..i])
      invariant forall k :: 0 <= k < i ==> TuneId(capabilities[k]).Ok?
    {
      assert capabilities[i] in capabilities;
      if !TuneId(capabilities[i]).Ok? || capabilities[i] in known {
        return false;
      }
      known := known + {capabilities[i]};
    }
    Whole(capabilities);
    for i := 0 to |plan|
      invariant forall k :: 0 <= k < i ==> plan[k].event in capabilities
    {
      if plan[i].event !in known {
        assert plan[i] in plan;
        return false;
      }
    }
    ok := true;
  }

  datatype View = View(questIds: seq<int>, shown: Shown)

  /** What a cohort shows at an instant: the quests at its first location, and the first active presentation. */
  method At(cohort: CollabCohort, t: int) returns (v: View)
    requires cohort.catalog.Valid() && cohort.locations != [] && forall p :: p in cohort.plan ==> p.schedule.Valid()
    ensures v.questIds == QuestsAt(cohort.catalog, cohort.locations[0], t, DEFINITIONS)
    ensures v.shown == ShownAt(cohort.plan, t)
  {
    var location := cohort.locations[0];
    var ids: seq<int> := [];
    for i := 0 to |DEFINITIONS|
      invariant ids == QuestsAt(cohort.catalog, location, t, DEFINITIONS[..i])
    {
      assert DEFINITIONS[..i + 1][..i] == DEFINITIONS[..i];
      var verdict := AllowsQuest(cohort.catalog, DEFINITIONS[i], location.world, location.channel, t);
      if verdict.managed && verdict.allowed {
        ids := ids + [DEFINITIONS[i]];
      }
    }
    Whole(DEFINITIONS);
    var shown := Nothing;
    ghost var all := ShownAt(cohort.plan, t);
    assert cohort.plan[0..] == cohort.plan;
    for i := 0 to |cohort.plan|
      invariant forall p :: p in cohort.plan[i..] ==> p.schedule.Valid()
      invariant shown == Nothing && all == ShownAt(cohort.plan[i..], t)
    {
      var p := cohort.plan[i];
      assert cohort.plan[i..][0] == p && cohort.plan[i..][1..] == cohort.plan[i + 1..];
      if Active(p.schedule, t) {
        var id := TuneId(p.event);
        shown := Shown(p.event, if id.Ok? then id.value else 0);
        break;
      }
    }
    v := View(ids, shown);
  }
}
