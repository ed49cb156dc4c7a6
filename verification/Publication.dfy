/**
 * The common-publication cohort: proof that every enabled quest is published at every configured
 * location, found with one bitset per profile; and the size budget of the public document.
 */
module Publication {
  import opened Bitsets
  import opened Catalogs
  import opened Manifests
  import opened Schedules
  import opened Sorting
  import opened Texts

  const MAX_DOCUMENT := 0x100_0000
  const BUDGET := MAX_DOCUMENT - 1024

  datatype Location = Location(world: string, channel: int)

  datatype InventoryItem = InventoryItem(questId: int, profiles: seq<string>)

  datatype Cohort = Cohort(locations: seq<Location>, inventory: seq<InventoryItem>, metadataCost: nat)

  // ------------------------------------------------------------------
  // Costs: a running total that gives up at the budget, against the exact sum.

  function Sum<T>(s: seq<T>, cost: T -> nat): nat {
    if s == [] then 0 else Sum(s[..|s| - 1], cost) + cost(s[|s| - 1])
  }

  lemma {:induction false} SumPrefix<T>(s: seq<T>, cost: T -> nat, n: nat)
    requires n <= |s|
    ensures Sum(s[..n], cost) <= Sum(s, cost)
  {
    if n == |s| {
      assert s[..n] == s;
    } else {
      assert s[..|s| - 1][..n] == s[..n];
      SumPrefix(s[..|s| - 1], cost, n);
    }
  }

  lemma SumNext<T>(s: seq<T>, cost: T -> nat, n: nat)
    requires n < |s|
    ensures Sum(s[..n + 1], cost) == Sum(s[..n], cost) + cost(s[n])
    ensures Sum(s[..n + 1], cost) <= Sum(s, cost)
  {
    assert s[..n + 1][..n] == s[..n];
    SumPrefix(s, cost, n + 1);
  }

  function NameCost(name: string): nat { 16 + 6 * Utf8Length(name) }

  function LocationCost(l: Location): nat { 64 + 6 * Utf8Length(l.world) }

  function ProfileCost(p: Profile): nat { 128 + 6 * Utf8Length(p.id) + 24 * |p.channels| + Sum(p.worlds, NameCost) }

  function QuestCost(q: InventoryItem): nat { 64 + Sum(q.profiles, NameCost) }

  function RequirementCost(r: string): nat { 16 + 6 * Utf8Length(r) }

  function RowCost(o: Occurrence): nat {
    512 + 6 * (Utf8Length(o.title) + Utf8Length(o.scheduleId))
    + Sum(o.requirements, RequirementCost) + Sum(o.profiles, ProfileCost)
  }

  /** Charges each name in turn; fails as soon as the total passes the budget. */
  method ChargeNames(names: seq<string>, cost: nat) returns (ok: bool, total: nat)
    requires cost <= BUDGET
    ensures ok <==> cost + Sum(names, NameCost) <= BUDGET
    ensures ok ==> total == cost + Sum(names, NameCost)
  {
    total := cost;
    for i := 0 to |names|
      invariant total == cost + Sum(names[..i], NameCost) <= BUDGET
    {
      SumNext(names, NameCost, i);
      total := total + (16 + 6 * Utf8Length(names[i]));
      if total > BUDGET {
        return false, total;
      }
    }
    assert names[..|names|] == names;
    ok := true;
  }

  method ChargeProfiles(profiles: seq<Profile>, cost: nat) returns (ok: bool, total: nat)
    requires cost <= BUDGET
    ensures ok <==> cost + Sum(profiles, ProfileCost) <= BUDGET
    ensures ok ==> total == cost + Sum(profiles, ProfileCost)
  {
    total := cost;
    for i := 0 to |profiles|
      invariant total == cost + Sum(profiles[..i], ProfileCost) <= BUDGET
    {
      SumNext(profiles, ProfileCost, i);
      var p := profiles[i];
      total := total + (128 + 6 * Utf8Length(p.id) + 24 * |p.channels|);
      if total > BUDGET {
        return false, total;
      }
      ok, total := ChargeNames(p.worlds, total);
      if !ok {
        return false, total;
      }
    }
    assert profiles[..|profiles|] == profiles;
    ok := true;
  }

  method ChargeQuests(quests: seq<InventoryItem>, cost: nat) returns (ok: bool, total: nat)
    requires cost <= BUDGET
    ensures ok <==> cost + Sum(quests, QuestCost) <= BUDGET
    ensures ok ==> total == cost + Sum(quests, QuestCost)
  {
    total := cost;
    for i := 0 to |quests|
      invariant total == cost + Sum(quests[..i], QuestCost) <= BUDGET
    {
      SumNext(quests, QuestCost, i);
      total := total + 64;
      if total > BUDGET {
        return false, total;
      }
      ok, total := ChargeNames(quests[i].profiles, total);
      if !ok {
        return false, total;
      }
    }
    assert quests[..|quests|] == quests;
    ok := true;
  }

  /** The public document's rows fit what the metadata leaves of the budget, or there is no document. */
  method PublicDocument(c: Catalog, from: int, until: int, fromZone: int, untilZone: int, metadataCost: int)
      returns (r: Result<seq<Occurrence>>)
    requires c.Valid()
    ensures r.Ok? <==> 0 <= metadataCost && CalendarTime(from, fromZone) && CalendarTime(until, untilZone) && Exportable(c, from, until)
                       && metadataCost + Sum(Calendar(c, from, until), RowCost) <= BUDGET
    ensures r.Ok? ==> r.value == Calendar(c, from, until)
  {
    if metadataCost < 0 || metadataCost > BUDGET {
      return TooMany;
    }
    r := Catalogs.Windows(c, from, until, fromZone, untilZone);
    if !r.Ok? {
      return;
    }
    var rows := r.value;
    var remaining := BUDGET - metadataCost;
    for i := 0 to |rows|
      invariant remaining == BUDGET - metadataCost - Sum(rows[..i], RowCost) && remaining >= 0
    {
      SumNext(rows, RowCost, i);
      var o := rows[i];
      var requirements := SumOf(o.requirements, RequirementCost);
      var profiles := SumOf(o.profiles, ProfileCost);
      remaining := remaining - (512 + 6 * (Utf8Length(o.title) + Utf8Length(o.scheduleId)) + requirements + profiles);
      if remaining < 0 {
        return TooMany;
      }
    }
    assert rows[..|rows|] == rows;
  }

  method SumOf<T>(s: seq<T>, cost: T -> nat) returns (total: nat)
    ensures total == Sum(s, cost)
  {
    total := 0;
    for i := 0 to |s|
      invariant total == Sum(s[..i], cost)
    {
      SumNext(s, cost, i);
      total := total + cost(s[i]);
    }
    assert s[..|s|] == s;
  }

  // ------------------------------------------------------------------
  // When a cohort exists.

  predicate LocationOk(l: Location) {
    ValidId(l.world) && 1 <= l.channel <= 65535
  }

  predicate Configured(configured: seq<Location>) {
    1 <= |configured| <= 65535 && (forall l :: l in configured ==> LocationOk(l)) && Distinct(configured)
  }

  ghost predicate WorldConfigured(configured: seq<Location>, world: string) {
    exists l :: l in configured && l.world == world
  }

  /** Every location the profile names is configured. */
  ghost predicate Named(p: Profile, configured: seq<Location>) {
    forall w :: w in p.worlds ==>
                  WorldConfigured(configured, w) && forall n :: n in p.channels ==> Location(w, n) in configured
  }

  /** Every configured location is listed by some profile of the quest. */
  ghost predicate Covers(c: Catalog, q: Quest, configured: seq<Location>) {
    forall l :: l in configured ==> Listed(c, q, l.world, l.channel)
  }

  function Inventory(c: Catalog, ids: seq<int>): seq<InventoryItem>
    requires forall id :: id in ids ==> id in c.quests
  {
    if ids == [] then []
    else
      var id := ids[|ids| - 1];
      Inventory(c, ids[..|ids| - 1])
      + if c.quests[id].disabled then [] else [InventoryItem(id, c.quests[id].profiles)]
  }

  function ProfilesOf(c: Catalog): seq<Profile>
    requires c.Valid()
  {
    seq(|c.profileIds|, i requires 0 <= i < |c.profileIds| => c.profiles[c.profileIds[i]])
  }

  function MetadataCost(c: Catalog, configured: seq<Location>): nat
    requires c.Valid()
  {
    512 + Sum(configured, LocationCost) + Sum(ProfilesOf(c), ProfileCost) + Sum(Inventory(c, c.questIds), QuestCost)
  }

  ghost predicate Usable(p: Profile, configured: seq<Location>) {
    ProfileOk(p) && Named(p, configured)
  }

  ghost predicate ProfilesUsable(c: Catalog, configured: seq<Location>) {
    forall id :: id in c.profiles ==> Usable(c.profiles[id], configured)
  }

  ghost predicate QuestsCovered(c: Catalog, configured: seq<Location>) {
    forall id :: id in c.quests && !c.quests[id].disabled ==> Covers(c, c.quests[id], configured)
  }

  predicate References(c: Catalog) {
    forall id :: id in c.quests && !c.quests[id].disabled ==> Distinct(c.quests[id].profiles)
  }

  ghost predicate Buildable(c: Catalog, configured: seq<Location>)
    requires c.Valid()
  {
    && Configured(configured) && MetadataCost(c, configured) <= BUDGET && References(c)
    && |c.profileIds| * Words(|configured|) * 8 <= MAX_DOCUMENT
    && ProfilesUsable(c, configured) && QuestsCovered(c, configured)
  }

  // ------------------------------------------------------------------
  // The shortcut before the product of worlds and channels is walked.

  /** The first n worlds, each with every channel. */
  function Products(worlds: seq<string>, channels: seq<int>): set<Location> {
    if worlds == [] then {}
    else Products(worlds[..|worlds| - 1], channels) + AtWorld(worlds[|worlds| - 1], channels)
  }

  function AtWorld(world: string, channels: seq<int>): set<Location> {
    if channels == [] then {}
    else AtWorld(world, channels[..|channels| - 1]) + {Location(world, channels[|channels| - 1])}
  }

  lemma {:induction false} AtWorldSize(world: string, channels: seq<int>)
    requires Distinct(channels)
    ensures |AtWorld(world, channels)| == |channels|
    ensures forall l :: l in AtWorld(world, channels) <==> l.world == world && l.channel in channels
  {
    if channels != [] {
      var init, n := channels[..|channels| - 1], channels[|channels| - 1];
      assert channels == init + [n];
      AtWorldSize(world, init);
    }
  }

  lemma {:induction false} ProductsAre(worlds: seq<string>, channels: seq<int>, l: Location)
    requires Distinct(channels)
    ensures l in Products(worlds, channels) <==> l.world in worlds && l.channel in channels
  {
    if worlds != [] {
      var init, w := worlds[..|worlds| - 1], worlds[|worlds| - 1];
      assert worlds == init + [w];
      ProductsAre(init, channels, l);
      AtWorldSize(w, channels);
    }
  }

  lemma {:induction false} ProductsSize(worlds: seq<string>, channels: seq<int>)
    requires Distinct(worlds) && Distinct(channels)
    ensures |Products(worlds, channels)| == |worlds| * |channels|
  {
    if worlds != [] {
      var init, w := worlds[..|worlds| - 1], worlds[|worlds| - 1];
      assert worlds == init + [w] && w !in init;
      ProductsSize(init, channels);
      AtWorldSize(w, channels);
      forall l | l in AtWorld(w, channels)
        ensures l !in Products(init, channels)
      {
        ProductsAre(init, channels, l);
      }
      assert Products(init, channels) !! AtWorld(w, channels);
      OneMore(|init|, |channels|);
    }
  }

  lemma OneMore(a: nat, b: nat)
    ensures (a + 1) * b == a * b + b
  {
  }

  /** A profile that names more worlds than fit names a location that is not configured. */
  lemma ShortcutSound(p: Profile, configured: seq<Location>)
    requires ProfileOk(p) && Distinct(configured) && Named(p, configured) && p.channels != []
    ensures |p.worlds| <= |configured| / |p.channels|
  {
    ProductsSize(p.worlds, p.channels);
    SetOfSize(configured);
    forall l | l in Products(p.worlds, p.channels)
      ensures l in configured
    {
      ProductsAre(p.worlds, p.channels, l);
      assert l == Location(l.world, l.channel);
    }
    SubsetSize(Products(p.worlds, p.channels), set l | l in configured);
    DivideFirst(|p.worlds|, |p.channels|, |configured|);
  }

  // ------------------------------------------------------------------
  // Building the cohort.

  /** Where each location stands, and the channels of each world. */
  ghost predicate Indexed(configured: seq<Location>, locations: map<Location, nat>, worlds: map<string, seq<int>>) {
    && (forall l :: l in locations <==> l in configured)
    && (forall l :: l in locations ==> locations[l] < |configured| && configured[locations[l]] == l)
    && (forall w :: w in worlds <==> WorldConfigured(configured, w))
    && (forall w, n :: w in worlds && n in worlds[w] <==> Location(w, n) in configured)
  }

  lemma IndexNext(configured: seq<Location>, locations: map<Location, nat>, worlds: map<string, seq<int>>, l: Location)
    requires Indexed(configured, locations, worlds) && l !in configured
    ensures var known := if l.world in worlds then worlds[l.world] else [];
            Indexed(configured + [l], locations[l := |configured|], worlds[l.world := known + [l.channel]])
  {
    var known := if l.world in worlds then worlds[l.world] else [];
    var worlds' := worlds[l.world := known + [l.channel]];
    forall w
      ensures w in worlds' <==> WorldConfigured(configured + [l], w)
    {
      if WorldConfigured(configured, w) {
        var k :| k in configured && k.world == w;
        assert k in configured + [l];
      }
      assert l in configured + [l];
    }
    forall w, n
      ensures w in worlds' && n in worlds'[w] <==> Location(w, n) in configured + [l]
    {
      assert Location(w, n) in configured ==> WorldConfigured(configured, w);
    }
  }

  lemma IndexStep(configured: seq<Location>, n: nat, locations: map<Location, nat>, worlds: map<string, seq<int>>)
    requires n < |configured| && Indexed(configured[..n], locations, worlds) && configured[n] !in configured[..n]
    ensures var l := configured[n];
            var known := if l.world in worlds then worlds[l.world] else [];
            Indexed(configured[..n + 1], locations[l := n], worlds[l.world := known + [l.channel]])
  {
    assert configured[..n + 1] == configured[..n] + [configured[n]];
    IndexNext(configured[..n], locations, worlds, configured[n]);
  }

  predicate Sound(ls: seq<Location>) {
    (forall l :: l in ls ==> LocationOk(l)) && Distinct(ls)
  }

  lemma SoundNext(ls: seq<Location>, n: nat)
    requires n < |ls|
    ensures Sound(ls[..n + 1]) <==> Sound(ls[..n]) && LocationOk(ls[n]) && ls[n] !in ls[..n]
    ensures Sound(ls) ==> Sound(ls[..n + 1])
  {
    var before, after := ls[..n], ls[..n + 1];
    assert after == before + [ls[n]];
    assert forall i :: 0 <= i < n ==> after[i] == before[i];
  }

  lemma IndexSize(configured: seq<Location>, locations: map<Location, nat>)
    requires Distinct(configured) && forall l :: l in locations <==> l in configured
    ensures |locations| == |configured|
  {
    SetOfSize(configured);
    assert locations.Keys == set l | l in configured;
  }

  lemma Whole<T>(s: seq<T>)
    ensures s[..|s|] == s
  {
  }

  method Index(configured: seq<Location>)
      returns (ok: bool, total: nat, locations: map<Location, nat>, worlds: map<string, seq<int>>)
    requires 1 <= |configured| <= 65535
    ensures ok <==> Configured(configured) && 512 + Sum(configured, LocationCost) <= BUDGET
    ensures ok ==> Indexed(configured, locations, worlds) && total == 512 + Sum(configured, LocationCost)
  {
    total, locations, worlds := 512, map[], map[];
    for i := 0 to |configured|
      invariant Indexed(configured[..i], locations, worlds) && Sound(configured[..i])
      invariant total == 512 + Sum(configured[..i], LocationCost) <= BUDGET
    {
      var l := configured[i];
      SumNext(configured, LocationCost, i);
      SoundNext(configured, i);
      if !ValidId(l.world) || l.channel < 1 || l.channel > 65535 {
        return false, total, locations, worlds;
      }
      if l in locations {
        return false, total, locations, worlds;
      }
      total := total + (64 + 6 * Utf8Length(l.world));
      if total > BUDGET {
        return false, total, locations, worlds;
      }
      IndexStep(configured, i, locations, worlds);
      locations := locations[l := i];
      worlds := worlds[l.world := (if l.world in worlds then worlds[l.world] else []) + [l.channel]];
    }
    Whole(configured);
    ok := true;
  }

  /** The location has one of the first count worlds, and a channel of the profile. */
  predicate MatchesFirst(p: Profile, count: nat, l: Location)
    requires count <= |p.worlds|
  {
    l.world in p.worlds[..count] && (p.channels == [] || l.channel in p.channels)
  }

  /** Sets the bit of each channel of one world; fails at a location that is not configured. */
  method MarkChannels(mask: array<nat>, configured: seq<Location>, locations: map<Location, nat>, ghost worlds: map<string, seq<int>>,
                      world: string, channels: seq<int>) returns (ok: bool)
    requires Indexed(configured, locations, worlds) && Fits(mask[..], |configured|) && Distinct(configured)
    modifies mask
    ensures ok <==> forall n :: n in channels ==> Location(world, n) in configured
    ensures Fits(mask[..], |configured|)
    ensures ok ==> forall j :: 0 <= j < |configured| ==>
                     (Has(mask[..], j) <==> old(Has(mask[..], j)) || (configured[j].world == world && configured[j].channel in channels))
  {
    for i := 0 to |channels|
      invariant Fits(mask[..], |configured|)
      invariant forall n :: n in channels[..i] ==> Location(world, n) in configured
      invariant forall j :: 0 <= j < |configured| ==>
                  (Has(mask[..], j) <==> old(Has(mask[..], j)) || (configured[j].world == world && configured[j].channel in channels[..i]))
    {
      var l := Location(world, channels[i]);
      if l !in locations {
        return false;
      }
      var k := locations[l];
      SetBit(mask, |configured|, k);
      OnlyPlace(configured, k, world, channels[i]);
      PrefixNext(channels, i);
    }
    assert channels[..|channels|] == channels;
    ok := true;
  }

  lemma PrefixNext<T>(s: seq<T>, i: nat)
    requires i < |s|
    ensures forall x :: x in s[..i + 1] <==> x in s[..i] || x == s[i]
  {
    assert s[..i + 1] == s[..i] + [s[i]];
  }

  lemma OnlyPlace(configured: seq<Location>, k: nat, world: string, channel: int)
    requires k < |configured| && configured[k] == Location(world, channel) && Distinct(configured)
    ensures forall j :: 0 <= j < |configured| ==> (configured[j].world == world && configured[j].channel == channel <==> j == k)
  {
    forall j | 0 <= j < |configured|
      ensures configured[j].world == world && configured[j].channel == channel <==> j == k
    {
      if configured[j].world == world && configured[j].channel == channel {
        assert configured[j] == configured[k];
      }
    }
  }

  ghost predicate NamedAt(world: string, channels: seq<int>, configured: seq<Location>) {
    WorldConfigured(configured, world) && forall n :: n in channels ==> Location(world, n) in configured
  }

  ghost predicate NamedFirst(p: Profile, count: nat, configured: seq<Location>)
    requires count <= |p.worlds|
  {
    forall w :: w in p.worlds[..count] ==> NamedAt(w, p.channels, configured)
  }

  lemma NamedNext(p: Profile, n: nat, configured: seq<Location>)
    requires n < |p.worlds|
    ensures NamedFirst(p, n + 1, configured) <==> NamedFirst(p, n, configured) && NamedAt(p.worlds[n], p.channels, configured)
    ensures Named(p, configured) ==> NamedFirst(p, n + 1, configured)
  {
    assert p.worlds[..n + 1] == p.worlds[..n] + [p.worlds[n]];
  }

  /** Every bit says whether its location matches one of the first count worlds. */
  ghost predicate Marked(bits: seq<nat>, p: Profile, count: nat, configured: seq<Location>)
    requires count <= |p.worlds| && Fits(bits, |configured|)
  {
    forall j :: 0 <= j < |configured| ==> (Has(bits, j) <==> MatchesFirst(p, count, configured[j]))
  }

  lemma MarkedNext(before: seq<nat>, after: seq<nat>, p: Profile, n: nat, configured: seq<Location>, channels: seq<int>)
    requires n < |p.worlds| && Fits(before, |configured|) && Fits(after, |configured|) && Marked(before, p, n, configured)
    requires p.channels != [] ==> channels == p.channels
    requires p.channels == [] ==> forall k :: Location(p.worlds[n], k) in configured ==> k in channels
    requires forall j :: 0 <= j < |configured| ==>
                           (Has(after, j) <==> Has(before, j) || (configured[j].world == p.worlds[n] && configured[j].channel in channels))
    ensures Marked(after, p, n + 1, configured)
  {
    assert p.worlds[..n + 1] == p.worlds[..n] + [p.worlds[n]];
    forall j | 0 <= j < |configured|
      ensures Has(after, j) <==> MatchesFirst(p, n + 1, configured[j])
    {
      assert configured[j] == Location(configured[j].world, configured[j].channel) && configured[j] in configured;
    }
  }

  /** The profile's bitset of configured locations; fails exactly when it names one that is not configured. */
  method BuildMask(p: Profile, configured: seq<Location>, locations: map<Location, nat>, worlds: map<string, seq<int>>)
      returns (ok: bool, bits: seq<nat>)
    requires Indexed(configured, locations, worlds) && Distinct(configured) && ProfileOk(p)
    ensures ok <==> Named(p, configured)
    ensures ok ==> Fits(bits, |configured|) && Marked(bits, p, |p.worlds|, configured)
  {
    if |p.channels| != 0 && |p.worlds| > |configured| / |p.channels| {
      if Named(p, configured) {
        ShortcutSound(p, configured);
      }
      return false, [];
    }
    var mask := new nat[Words(|configured|)];
    Clear(mask, |configured|);
    for i := 0 to |p.worlds|
      invariant Fits(mask[..], |configured|) && NamedFirst(p, i, configured) && Marked(mask[..], p, i, configured)
    {
      var world := p.worlds[i];
      NamedNext(p, i, configured);
      if world !in worlds {
        return false, [];
      }
      var channels := if |p.channels| != 0 then p.channels else worlds[world];
      ghost var before := mask[..];
      ok := MarkChannels(mask, configured, locations, worlds, world, channels);
      if !ok {
        return false, [];
      }
      MarkedNext(before, mask[..], p, i, configured, channels);
    }
    assert p.worlds[..|p.worlds|] == p.worlds;
    ok, bits := true, mask[..];
  }

  /** A finished bitset is the profile's matching, location by location. */
  lemma MarkedMatches(bits: seq<nat>, p: Profile, configured: seq<Location>, j: nat)
    requires Fits(bits, |configured|) && Marked(bits, p, |p.worlds|, configured) && j < |configured|
    ensures Has(bits, j) <==> Matches(p, configured[j].world, configured[j].channel)
  {
    assert p.worlds[..|p.worlds|] == p.worlds;
  }

  /** A profile's bits are its matching, and full says whether it matches everywhere. */
  ghost predicate MaskRight(p: Profile, bits: seq<nat>, full: bool, configured: seq<Location>) {
    && Fits(bits, |configured|)
    && (forall j :: 0 <= j < |configured| ==> (Has(bits, j) <==> Matches(p, configured[j].world, configured[j].channel)))
    && (full <==> forall j :: 0 <= j < |configured| ==> Has(bits, j))
  }

  ghost predicate MasksRight(c: Catalog, ids: seq<string>, bits: map<string, seq<nat>>, full: map<string, bool>,
                             configured: seq<Location>)
    requires forall id :: id in ids ==> id in c.profiles
  {
    forall id :: id in ids ==> id in bits && id in full && MaskRight(c.profiles[id], bits[id], full[id], configured)
  }

  method MaskOf(p: Profile, configured: seq<Location>, locations: map<Location, nat>, worlds: map<string, seq<int>>)
      returns (ok: bool, mask: seq<nat>, all: bool)
    requires Indexed(configured, locations, worlds) && Distinct(configured)
    ensures ok <==> Usable(p, configured)
    ensures ok ==> MaskRight(p, mask, all, configured)
  {
    mask, all := [], false;
    ok := ValidateProfile(p);
    if !ok {
      return;
    }
    ok, mask := BuildMask(p, configured, locations, worlds);
    if !ok {
      return;
    }
    all := CountsAll(mask, |configured|);
    forall j | 0 <= j < |configured|
      ensures Has(mask, j) <==> Matches(p, configured[j].world, configured[j].channel)
    {
      MarkedMatches(mask, p, configured, j);
    }
  }

  ghost predicate AllUsable(c: Catalog, ids: seq<string>, configured: seq<Location>) {
    forall id :: id in ids ==> id in c.profiles && Usable(c.profiles[id], configured)
  }

  lemma MasksNext(c: Catalog, ids: seq<string>, bits: map<string, seq<nat>>, full: map<string, bool>,
                  configured: seq<Location>, id: string, mask: seq<nat>, all: bool)
    requires (forall k :: k in ids ==> k in c.profiles) && id in c.profiles
    requires MasksRight(c, ids, bits, full, configured) && MaskRight(c.profiles[id], mask, all, configured)
    ensures MasksRight(c, ids + [id], bits[id := mask], full[id := all], configured)
  {
  }

  method NextMask(c: Catalog, configured: seq<Location>, locations: map<Location, nat>, worlds: map<string, seq<int>>,
                  bits: map<string, seq<nat>>, full: map<string, bool>, ghost ids: seq<string>, id: string)
      returns (ok: bool, bits': map<string, seq<nat>>, full': map<string, bool>)
    requires Indexed(configured, locations, worlds) && Distinct(configured) && id in c.profiles
    requires AllUsable(c, ids, configured) && MasksRight(c, ids, bits, full, configured)
    ensures ok <==> Usable(c.profiles[id], configured)
    ensures ok ==> AllUsable(c, ids + [id], configured) && MasksRight(c, ids + [id], bits', full', configured)
  {
    var mask, all;
    ok, mask, all := MaskOf(c.profiles[id], configured, locations, worlds);
    bits', full' := bits[id := mask], full[id := all];
    if ok {
      MasksNext(c, ids, bits, full, configured, id, mask, all);
    }
  }

  method BuildMasks(c: Catalog, configured: seq<Location>, locations: map<Location, nat>, worlds: map<string, seq<int>>)
      returns (ok: bool, bits: map<string, seq<nat>>, full: map<string, bool>)
    requires (forall id :: id in c.profileIds <==> id in c.profiles) && Indexed(configured, locations, worlds) && Distinct(configured)
    ensures ok <==> ProfilesUsable(c, configured)
    ensures ok ==> MasksRight(c, c.profileIds, bits, full, configured)
  {
    bits, full := map[], map[];
    for i := 0 to |c.profileIds|
      invariant AllUsable(c, c.profileIds[..i], configured) && MasksRight(c, c.profileIds[..i], bits, full, configured)
    {
      var id := c.profileIds[i];
      assert id in c.profileIds && c.profileIds[..i + 1] == c.profileIds[..i] + [id];
      ok, bits, full := NextMask(c, configured, locations, worlds, bits, full, c.profileIds[..i], id);
      if !ok {
        return false, bits, full;
      }
    }
    Whole(c.profileIds);
    ok := true;
  }

  /** Some of the quest's first count profiles lists the location. */
  ghost predicate ListedFirst(c: Catalog, q: Quest, count: nat, l: Location)
    requires count <= |q.profiles|
  {
    exists i :: 0 <= i < count && q.profiles[i] in c.profiles && Matches(c.profiles[q.profiles[i]], l.world, l.channel)
  }

  /** The scratch bits are the locations listed so far. */
  ghost predicate United(bits: seq<nat>, c: Catalog, q: Quest, count: nat, configured: seq<Location>)
    requires count <= |q.profiles|
  {
    && Fits(bits, |configured|)
    && forall j :: 0 <= j < |configured| ==> (Has(bits, j) <==> ListedFirst(c, q, count, configured[j]))
  }

  lemma AllListed(c: Catalog, q: Quest, configured: seq<Location>)
    ensures Covers(c, q, configured) <==>
            forall j :: 0 <= j < |configured| ==> ListedFirst(c, q, |q.profiles|, configured[j])
  {
    forall l: Location
      ensures ListedFirst(c, q, |q.profiles|, l) <==> Listed(c, q, l.world, l.channel)
    {
      if Listed(c, q, l.world, l.channel) {
        var id :| id in q.profiles && id in c.profiles && Matches(c.profiles[id], l.world, l.channel);
        var i :| 0 <= i < |q.profiles| && q.profiles[i] == id;
      }
    }
    assert forall j :: 0 <= j < |configured| ==> configured[j] in configured;
  }

  lemma FullCovers(c: Catalog, q: Quest, i: nat, configured: seq<Location>)
    requires i < |q.profiles| && q.profiles[i] in c.profiles
    requires forall j :: 0 <= j < |configured| ==> Matches(c.profiles[q.profiles[i]], configured[j].world, configured[j].channel)
    ensures Covers(c, q, configured)
  {
    forall j | 0 <= j < |configured|
      ensures ListedFirst(c, q, |q.profiles|, configured[j])
    {
    }
    AllListed(c, q, configured);
  }

  lemma UnitedNext(before: seq<nat>, after: seq<nat>, mask: seq<nat>, full: bool, c: Catalog, q: Quest, i: nat,
                   configured: seq<Location>)
    requires i < |q.profiles| && q.profiles[i] in c.profiles && United(before, c, q, i, configured)
    requires MaskRight(c.profiles[q.profiles[i]], mask, full, configured) && Fits(after, |configured|)
    requires forall j :: 0 <= j < |configured| ==> (Has(after, j) <==> Has(mask, j) || Has(before, j))
    ensures United(after, c, q, i + 1, configured)
  {
    forall j | 0 <= j < |configured|
      ensures Has(after, j) <==> ListedFirst(c, q, i + 1, configured[j])
    {
      assert Has(mask, j) <==> Matches(c.profiles[q.profiles[i]], configured[j].world, configured[j].channel);
    }
  }

  /** Word by word or of the profiles' bitsets in a reused scratch array; one full profile is enough. */
  method CoversAll(c: Catalog, q: Quest, configured: seq<Location>, bits: map<string, seq<nat>>, full: map<string, bool>,
                   scratch: array<nat>) returns (ok: bool)
    requires c.Valid() && c.QuestResolved(q) && MasksRight(c, c.profileIds, bits, full, configured)
    requires scratch.Length == Words(|configured|)
    modifies scratch
    ensures ok <==> Covers(c, q, configured)
  {
    Clear(scratch, |configured|);
    for i := 0 to |q.profiles|
      invariant United(scratch[..], c, q, i, configured)
    {
      var id := q.profiles[i];
      assert MaskRight(c.profiles[id], bits[id], full[id], configured);
      if full[id] {
        FullCovers(c, q, i, configured);
        return true;
      }
      ghost var before := scratch[..];
      Unite(scratch, bits[id], |configured|);
      UnitedNext(before, scratch[..], bits[id], full[id], c, q, i, configured);
    }
    ok := CountsAll(scratch[..], |configured|);
    AllListed(c, q, configured);
  }

  method CoverQuests(c: Catalog, configured: seq<Location>, bits: map<string, seq<nat>>, full: map<string, bool>,
                     wordCount: nat) returns (ok: bool)
    requires c.Valid() && MasksRight(c, c.profileIds, bits, full, configured) && wordCount == Words(|configured|)
    ensures ok <==> QuestsCovered(c, configured)
  {
    var scratch := new nat[wordCount];
    for n := 0 to |c.questIds|
      invariant forall id :: id in c.questIds[..n] && id in c.quests && !c.quests[id].disabled ==>
                               Covers(c, c.quests[id], configured)
    {
      var id := c.questIds[n];
      assert id in c.questIds && c.questIds[..n + 1] == c.questIds[..n] + [id];
      var q := c.quests[id];
      if !q.disabled {
        ok := CoversAll(c, q, configured, bits, full, scratch);
        if !ok {
          return false;
        }
      }
    }
    Whole(c.questIds);
    ok := true;
  }

  lemma InventoryHolds(c: Catalog, ids: seq<int>, n: nat)
    requires (forall id :: id in ids ==> id in c.quests) && n < |ids|
    ensures Inventory(c, ids[..n + 1]) ==
            Inventory(c, ids[..n]) + if c.quests[ids[n]].disabled then [] else [InventoryItem(ids[n], c.quests[ids[n]].profiles)]
  {
    assert ids[..n + 1][..n] == ids[..n];
  }

  method ListInventory(c: Catalog) returns (ok: bool, inventory: seq<InventoryItem>)
    requires c.Valid()
    ensures ok <==> References(c)
    ensures ok ==> inventory == Inventory(c, c.questIds)
  {
    inventory := [];
    for n := 0 to |c.questIds|
      invariant inventory == Inventory(c, c.questIds[..n])
      invariant forall i :: 0 <= i < n && !c.quests[c.questIds[i]].disabled ==> Distinct(c.quests[c.questIds[i]].profiles)
    {
      var id := c.questIds[n];
      var q := c.quests[id];
      InventoryHolds(c, c.questIds, n);
      if !q.disabled {
        ok := NoRepeats(q.profiles);
        if !ok {
          return false, inventory;
        }
        inventory := inventory + [InventoryItem(id, q.profiles)];
      }
    }
    Whole(c.questIds);
    ok := true;
  }

  predicate LocationBelow(a: Location, b: Location) {
    if a.world == b.world then a.channel < b.channel else TextBelow(a.world, b.world)
  }

  /**
   * A cohort exists exactly when the configured locations are well formed, the metadata fits its budget, every
   * profile names only configured locations, and every enabled quest is listed at every one of them.
   */
  method BuildCohort(c: Catalog, configured: seq<Location>) returns (r: Result<Cohort>)
    requires c.Valid()
    ensures r.Ok? <==> Buildable(c, configured)
    ensures r.Ok? ==> r.value.metadataCost == MetadataCost(c, configured) && r.value.inventory == Inventory(c, c.questIds)
    ensures r.Ok? ==> r.value.locations == Sort(configured, LocationBelow)
  {
    if |configured| == 0 || |configured| > 65535 {
      return Invalid;
    }
    var ok, cost, locations, worlds := Index(configured);
    if !ok {
      return Invalid;
    }
    ok, cost := ChargeProfiles(ProfilesOf(c), cost);
    if !ok {
      return TooMany;
    }
    var inventory;
    ok, inventory := ListInventory(c);
    if !ok {
      return Invalid;
    }
    ok, cost := ChargeQuests(inventory, cost);
    if !ok {
      return TooMany;
    }
    IndexSize(configured, locations);
    var wordCount := (|locations| + 63) / WORD;
    if |c.profileIds| * wordCount * 8 > MAX_DOCUMENT {
      return TooMany;
    }
    var bits, full;
    ok, bits, full := BuildMasks(c, configured, locations, worlds);
    if !ok {
      return Invalid;
    }
    ok := CoverQuests(c, configured, bits, full, wordCount);
    if !ok {
      return Invalid;
    }
    return Ok(Cohort(Sort(configured, LocationBelow), inventory, cost));
  }

  /** The inventory lists the enabled quests with their profiles. */
  lemma {:induction false} InventoryLists(c: Catalog, ids: seq<int>, q: InventoryItem)
    requires forall id :: id in ids ==> id in c.quests
    ensures q in Inventory(c, ids) <==>
            q.questId in ids && !c.quests[q.questId].disabled && q.profiles == c.quests[q.questId].profiles
    decreases |ids|
  {
    if ids != [] {
      var init, last := ids[..|ids| - 1], ids[|ids| - 1];
      assert ids == init + [last];
      InventoryLists(c, init, q);
    }
  }

  /** By rising number. */
  lemma {:induction false} InventoryRises(c: Catalog, ids: seq<int>)
    requires (forall id :: id in ids ==> id in c.quests) && Ascending(ids, Below)
    ensures forall i, j :: 0 <= i < j < |Inventory(c, ids)| ==> Inventory(c, ids)[i].questId < Inventory(c, ids)[j].questId
    decreases |ids|
  {
    if ids != [] {
      var init, last := ids[..|ids| - 1], ids[|ids| - 1];
      InventoryRises(c, init);
      var before := Inventory(c, init);
      forall i | 0 <= i < |before|
        ensures before[i].questId < last
      {
        InventoryLists(c, init, before[i]);
        var k :| 0 <= k < |init| && init[k] == before[i].questId;
        assert Below(ids[k], ids[|ids| - 1]);
      }
    }
  }

  /** The locations of a cohort stand by world, and by channel within a world. */
  lemma LocationsSorted(configured: seq<Location>, i: nat, j: nat)
    requires Distinct(configured) && i < j < |Sort(configured, LocationBelow)|
    ensures var a, b := Sort(configured, LocationBelow)[i], Sort(configured, LocationBelow)[j];
            if a.world == b.world then a.channel < b.channel else TextBelow(a.world, b.world)
  {
    forall a: Location, b: Location | a != b
      ensures LocationBelow(a, b) <==> !LocationBelow(b, a)
    {
      if a.world != b.world {
        TextConnected(a.world, b.world);
      }
    }
    forall a: Location, b: Location, d: Location | LocationBelow(a, b) && LocationBelow(b, d)
      ensures LocationBelow(a, d)
    {
      if a.world != b.world && b.world != d.world {
        TextTransitive(a.world, b.world, d.world);
        TextIrreflexive(a.world);
        if a.world == d.world {
          TextConnected(a.world, b.world);
        }
      }
    }
    SortOrders(configured, LocationBelow);
  }

  /** The cohort permits exactly the configured locations. */
  method PermitsLocation(cohort: Cohort, configured: seq<Location>, world: string, channel: int) returns (r: bool)
    requires cohort.locations == Sort(configured, LocationBelow)
    ensures r <==> Location(world, channel) in configured
  {
    SortKeeps(configured, LocationBelow);
    SameElements(cohort.locations, configured);
    for i := 0 to |cohort.locations|
      invariant Location(world, channel) !in cohort.locations[..i]
    {
      var location := cohort.locations[i];
      if location.world == world && location.channel == channel {
        assert location in cohort.locations;
        return true;
      }
    }
    Whole(cohort.locations);
    return false;
  }

  /** In a cohort the answer for an enabled quest is the same at every permitted location: the schedule's. */
  lemma CohortFollowsSchedule(c: Catalog, configured: seq<Location>, id: int, l: Location, t: int)
    requires c.Valid() && Buildable(c, configured) && l in configured
    requires id in c.quests && !c.quests[id].disabled
    ensures Allows(c, id, l.world, l.channel, t) == Verdict(true, Active(c.schedules[c.quests[id].schedule], t))
  {
    assert LocationOk(l);
    assert Covers(c, c.quests[id], configured);
  }

  /** A quest that is always published is allowed at every configured location only if it is covered there. */
  lemma CoverageNeeded(c: Catalog, configured: seq<Location>, id: int)
    requires c.Valid() && Configured(configured)
    requires id in c.quests && !c.quests[id].disabled
    ensures Covers(c, c.quests[id], configured) <==>
            forall l, t :: l in configured ==>
                             Allows(c, id, l.world, l.channel, t) == Verdict(true, Active(c.schedules[c.quests[id].schedule], t))
  {
    var q := c.quests[id];
    if forall l, t :: l in configured ==> Allows(c, id, l.world, l.channel, t) == Verdict(true, Active(c.schedules[q.schedule], t)) {
      var t := SomeActive(c.schedules[q.schedule]);
      forall l | l in configured
        ensures Listed(c, q, l.world, l.channel)
      {
        assert Allows(c, id, l.world, l.channel, t) == Verdict(true, Active(c.schedules[q.schedule], t));
      }
    }
    forall l, t | l in configured && Covers(c, q, configured)
      ensures Allows(c, id, l.world, l.channel, t) == Verdict(true, Active(c.schedules[q.schedule], t))
    {
      assert LocationOk(l);
    }
  }

  /** Every schedule is active at some instant: its anchor. */
  lemma SomeActive(s: Schedule) returns (t: int)
    requires s.Valid()
    ensures Active(s, t)
  {
    t := s.start;
    ElapsedIsFloor(s.start, t);
  }
}
