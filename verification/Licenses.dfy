/**
 * Permanent quest rights: a document of licenses, starters and products becomes one canonical catalogue,
 * and the order in which the document lists things does not matter.
 */
module Licenses {
  import ByteFrame
  import opened Sorting
  import opened Texts

  const MAX_DEFINITIONS := 512
  const MAX_KEYS := 64
  const MAX_MAPPINGS := 32768
  const MAX_CAMPAIGN := 0x7fff_ffff

  /** The zero time: midnight of the first day of the year 1. */
  const ZERO_TIME := -62135596800_000000000

  type Maybe<T> = ByteFrame.Maybe<T>

  datatype License = License(key: string, questIds: seq<int>)

  datatype Starter = Starter(key: string, licenseKeys: seq<string>, itemId: nat, quantity: nat, legacy: seq<int>)

  datatype Product = Product(campaignId: int, enabled: bool, price: Maybe<int>, startsAt: Maybe<int>, endsAt: Maybe<int>,
                             licenseKeys: seq<string>, starterKeys: seq<string>)

  datatype Document = Document(version: string, licenses: seq<License>, starters: seq<Starter>, products: seq<Product>)

  datatype Offer = Offer(campaignId: int, enabled: bool, price: int, startsAt: int, endsAt: int,
                         licenseKeys: seq<string>, starterKeys: seq<string>)

  /** What an offer's digest is computed from. */
  datatype Snapshot = Snapshot(version: string, offer: Offer, licenses: seq<License>, starters: seq<Starter>)

  datatype Rights = Rights(version: string, definitions: seq<License>, questKeys: map<int, seq<string>>,
                           starters: map<string, Starter>, starterKeys: seq<string>, offers: map<int, Offer>,
                           snapshots: map<int, Snapshot>, offerQuestIds: map<int, seq<int>>)

  datatype Answer = Refused | Accepted(rights: Rights)

  // ------------------------------------------------------------------
  // Which documents are accepted.

  predicate Lower(c: char) { 'a' <= c <= 'z' }

  predicate Digit(c: char) { '0' <= c <= '9' }

  predicate KeyOk(s: string) {
    1 <= |s| <= 64 && Lower(s[0]) && forall c :: c in s[1..] ==> Lower(c) || Digit(c) || c in "_-"
  }

  predicate VersionOk(s: string) {
    1 <= |s| <= 128 && forall c :: c in s ==> Lower(c) || 'A' <= c <= 'Z' || Digit(c) || c in "._-"
  }

  predicate LicenseOk(d: License) {
    KeyOk(d.key) && d.questIds != [] && (forall id :: id in d.questIds ==> 1 <= id <= 65535) && Distinct(d.questIds)
  }

  function Mappings(ds: seq<License>): nat {
    if ds == [] then 0 else Mappings(ds[..|ds| - 1]) + |ds[|ds| - 1].questIds|
  }

  function Keys<T, K>(s: seq<T>, key: T -> K): seq<K> { seq(|s|, i requires 0 <= i < |s| => key(s[i])) }

  function KeyOfLicense(d: License): string { d.key }

  function KeyOfStarter(s: Starter): string { s.key }

  function IdOfProduct(p: Product): int { p.campaignId }

  function LicenseKeys(ds: seq<License>): seq<string> { Keys(ds, KeyOfLicense) }

  function StarterKeys(ss: seq<Starter>): seq<string> { Keys(ss, KeyOfStarter) }

  function CampaignIds(ps: seq<Product>): seq<int> { Keys(ps, IdOfProduct) }

  predicate LicensesOk(ds: seq<License>) {
    (forall d :: d in ds ==> LicenseOk(d)) && Distinct(LicenseKeys(ds)) && Mappings(ds) <= MAX_MAPPINGS
  }

  predicate StarterOk(s: Starter, known: seq<string>) {
    && KeyOk(s.key) && s.itemId != 0 && s.quantity != 0 && 1 <= |s.licenseKeys| <= MAX_KEYS && |s.legacy| <= MAX_KEYS
    && (forall k :: k in s.licenseKeys ==> k in known) && Distinct(s.licenseKeys)
    && (forall id :: id in s.legacy ==> 1 <= id <= MAX_CAMPAIGN) && Distinct(s.legacy)
  }

  predicate StartersOk(ss: seq<Starter>, known: seq<string>) {
    (forall s :: s in ss ==> StarterOk(s, known)) && Distinct(StarterKeys(ss))
  }

  /** Owning one of the keys qualifies for the starter. */
  predicate Qualifies(s: Starter, keys: seq<string>) {
    exists k :: k in s.licenseKeys && k in keys
  }

  predicate DatesOk(p: Product) {
    || (p.startsAt.Nothing? && p.endsAt.Nothing?)
    || (p.startsAt.Just? && p.endsAt.Just? && ZERO_TIME !in {p.startsAt.value, p.endsAt.value}
        && p.startsAt.value < p.endsAt.value)
  }

  /** The product grants known rights, and names exactly the starters these rights qualify for. */
  predicate ProductOk(p: Product, known: seq<string>, starters: seq<Starter>) {
    && 1 <= p.campaignId <= MAX_CAMPAIGN && 1 <= |p.licenseKeys| <= MAX_KEYS && |p.starterKeys| <= MAX_KEYS
    && (p.price.Just? ==> 1 <= p.price.value <= 65535) && DatesOk(p)
    && (p.enabled ==> p.price.Just? && p.startsAt.Just?)
    && (forall k :: k in p.licenseKeys ==> k in known) && Distinct(p.licenseKeys)
    && (forall k :: k in p.starterKeys ==> k in StarterKeys(starters)) && Distinct(p.starterKeys)
    && (forall s :: s in starters ==> (s.key in p.starterKeys <==> Qualifies(s, p.licenseKeys)))
  }

  predicate ProductsOk(ps: seq<Product>, known: seq<string>, starters: seq<Starter>) {
    (forall p :: p in ps ==> ProductOk(p, known, starters)) && Distinct(CampaignIds(ps))
  }

  predicate DocumentOk(d: Document) {
    && VersionOk(d.version)
    && |d.licenses| <= MAX_DEFINITIONS && |d.starters| <= MAX_DEFINITIONS && |d.products| <= MAX_DEFINITIONS
    && LicensesOk(d.licenses) && StartersOk(d.starters, LicenseKeys(d.licenses))
    && ProductsOk(d.products, LicenseKeys(d.licenses), d.starters)
  }

  // ------------------------------------------------------------------
  // What the catalogue holds.

  function CanonicalLicense(d: License): License { License(d.key, Sort(d.questIds, Below)) }

  function CanonicalStarter(s: Starter): Starter {
    s.(licenseKeys := Sort(s.licenseKeys, TextBelow), legacy := Sort(s.legacy, Below))
  }

  function OfferOf(p: Product): Offer {
    Offer(p.campaignId, p.enabled, if p.price.Just? then p.price.value else 0,
          if p.startsAt.Just? then p.startsAt.value else ZERO_TIME, if p.endsAt.Just? then p.endsAt.value else ZERO_TIME,
          Sort(p.licenseKeys, TextBelow), Sort(p.starterKeys, TextBelow))
  }

  predicate KeyBelow(a: License, b: License) { TextBelow(a.key, b.key) }

  /** Which key grants which quest. */
  function Grants(ds: seq<License>): set<(string, int)> {
    set d, id | d in ds && id in d.questIds :: (d.key, id)
  }

  /** An offer's own licenses and starters, in the order of its keys. */
  ghost predicate SnapshotOf(s: Snapshot, version: string, offer: Offer, definitions: seq<License>, starters: map<string, Starter>) {
    && s.version == version && s.offer == offer && |s.licenses| == |offer.licenseKeys| && |s.starters| == |offer.starterKeys|
    && (forall i :: 0 <= i < |s.licenses| ==> s.licenses[i] in definitions && s.licenses[i].key == offer.licenseKeys[i])
    && (forall i :: 0 <= i < |s.starters| ==>
                      offer.starterKeys[i] in starters && s.starters[i] == starters[offer.starterKeys[i]])
  }

  function QuestsOf(ds: seq<License>): set<int> { set d, id | d in ds && id in d.questIds :: id }

  function KeysFor(ds: seq<License>, id: int): set<string> { set d | d in ds && id in d.questIds :: d.key }

  ghost predicate DefinitionsHold(c: Rights, ds: seq<License>) {
    && Lists(c.definitions, set d | d in ds :: CanonicalLicense(d), KeyBelow)
    && c.questKeys.Keys == QuestsOf(ds)
    && forall id :: id in c.questKeys ==> Lists(c.questKeys[id], KeysFor(ds, id), TextBelow)
  }

  ghost predicate StartersHold(c: Rights, ss: seq<Starter>) {
    && Lists(c.starterKeys, c.starters.Keys, TextBelow)
    && c.starters.Keys == (set s | s in ss :: s.key) && forall s :: s in ss ==> c.starters[s.key] == CanonicalStarter(s)
  }

  predicate OfferRight(c: Rights, p: Product) {
    p.campaignId in c.offers && c.offers[p.campaignId] == OfferOf(p)
  }

  /** The offer's snapshot is its own, and its quests are those of its licenses. */
  ghost predicate SnapshotRight(c: Rights, id: int) {
    && id in c.offers && id in c.snapshots && id in c.offerQuestIds
    && SnapshotOf(c.snapshots[id], c.version, c.offers[id], c.definitions, c.starters)
    && Lists(c.offerQuestIds[id], QuestsOf(c.snapshots[id].licenses), Below)
  }

  ghost predicate OffersHold(c: Rights, ps: seq<Product>) {
    && c.offers.Keys == (set p | p in ps :: p.campaignId) == c.snapshots.Keys == c.offerQuestIds.Keys
    && (forall p :: p in ps ==> OfferRight(c, p)) && (forall id :: id in c.offers ==> SnapshotRight(c, id))
  }

  ghost predicate Holds(c: Rights, d: Document) {
    c.version == d.version && DefinitionsHold(c, d.licenses) && StartersHold(c, d.starters) && OffersHold(c, d.products)
  }

  // ------------------------------------------------------------------
  // The order of the document does not matter.

  predicate SameLicense(a: License, b: License) { a.key == b.key && multiset(a.questIds) == multiset(b.questIds) }

  predicate SameStarter(a: Starter, b: Starter) {
    && b == a.(licenseKeys := b.licenseKeys, legacy := b.legacy)
    && multiset(a.licenseKeys) == multiset(b.licenseKeys) && multiset(a.legacy) == multiset(b.legacy)
  }

  predicate SameProduct(a: Product, b: Product) {
    && b == a.(licenseKeys := b.licenseKeys, starterKeys := b.starterKeys)
    && multiset(a.licenseKeys) == multiset(b.licenseKeys) && multiset(a.starterKeys) == multiset(b.starterKeys)
  }

  predicate Matched<T(==)>(x: T, b: seq<T>, same: (T, T) -> bool) { exists y :: y in b && same(x, y) }

  predicate Matching<T(==)>(a: seq<T>, y: T, same: (T, T) -> bool) { exists x :: x in a && same(x, y) }

  /** As many elements, each with a counterpart on the other side. */
  ghost predicate Alike<T(!new)>(a: seq<T>, b: seq<T>, same: (T, T) -> bool) {
    && |a| == |b|
    && (forall x {:trigger Matched(x, b, same)} :: x in a ==> Matched(x, b, same))
    && (forall y {:trigger Matching(a, y, same)} :: y in b ==> Matching(a, y, same))
  }

  lemma Counterpart<T(!new)>(a: seq<T>, b: seq<T>, same: (T, T) -> bool, x: T) returns (y: T)
    requires Alike(a, b, same) && x in a
    ensures y in b && same(x, y)
  {
    assert Matched(x, b, same);
    y :| y in b && same(x, y);
  }

  lemma Original<T(!new)>(a: seq<T>, b: seq<T>, same: (T, T) -> bool, y: T) returns (x: T)
    requires Alike(a, b, same) && y in b
    ensures x in a && same(x, y)
  {
    assert Matching(a, y, same);
    x :| x in a && same(x, y);
  }

  /** The documents list the same things, in any order at every level. */
  ghost predicate Reordered(d: Document, e: Document) {
    && d.version == e.version && Alike(d.licenses, e.licenses, SameLicense)
    && Alike(d.starters, e.starters, SameStarter) && Alike(d.products, e.products, SameProduct)
  }

  lemma KeysAre<T, K>(s: seq<T>, key: T -> K)
    ensures forall k :: k in Keys(s, key) <==> exists x :: x in s && key(x) == k
  {
    forall k | k in Keys(s, key)
      ensures exists x :: x in s && key(x) == k
    {
      var i :| 0 <= i < |s| && key(s[i]) == k;
      assert s[i] in s;
    }
    forall x | x in s
      ensures key(x) in Keys(s, key)
    {
      var i :| 0 <= i < |s| && s[i] == x;
      assert Keys(s, key)[i] == key(x);
    }
  }

  /** Reordering keeps the keys, and keeps them apart. */
  lemma AlikeKeys<T(!new), K>(a: seq<T>, b: seq<T>, same: (T, T) -> bool, key: T -> K)
    requires Alike(a, b, same) && forall x, y :: same(x, y) ==> key(x) == key(y)
    ensures forall k :: k in Keys(a, key) <==> k in Keys(b, key)
    ensures Distinct(Keys(a, key)) ==> Distinct(Keys(b, key))
  {
    KeysAre(a, key);
    KeysAre(b, key);
    forall k
      ensures k in Keys(a, key) <==> k in Keys(b, key)
    {
      if k in Keys(a, key) {
        var x :| x in a && key(x) == k;
        var y := Counterpart(a, b, same, x);
      }
      if k in Keys(b, key) {
        var y :| y in b && key(y) == k;
        var x := Original(a, b, same, y);
      }
    }
    if Distinct(Keys(a, key)) {
      AsManyDistinct(Keys(a, key), Keys(b, key));
    }
  }

  lemma AsManyDistinct<T>(a: seq<T>, b: seq<T>)
    requires Distinct(a) && |a| == |b| && forall x :: x in a <==> x in b
    ensures Distinct(b)
  {
    SetOfSize(a);
    assert (set x | x in a) == (set x | x in b);
    forall i, j | 0 <= i < j < |b|
      ensures b[i] != b[j]
    {
      if b[i] == b[j] {
        Repeats(b, i, j);
      }
    }
  }

  lemma Repeats<T>(b: seq<T>, i: nat, j: nat)
    requires i < j < |b| && b[i] == b[j]
    ensures |set x | x in b| < |b|
  {
    var rest := b[..j] + b[j + 1..];
    FewElements(rest);
    assert forall k :: 0 <= k < |b| && k != j ==> b[k] == if k < j then rest[k] else rest[k - 1];
    assert rest[i] == b[j];
    assert (set x | x in b) == (set x | x in rest);
  }

  lemma {:induction false} FewElements<T>(s: seq<T>)
    ensures |set x | x in s| <= |s|
  {
    if s != [] {
      var init, last := s[..|s| - 1], s[|s| - 1];
      assert s == init + [last];
      FewElements(init);
      assert (set x | x in s) == (set x | x in init) + {last};
    }
  }

  lemma ReshuffledDistinct<T>(a: seq<T>, b: seq<T>)
    requires multiset(a) == multiset(b)
    ensures |a| == |b| && (forall x :: x in a <==> x in b) && (Distinct(a) ==> Distinct(b))
  {
    SameElements(a, b);
    if Distinct(a) {
      AsManyDistinct(a, b);
    }
  }

  /** The number of mappings is the number of grants. */
  lemma {:induction false} MappingsAreGrants(ds: seq<License>)
    requires Distinct(LicenseKeys(ds)) && forall d :: d in ds ==> Distinct(d.questIds)
    ensures Mappings(ds) == |Grants(ds)|
  {
    if ds == [] {
      assert Grants(ds) == {};
    } else {
      var init, last := ds[..|ds| - 1], ds[|ds| - 1];
      assert ds == init + [last];
      KeysNext(init, last, KeyOfLicense);
      DistinctFront(LicenseKeys(init), last.key);
      MappingsAreGrants(init);
      var row := seq(|last.questIds|, i requires 0 <= i < |last.questIds| => (last.key, last.questIds[i]));
      SetOfSize(row);
      KeysAre(init, KeyOfLicense);
      RowGrants(init, last, row);
    }
  }

  lemma KeysNext<T, K>(init: seq<T>, last: T, key: T -> K)
    ensures Keys(init + [last], key) == Keys(init, key) + [key(last)]
  {
  }

  lemma DistinctFront<T>(front: seq<T>, last: T)
    requires Distinct(front + [last])
    ensures Distinct(front) && last !in front
  {
    var all := front + [last];
    forall i, j | 0 <= i < j < |front|
      ensures front[i] != front[j]
    {
      assert all[i] != all[j];
    }
    forall i | 0 <= i < |front|
      ensures front[i] != last
    {
      assert all[i] != all[|front|];
    }
  }

  lemma RowGrants(init: seq<License>, last: License, row: seq<(string, int)>)
    requires |row| == |last.questIds| && forall i :: 0 <= i < |row| ==> row[i] == (last.key, last.questIds[i])
    requires forall d :: d in init ==> d.key != last.key
    ensures Grants(init + [last]) == Grants(init) + (set x | x in row)
    ensures Grants(init) !! (set x | x in row)
  {
    forall id | id in last.questIds
      ensures (last.key, id) in row
    {
      var i :| 0 <= i < |row| && last.questIds[i] == id;
      assert row[i] == (last.key, id);
    }
    var both, parts := Grants(init + [last]), Grants(init) + (set x | x in row);
    forall k, id
      ensures (k, id) in both <==> (k, id) in parts
    {
      if (k, id) in both {
        var d :| d in init + [last] && id in d.questIds && k == d.key;
        assert d in init || d == last;
      }
      if (k, id) in Grants(init) {
        var d :| d in init && id in d.questIds && k == d.key;
        assert d in init + [last];
      } else if (k, id) in row {
        var i :| 0 <= i < |row| && row[i] == (k, id);
        assert last in init + [last] && last.questIds[i] in last.questIds;
      }
    }
  }

  lemma SameGrants(a: seq<License>, b: seq<License>)
    requires Alike(a, b, SameLicense)
    ensures Grants(a) == Grants(b)
  {
    forall k, id
      ensures (k, id) in Grants(a) <==> (k, id) in Grants(b)
    {
      if (k, id) in Grants(a) {
        var x :| x in a && x.key == k && id in x.questIds;
        var y := Counterpart(a, b, SameLicense, x);
        SameElements(x.questIds, y.questIds);
      }
      if (k, id) in Grants(b) {
        var y :| y in b && y.key == k && id in y.questIds;
        var x := Original(a, b, SameLicense, y);
        SameElements(x.questIds, y.questIds);
      }
    }
  }

  lemma SameLicensesOk(a: seq<License>, b: seq<License>)
    requires Alike(a, b, SameLicense) && LicensesOk(a)
    ensures LicensesOk(b) && forall k :: k in LicenseKeys(a) <==> k in LicenseKeys(b)
  {
    AlikeKeys(a, b, SameLicense, KeyOfLicense);
    forall y | y in b
      ensures LicenseOk(y)
    {
      var x := Original(a, b, SameLicense, y);
      ReshuffledDistinct(x.questIds, y.questIds);
    }
    MappingsAreGrants(a);
    MappingsAreGrants(b);
    SameGrants(a, b);
  }

  lemma SameStartersOk(a: seq<Starter>, b: seq<Starter>, known: seq<string>, known': seq<string>)
    requires Alike(a, b, SameStarter) && StartersOk(a, known) && forall k :: k in known <==> k in known'
    ensures StartersOk(b, known') && forall k :: k in StarterKeys(a) <==> k in StarterKeys(b)
  {
    AlikeKeys(a, b, SameStarter, KeyOfStarter);
    forall y | y in b
      ensures StarterOk(y, known')
    {
      var x := Original(a, b, SameStarter, y);
      ReshuffledDistinct(x.licenseKeys, y.licenseKeys);
      ReshuffledDistinct(x.legacy, y.legacy);
    }
  }

  lemma SameProductOk(p: Product, q: Product, known: seq<string>, known': seq<string>, a: seq<Starter>, b: seq<Starter>)
    requires SameProduct(p, q) && ProductOk(p, known, a) && Alike(a, b, SameStarter)
    requires (forall k :: k in known <==> k in known') && forall k :: k in StarterKeys(a) <==> k in StarterKeys(b)
    ensures ProductOk(q, known', b)
  {
    ReshuffledDistinct(p.licenseKeys, q.licenseKeys);
    ReshuffledDistinct(p.starterKeys, q.starterKeys);
    forall s | s in b
      ensures s.key in q.starterKeys <==> Qualifies(s, q.licenseKeys)
    {
      var r := Original(a, b, SameStarter, s);
      SameElements(r.licenseKeys, s.licenseKeys);
      assert Qualifies(s, q.licenseKeys) <==> Qualifies(r, p.licenseKeys);
    }
  }

  /** A reordered document is accepted too. */
  lemma ReorderedOk(d: Document, e: Document)
    requires Reordered(d, e) && DocumentOk(d)
    ensures DocumentOk(e)
  {
    SameLicensesOk(d.licenses, e.licenses);
    SameStartersOk(d.starters, e.starters, LicenseKeys(d.licenses), LicenseKeys(e.licenses));
    AlikeKeys(d.products, e.products, SameProduct, IdOfProduct);
    forall q | q in e.products
      ensures ProductOk(q, LicenseKeys(e.licenses), e.starters)
    {
      var p := Original(d.products, e.products, SameProduct, q);
      SameProductOk(p, q, LicenseKeys(d.licenses), LicenseKeys(e.licenses), d.starters, e.starters);
    }
  }

  lemma SortedAlike<T(!new)>(a: seq<T>, b: seq<T>, less: (T, T) -> bool)
    requires multiset(a) == multiset(b) && Distinct(a) && Linear(a, less)
    ensures Sort(a, less) == Sort(b, less)
  {
    SameElements(a, b);
    AsManyDistinct(a, b);
    SortOrders(b, less);
    SortKeeps(b, less);
    AnySortAgrees(a, Sort(b, less), less);
  }

  lemma SameCanonicals(a: seq<License>, b: seq<License>)
    requires Alike(a, b, SameLicense) && LicensesOk(a)
    ensures (set d | d in a :: CanonicalLicense(d)) == (set d | d in b :: CanonicalLicense(d))
  {
    forall x | x in a
      ensures exists y :: y in b && CanonicalLicense(x) == CanonicalLicense(y)
    {
      var y := Counterpart(a, b, SameLicense, x);
      SortedAlike(x.questIds, y.questIds, Below);
    }
    forall y | y in b
      ensures exists x :: x in a && CanonicalLicense(x) == CanonicalLicense(y)
    {
      var x := Original(a, b, SameLicense, y);
      SortedAlike(x.questIds, y.questIds, Below);
    }
  }

  lemma SameDefinitions(c: Rights, f: Rights, a: seq<License>, b: seq<License>)
    requires DefinitionsHold(c, a) && DefinitionsHold(f, b) && Alike(a, b, SameLicense) && LicensesOk(a)
    ensures c.definitions == f.definitions && c.questKeys == f.questKeys
  {
    TextAsymmetric();
    SameCanonicals(a, b);
    ListsUnique(c.definitions, f.definitions, set d | d in a :: CanonicalLicense(d), KeyBelow);
    SameGrants(a, b);
    GrantsAre(a);
    GrantsAre(b);
    forall id | id in c.questKeys
      ensures c.questKeys[id] == f.questKeys[id]
    {
      ListsUnique(c.questKeys[id], f.questKeys[id], KeysFor(a, id), TextBelow);
    }
  }

  lemma GrantsAre(ds: seq<License>)
    ensures QuestsOf(ds) == set g | g in Grants(ds) :: g.1
    ensures forall id :: KeysFor(ds, id) == set g | g in Grants(ds) && g.1 == id :: g.0
  {
    forall id
      ensures id in QuestsOf(ds) ==> exists g :: g in Grants(ds) && g.1 == id
    {
      if id in QuestsOf(ds) {
        var d :| d in ds && id in d.questIds;
        assert (d.key, id) in Grants(ds);
      }
    }
    forall id
      ensures KeysFor(ds, id) == set g | g in Grants(ds) && g.1 == id :: g.0
    {
      forall k
        ensures k in KeysFor(ds, id) <==> (k, id) in Grants(ds)
      {
      }
    }
  }

  lemma StarterSame(x: Starter, y: Starter, known: seq<string>)
    requires SameStarter(x, y) && StarterOk(x, known)
    ensures CanonicalStarter(x) == CanonicalStarter(y) && x.key == y.key
  {
    TextsLinear(x.licenseKeys);
    SortedAlike(x.licenseKeys, y.licenseKeys, TextBelow);
    SortedAlike(x.legacy, y.legacy, Below);
  }

  lemma SameStarters(c: Rights, f: Rights, a: seq<Starter>, b: seq<Starter>, known: seq<string>)
    requires StartersHold(c, a) && StartersHold(f, b) && Alike(a, b, SameStarter) && StartersOk(a, known)
    ensures c.starters == f.starters && c.starterKeys == f.starterKeys
  {
    forall k
      ensures k in c.starters <==> k in f.starters
      ensures k in c.starters ==> c.starters[k] == f.starters[k]
    {
      if k in c.starters {
        var x :| x in a && x.key == k;
        var y := Counterpart(a, b, SameStarter, x);
        StarterSame(x, y, known);
      }
      if k in f.starters {
        var y :| y in b && y.key == k;
        var x := Original(a, b, SameStarter, y);
      }
    }
    SameMaps(c.starters, f.starters);
    TextAsymmetric();
    ListsUnique(c.starterKeys, f.starterKeys, c.starters.Keys, TextBelow);
  }

  lemma SameMaps<K, V>(m: map<K, V>, n: map<K, V>)
    requires forall k :: k in m <==> k in n
    requires forall k :: k in m ==> m[k] == n[k]
    ensures m == n
  {
  }

  lemma OfferSame(x: Product, y: Product, known: seq<string>, starters: seq<Starter>)
    requires SameProduct(x, y) && ProductOk(x, known, starters)
    ensures OfferOf(x) == OfferOf(y) && x.campaignId == y.campaignId
  {
    TextsLinear(x.licenseKeys);
    TextsLinear(x.starterKeys);
    SortedAlike(x.licenseKeys, y.licenseKeys, TextBelow);
    SortedAlike(x.starterKeys, y.starterKeys, TextBelow);
  }

  lemma SameOffers(c: Rights, f: Rights, a: seq<Product>, b: seq<Product>, known: seq<string>, starters: seq<Starter>)
    requires OffersHold(c, a) && OffersHold(f, b) && Alike(a, b, SameProduct) && ProductsOk(a, known, starters)
    ensures c.offers == f.offers
  {
    forall k
      ensures k in c.offers <==> k in f.offers
      ensures k in c.offers ==> c.offers[k] == f.offers[k]
    {
      if k in c.offers {
        var x :| x in a && x.campaignId == k;
        var y := Counterpart(a, b, SameProduct, x);
        OfferSame(x, y, known, starters);
        assert OfferRight(c, x) && OfferRight(f, y);
      }
      if k in f.offers {
        var y :| y in b && y.campaignId == k;
        var x := Original(a, b, SameProduct, y);
      }
    }
    SameMaps(c.offers, f.offers);
  }

  /** The snapshot of an offer is determined by the definitions and the starters. */
  lemma SameSnapshot(s: Snapshot, t: Snapshot, version: string, offer: Offer, definitions: seq<License>, starters: map<string, Starter>)
    requires SnapshotOf(s, version, offer, definitions, starters) && SnapshotOf(t, version, offer, definitions, starters)
    requires Ascending(definitions, KeyBelow)
    ensures s == t
  {
    TextAsymmetric();
    forall i | 0 <= i < |s.licenses|
      ensures s.licenses[i] == t.licenses[i]
    {
      var j :| 0 <= j < |definitions| && definitions[j] == s.licenses[i];
      var k :| 0 <= k < |definitions| && definitions[k] == t.licenses[i];
      assert j < k ==> KeyBelow(definitions[j], definitions[k]);
      assert k < j ==> KeyBelow(definitions[k], definitions[j]);
    }
    assert s.starters == t.starters;
    assert s.licenses == t.licenses;
  }

  lemma SameSnapshots(c: Rights, f: Rights, a: seq<Product>, b: seq<Product>)
    requires OffersHold(c, a) && OffersHold(f, b) && c.offers == f.offers && c.version == f.version
    requires c.definitions == f.definitions && c.starters == f.starters && Ascending(c.definitions, KeyBelow)
    ensures c.snapshots == f.snapshots && c.offerQuestIds == f.offerQuestIds
  {
    forall id | id in c.offers
      ensures c.snapshots[id] == f.snapshots[id] && c.offerQuestIds[id] == f.offerQuestIds[id]
    {
      assert SnapshotRight(c, id) && SnapshotRight(f, id);
      SameSnapshot(c.snapshots[id], f.snapshots[id], c.version, c.offers[id], c.definitions, c.starters);
      ListsUnique(c.offerQuestIds[id], f.offerQuestIds[id], QuestsOf(c.snapshots[id].licenses), Below);
    }
    SameMaps(c.snapshots, f.snapshots);
    SameMaps(c.offerQuestIds, f.offerQuestIds);
  }

  /** Whatever the order of a document's lists, it is accepted or not, and makes the same catalogue and the same snapshots. */
  lemma OrderDoesNotMatter(d: Document, e: Document, c: Rights, f: Rights)
    requires Reordered(d, e) && DocumentOk(d) && Holds(c, d) && Holds(f, e)
    ensures DocumentOk(e) && c == f
  {
    ReorderedOk(d, e);
    SameDefinitions(c, f, d.licenses, e.licenses);
    SameStarters(c, f, d.starters, e.starters, LicenseKeys(d.licenses));
    SameOffers(c, f, d.products, e.products, LicenseKeys(d.licenses), d.starters);
    SameSnapshots(c, f, d.products, e.products);
  }

  // ------------------------------------------------------------------
  // The validation, one pass over each list.

  /** The keys filed under each quest are exactly those that grant it. */
  ghost predicate Filed(filed: map<int, seq<string>>, grants: set<(string, int)>) {
    && (forall k, id :: (k, id) in grants <==> id in filed && k in filed[id])
    && (forall id :: id in filed ==> filed[id] != [] && Distinct(filed[id]))
  }

  function Row(d: License, n: nat): set<(string, int)>
    requires n <= |d.questIds|
  {
    set id | id in d.questIds[..n] :: (d.key, id)
  }

  lemma FileOne(filed: map<int, seq<string>>, grants: set<(string, int)>, k: string, id: int)
    requires Filed(filed, grants) && (k, id) !in grants
    ensures Filed(filed[id := (if id in filed then filed[id] else []) + [k]], grants + {(k, id)})
  {
  }

  /** The quests of one license, filed under its key. */
  method FileQuests(d: License, filed: map<int, seq<string>>, ghost grants: set<(string, int)>)
      returns (ok: bool, filed': map<int, seq<string>>)
    requires Filed(filed, grants) && forall id :: (d.key, id) !in grants
    ensures ok <==> (forall id :: id in d.questIds ==> 1 <= id <= 65535) && Distinct(d.questIds)
    ensures ok ==> Filed(filed', grants + Row(d, |d.questIds|))
  {
    filed' := filed;
    var seen: set<int> := {};
    for i := 0 to |d.questIds|
      invariant seen == (set x | x in d.questIds[..i]) && Distinct(d.questIds[..i])
      invariant forall j :: 0 <= j < i ==> 1 <= d.questIds[j] <= 65535
      invariant Filed(filed', grants + Row(d, i))
    {
      var id := d.questIds[i];
      assert id in d.questIds;
      if id < 1 || id > 65535 || id in seen {
        return false, filed';
      }
      seen := seen + {id};
      FileOne(filed', grants + Row(d, i), d.key, id);
      assert d.questIds[..i + 1] == d.questIds[..i] + [id];
      assert grants + Row(d, i + 1) == grants + Row(d, i) + {(d.key, id)};
      filed' := filed'[id := (if id in filed' then filed'[id] else []) + [d.key]];
    }
    assert d.questIds[..|d.questIds|] == d.questIds;
    ok := true;
  }

  lemma LicensesNext(ds: seq<License>, n: nat)
    requires n < |ds|
    ensures LicensesOk(ds[..n + 1]) <==>
            && LicensesOk(ds[..n]) && LicenseOk(ds[n]) && ds[n].key !in LicenseKeys(ds[..n])
            && Mappings(ds[..n]) + |ds[n].questIds| <= MAX_MAPPINGS
    ensures Mappings(ds[..n + 1]) == Mappings(ds[..n]) + |ds[n].questIds|
    ensures LicensesOk(ds) ==> LicensesOk(ds[..n + 1])
  {
    var before, after := ds[..n], ds[..n + 1];
    assert after == before + [ds[n]] && after[..n] == before;
    LicensesAdded(before, ds[n]);
    MappingsPrefix(ds, n + 1);
    KeysPrefix(ds, n + 1, KeyOfLicense);
  }

  lemma LicensesAdded(before: seq<License>, last: License)
    ensures LicensesOk(before + [last]) <==>
            && LicensesOk(before) && LicenseOk(last) && last.key !in LicenseKeys(before)
            && Mappings(before) + |last.questIds| <= MAX_MAPPINGS
    ensures Mappings(before + [last]) == Mappings(before) + |last.questIds|
  {
    var after := before + [last];
    assert after[..|before|] == before && after[|before|] == last;
    KeysNext(before, last, KeyOfLicense);
    DistinctNext(LicenseKeys(before), last.key);
    assert forall d :: d in after <==> d in before || d == last;
  }

  lemma DistinctNext<T>(front: seq<T>, last: T)
    ensures Distinct(front + [last]) <==> Distinct(front) && last !in front
  {
    if Distinct(front + [last]) {
      DistinctFront(front, last);
    }
  }

  lemma KeysPrefix<T, K>(s: seq<T>, n: nat, key: T -> K)
    requires n <= |s|
    ensures Distinct(Keys(s, key)) ==> Distinct(Keys(s[..n], key))
  {
    forall i, j | 0 <= i < j < n && Distinct(Keys(s, key))
      ensures Keys(s[..n], key)[i] != Keys(s[..n], key)[j]
    {
      assert Keys(s, key)[i] != Keys(s, key)[j];
    }
  }

  lemma {:induction false} MappingsPrefix(ds: seq<License>, n: nat)
    requires n <= |ds|
    ensures Mappings(ds[..n]) <= Mappings(ds)
  {
    if n < |ds| {
      MappingsPrefix(ds[..|ds| - 1], n);
      assert ds[..|ds| - 1][..n] == ds[..n];
    } else {
      assert ds[..n] == ds;
    }
  }

  lemma GrantsNext(init: seq<License>, last: License)
    ensures Grants(init + [last]) == Grants(init) + Row(last, |last.questIds|)
  {
    assert last.questIds[..|last.questIds|] == last.questIds;
    forall k, id
      ensures (k, id) in Grants(init + [last]) <==> (k, id) in Grants(init) || (k, id) in Row(last, |last.questIds|)
    {
      assert forall d :: d in init + [last] <==> d in init || d == last;
      assert last in init + [last];
    }
  }

  /** What has been read of these licenses. */
  ghost predicate Read(ds: seq<License>, quests: map<string, seq<int>>, filed: map<int, seq<string>>, mappings: nat) {
    && LicensesOk(ds) && mappings == Mappings(ds) && Filed(filed, Grants(ds))
    && (forall k :: k in quests <==> k in LicenseKeys(ds))
    && forall d :: d in ds ==> d.key in quests && quests[d.key] == Sort(d.questIds, Below)
  }

  lemma FreshKey(ds: seq<License>, key: string)
    requires key !in LicenseKeys(ds)
    ensures forall id :: (key, id) !in Grants(ds)
  {
    KeysAre(ds, KeyOfLicense);
  }

  method ReadLicense(d: License, quests: map<string, seq<int>>, filed: map<int, seq<string>>, mappings: nat,
                     ghost ds: seq<License>, ghost n: nat)
      returns (ok: bool, quests': map<string, seq<int>>, filed': map<int, seq<string>>, mappings': nat)
    requires n < |ds| && ds[n] == d && Read(ds[..n], quests, filed, mappings)
    ensures ok <==> LicensesOk(ds[..n + 1])
    ensures ok ==> Read(ds[..n + 1], quests', filed', mappings')
  {
    quests', filed', mappings' := quests, filed, mappings + |d.questIds|;
    LicensesNext(ds, n);
    if !KeyOk(d.key) || d.key in quests || d.questIds == [] || mappings' > MAX_MAPPINGS {
      return false, quests', filed', mappings';
    }
    ok, quests', filed' := FileLicense(d, quests, filed, ds, n);
  }

  /** Files a license with a fresh key under its quests. */
  method FileLicense(d: License, quests: map<string, seq<int>>, filed: map<int, seq<string>>, ghost ds: seq<License>, ghost n: nat)
      returns (ok: bool, quests': map<string, seq<int>>, filed': map<int, seq<string>>)
    requires n < |ds| && ds[n] == d && Read(ds[..n], quests, filed, Mappings(ds[..n])) && d.key !in quests
    ensures ok <==> (forall id :: id in d.questIds ==> 1 <= id <= 65535) && Distinct(d.questIds)
    ensures ok ==> Filed(filed', Grants(ds[..n + 1])) && (forall k :: k in quests' <==> k in LicenseKeys(ds[..n + 1]))
    ensures ok ==> forall x :: x in ds[..n + 1] ==> x.key in quests' && quests'[x.key] == Sort(x.questIds, Below)
  {
    FreshKey(ds[..n], d.key);
    ok, filed' := FileQuests(d, filed, Grants(ds[..n]));
    quests' := quests[d.key := Sort(d.questIds, Below)];
    assert ds[..n + 1] == ds[..n] + [d];
    KeysNext(ds[..n], d, KeyOfLicense);
    GrantsNext(ds[..n], d);
    ReadNext(ds[..n], d, quests, quests');
  }

  lemma ReadNext(ds: seq<License>, d: License, quests: map<string, seq<int>>, quests': map<string, seq<int>>)
    requires d.key !in quests && quests' == quests[d.key := Sort(d.questIds, Below)]
    requires forall x :: x in ds ==> x.key in quests && quests[x.key] == Sort(x.questIds, Below)
    ensures forall x :: x in ds + [d] ==> x.key in quests' && quests'[x.key] == Sort(x.questIds, Below)
  {
  }

  method ReadLicenses(ds: seq<License>) returns (ok: bool, quests: map<string, seq<int>>, filed: map<int, seq<string>>)
    ensures ok <==> LicensesOk(ds)
    ensures ok ==> Read(ds, quests, filed, Mappings(ds))
  {
    quests, filed := map[], map[];
    var mappings := 0;
    for i := 0 to |ds|
      invariant Read(ds[..i], quests, filed, mappings)
    {
      LicensesNext(ds, i);
      ok, quests, filed, mappings := ReadLicense(ds[i], quests, filed, mappings, ds, i);
      if !ok {
        return;
      }
    }
    assert ds[..|ds|] == ds;
    ok := true;
  }

  lemma NextKeys<T, K>(s: seq<T>, n: nat, key: T -> K)
    requires n < |s|
    ensures Keys(s[..n + 1], key) == Keys(s[..n], key) + [key(s[n])]
  {
    assert s[..n + 1] == s[..n] + [s[n]];
  }

  method ListDefinitions(quests: map<string, seq<int>>) returns (r: seq<License>)
    ensures Lists(r, set k | k in quests :: License(k, quests[k]), KeyBelow)
  {
    r := [];
    var rest := quests.Keys;
    while rest != {}
      invariant rest <= quests.Keys && Distinct(r)
      invariant forall d :: d in r <==> d.key in quests && d.key !in rest && d.questIds == quests[d.key]
      decreases |rest|
    {
      var k :| k in rest;
      r := r + [License(k, quests[k])];
      rest := rest - {k};
    }
    DefinitionsLinear(r);
    SortOrders(r, KeyBelow);
    SortKeeps(r, KeyBelow);
    SameElements(Sort(r, KeyBelow), r);
    r := Sort(r, KeyBelow);
  }

  lemma DefinitionsLinear(r: seq<License>)
    requires forall a, b :: a in r && b in r && a.key == b.key ==> a == b
    ensures Linear(r, KeyBelow)
  {
    TextAsymmetric();
    forall a, b | a in r && b in r && a != b
      ensures KeyBelow(a, b) <==> !KeyBelow(b, a)
    {
      TextConnected(a.key, b.key);
    }
    forall a, b, c | a in r && b in r && c in r && KeyBelow(a, b) && KeyBelow(b, c)
      ensures KeyBelow(a, c)
    {
      TextTransitive(a.key, b.key, c.key);
    }
  }

  method CheckKeys(keys: seq<string>, quests: map<string, seq<int>>, ghost known: seq<string>) returns (ok: bool)
    requires forall k :: k in quests <==> k in known
    ensures ok <==> (forall k :: k in keys ==> k in known) && NeighboursDiffer(keys)
  {
    for i := 0 to |keys|
      invariant forall j :: 0 <= j < i ==> keys[j] in known
      invariant forall j :: 0 < j < i ==> keys[j - 1] != keys[j]
    {
      if keys[i] !in quests || (i > 0 && keys[i] == keys[i - 1]) {
        assert keys[i] in keys;
        return false;
      }
    }
    ok := true;
  }

  method CheckCampaigns(ids: seq<int>) returns (ok: bool)
    ensures ok <==> (forall id :: id in ids ==> 1 <= id <= MAX_CAMPAIGN) && NeighboursDiffer(ids)
  {
    for i := 0 to |ids|
      invariant forall j :: 0 <= j < i ==> 1 <= ids[j] <= MAX_CAMPAIGN
      invariant forall j :: 0 < j < i ==> ids[j - 1] != ids[j]
    {
      if ids[i] < 1 || ids[i] > MAX_CAMPAIGN || (i > 0 && ids[i] == ids[i - 1]) {
        assert ids[i] in ids;
        return false;
      }
    }
    ok := true;
  }

  /** Sorted copies of the lists, refused when something is unknown or two neighbours are equal. */
  method MakeCanonical(s: Starter, quests: map<string, seq<int>>, ghost known: seq<string>) returns (ok: bool, c: Starter)
    requires forall k :: k in quests <==> k in known
    ensures ok <==> StarterOk(s, known)
    ensures c == CanonicalStarter(s)
  {
    c := s.(licenseKeys := Sort(s.licenseKeys, TextBelow), legacy := Sort(s.legacy, Below));
    if !KeyOk(s.key) || s.itemId == 0 || s.quantity == 0 || s.licenseKeys == [] || |s.licenseKeys| > MAX_KEYS || |s.legacy| > MAX_KEYS {
      return false, c;
    }
    TextsLinear(s.licenseKeys);
    SortedNeighbours(s.licenseKeys, TextBelow);
    SortKeeps(s.licenseKeys, TextBelow);
    SameElements(c.licenseKeys, s.licenseKeys);
    SortedNeighbours(s.legacy, Below);
    SortKeeps(s.legacy, Below);
    SameElements(c.legacy, s.legacy);
    var keysOk := CheckKeys(c.licenseKeys, quests, known);
    var campaignsOk := CheckCampaigns(c.legacy);
    ok := keysOk && campaignsOk;
  }

  method ReadStarters(ss: seq<Starter>, quests: map<string, seq<int>>, ghost known: seq<string>)
      returns (ok: bool, starters: map<string, Starter>, starterKeys: seq<string>)
    requires forall k :: k in quests <==> k in known
    ensures ok <==> StartersOk(ss, known)
    ensures ok ==> (forall k :: k in starters <==> k in StarterKeys(ss)) && Lists(starterKeys, starters.Keys, TextBelow)
    ensures ok ==> forall s :: s in ss ==> s.key in starters && starters[s.key] == CanonicalStarter(s)
  {
    starters, starterKeys := map[], [];
    for i := 0 to |ss|
      invariant StartersOk(ss[..i], known) && starterKeys == StarterKeys(ss[..i])
      invariant forall k :: k in starters <==> k in starterKeys
      invariant forall j :: 0 <= j < i ==> ss[j].key in starters && starters[ss[j].key] == CanonicalStarter(ss[j])
    {
      NextKeys(ss, i, KeyOfStarter);
      DistinctNext(StarterKeys(ss[..i]), ss[i].key);
      KeysPrefix(ss, i + 1, KeyOfStarter);
      assert ss[i] in ss && ss[..i + 1] == ss[..i] + [ss[i]];
      if ss[i].key in starters {
        return false, starters, starterKeys;
      }
      var canonical;
      ok, canonical := MakeCanonical(ss[i], quests, known);
      if !ok {
        return false, starters, starterKeys;
      }
      starters := starters[canonical.key := canonical];
      starterKeys := starterKeys + [canonical.key];
    }
    assert ss[..|ss|] == ss;
    TextsSorted(starterKeys);
    starterKeys := Sort(starterKeys, TextBelow);
    ok := true;
  }

  method QualifiesFor(s: Starter, keys: seq<string>, seen: set<string>) returns (r: bool)
    requires forall k :: k in seen <==> k in keys
    ensures r == Qualifies(s, keys)
  {
    for i := 0 to |s.licenseKeys|
      invariant forall j :: 0 <= j < i ==> s.licenseKeys[j] !in keys
    {
      if s.licenseKeys[i] in seen {
        return true;
      }
    }
    r := false;
  }

  /** Known and different keys. */
  method CheckProductKeys(keys: seq<string>, quests: map<string, seq<int>>, ghost known: seq<string>)
      returns (ok: bool, seen: set<string>)
    requires forall k :: k in quests <==> k in known
    ensures ok <==> (forall k :: k in keys ==> k in known) && Distinct(keys)
    ensures ok ==> forall k :: k in seen <==> k in keys
  {
    seen := {};
    for i := 0 to |keys|
      invariant seen == (set x | x in keys[..i]) && Distinct(keys[..i])
      invariant forall j :: 0 <= j < i ==> keys[j] in known
    {
      if keys[i] !in quests || keys[i] in seen {
        assert keys[i] in keys;
        return false, seen;
      }
      seen := seen + {keys[i]};
    }
    assert keys[..|keys|] == keys;
    ok := true;
  }

  /** Known and different starters, each of which the product's keys qualify for. */
  method CheckProductStarters(keys: seq<string>, starters: map<string, Starter>, licenseKeys: seq<string>, seen: set<string>)
      returns (ok: bool, named: set<string>)
    requires forall k :: k in seen <==> k in licenseKeys
    ensures ok <==> Distinct(keys) && forall k :: k in keys ==> k in starters && Qualifies(starters[k], licenseKeys)
    ensures ok ==> forall k :: k in named <==> k in keys
  {
    named := {};
    for i := 0 to |keys|
      invariant named == (set x | x in keys[..i]) && Distinct(keys[..i])
      invariant forall j :: 0 <= j < i ==> keys[j] in starters && Qualifies(starters[keys[j]], licenseKeys)
    {
      assert keys[i] in keys;
      if keys[i] !in starters || keys[i] in named {
        return false, named;
      }
      ok := QualifiesFor(starters[keys[i]], licenseKeys, seen);
      if !ok {
        return false, named;
      }
      named := named + {keys[i]};
    }
    assert keys[..|keys|] == keys;
    ok := true;
  }

  /** No starter that the product's keys qualify for is missing. */
  method CheckDisclosed(starterKeys: seq<string>, starters: map<string, Starter>, named: set<string>, licenseKeys: seq<string>,
                        seen: set<string>) returns (ok: bool)
    requires (forall k :: k in starterKeys <==> k in starters) && forall k :: k in seen <==> k in licenseKeys
    ensures ok <==> forall k :: k in starters && Qualifies(starters[k], licenseKeys) ==> k in named
  {
    for i := 0 to |starterKeys|
      invariant forall j :: 0 <= j < i ==> starterKeys[j] in named || !Qualifies(starters[starterKeys[j]], licenseKeys)
    {
      assert starterKeys[i] in starterKeys;
      if starterKeys[i] !in named {
        var missing := QualifiesFor(starters[starterKeys[i]], licenseKeys, seen);
        if missing {
          return false;
        }
      }
    }
    ok := true;
  }

  method ReadProduct(p: Product, quests: map<string, seq<int>>, starters: map<string, Starter>, starterKeys: seq<string>,
                     ghost known: seq<string>, ghost ss: seq<Starter>) returns (ok: bool, offer: Offer)
    requires (forall k :: k in quests <==> k in known) && (forall k :: k in starterKeys <==> k in starters)
    requires forall k :: k in starters <==> k in StarterKeys(ss)
    requires forall s :: s in ss ==> s.key in starters && starters[s.key] == CanonicalStarter(s)
    ensures ok <==> ProductOk(p, known, ss)
    ensures offer == OfferOf(p)
  {
    offer := OfferOf(p);
    if p.campaignId < 1 || p.campaignId > MAX_CAMPAIGN || p.licenseKeys == [] || |p.licenseKeys| > MAX_KEYS
       || (p.price.Just? && (p.price.value < 1 || p.price.value > 65535)) || !DatesOk(p)
       || (p.enabled && (offer.price == 0 || offer.startsAt == ZERO_TIME)) || |p.starterKeys| > MAX_KEYS {
      return false, offer;
    }
    var seen, named;
    ok, seen := CheckProductKeys(p.licenseKeys, quests, known);
    if !ok {
      return;
    }
    StartersShared(ss, starters, p.licenseKeys);
    ok, named := CheckProductStarters(p.starterKeys, starters, p.licenseKeys, seen);
    if !ok {
      return;
    }
    ok := CheckDisclosed(starterKeys, starters, named, p.licenseKeys, seen);
  }

  /** Sorting a starter's keys does not change what it qualifies for. */
  lemma StartersShared(ss: seq<Starter>, starters: map<string, Starter>, keys: seq<string>)
    requires forall k :: k in starters <==> k in StarterKeys(ss)
    requires forall s :: s in ss ==> s.key in starters && starters[s.key] == CanonicalStarter(s)
    ensures forall s :: s in ss ==> (Qualifies(s, keys) <==> Qualifies(starters[s.key], keys))
    ensures forall k :: k in starters ==> exists s :: s in ss && s.key == k
  {
    KeysAre(ss, KeyOfStarter);
    forall s | s in ss
      ensures Qualifies(s, keys) <==> Qualifies(starters[s.key], keys)
    {
      SortKeeps(s.licenseKeys, TextBelow);
      SameElements(CanonicalStarter(s).licenseKeys, s.licenseKeys);
    }
  }

  /** What the offer's digest is computed from, and the union of its quests. */
  method DigestOffer(version: string, offer: Offer, quests: map<string, seq<int>>, starters: map<string, Starter>,
                     ghost definitions: seq<License>) returns (snapshot: Snapshot, questIds: seq<int>)
    requires forall k :: k in offer.licenseKeys ==> k in quests && License(k, quests[k]) in definitions
    requires forall k :: k in offer.starterKeys ==> k in starters
    ensures SnapshotOf(snapshot, version, offer, definitions, starters)
    ensures Lists(questIds, QuestsOf(snapshot.licenses), Below)
  {
    var licenses: seq<License> := [];
    var unique: set<int> := {};
    for i := 0 to |offer.licenseKeys|
      invariant |licenses| == i && unique == QuestsOf(licenses)
      invariant forall j :: 0 <= j < i ==> licenses[j] in definitions && licenses[j].key == offer.licenseKeys[j]
    {
      var key := offer.licenseKeys[i];
      assert key in offer.licenseKeys;
      var more := License(key, quests[key]);
      UniqueNext(licenses, more);
      licenses := licenses + [more];
      unique := unique + set id | id in more.questIds;
    }
    var policies: seq<Starter> := [];
    for i := 0 to |offer.starterKeys|
      invariant |policies| == i
      invariant forall j :: 0 <= j < i ==> offer.starterKeys[j] in starters && policies[j] == starters[offer.starterKeys[j]]
    {
      assert offer.starterKeys[i] in offer.starterKeys;
      policies := policies + [starters[offer.starterKeys[i]]];
    }
    snapshot := Snapshot(version, offer, licenses, policies);
    questIds := SortedNumbers(unique);
  }

  lemma UniqueNext(licenses: seq<License>, more: License)
    ensures QuestsOf(licenses + [more]) == QuestsOf(licenses) + set id | id in more.questIds
  {
    forall id
      ensures id in QuestsOf(licenses + [more]) <==> id in QuestsOf(licenses) || id in more.questIds
    {
      assert forall d :: d in licenses + [more] <==> d in licenses || d == more;
      assert more in licenses + [more];
    }
  }

  method SortedNumbers(numbers: set<int>) returns (r: seq<int>)
    ensures Lists(r, numbers, Below)
  {
    r := Listing(numbers);
    NumbersSorted(r);
    r := Sort(r, Below);
  }

  /** What has been read before the products. */
  ghost predicate Prepared(c: Rights, d: Document, quests: map<string, seq<int>>) {
    && c.version == d.version && DefinitionsHold(c, d.licenses) && StartersHold(c, d.starters)
    && (forall k :: k in quests <==> k in LicenseKeys(d.licenses))
    && (forall k :: k in quests ==> License(k, quests[k]) in c.definitions)
    && (forall k :: k in c.starters <==> k in StarterKeys(d.starters))
  }

  lemma OfferKeys(p: Product, c: Rights, d: Document, quests: map<string, seq<int>>)
    requires Prepared(c, d, quests) && ProductOk(p, LicenseKeys(d.licenses), d.starters)
    ensures forall k :: k in OfferOf(p).licenseKeys ==> k in quests && License(k, quests[k]) in c.definitions
    ensures forall k :: k in OfferOf(p).starterKeys ==> k in c.starters
  {
    SortKeeps(p.licenseKeys, TextBelow);
    SameElements(OfferOf(p).licenseKeys, p.licenseKeys);
    SortKeeps(p.starterKeys, TextBelow);
    SameElements(OfferOf(p).starterKeys, p.starterKeys);
  }

  method ReadProducts(base: Rights, quests: map<string, seq<int>>, ps: seq<Product>, ghost d: Document) returns (ok: bool, c: Rights)
    requires Prepared(base, d, quests)
    ensures ok <==> ProductsOk(ps, LicenseKeys(d.licenses), d.starters)
    ensures ok ==> c == base.(offers := c.offers, snapshots := c.snapshots, offerQuestIds := c.offerQuestIds) && OffersHold(c, ps)
  {
    c := base.(offers := map[], snapshots := map[], offerQuestIds := map[]);
    for i := 0 to |ps|
      invariant ProductsOk(ps[..i], LicenseKeys(d.licenses), d.starters)
      invariant c == base.(offers := c.offers, snapshots := c.snapshots, offerQuestIds := c.offerQuestIds) && OffersHold(c, ps[..i])
    {
      ProductsNext(ps, i, LicenseKeys(d.licenses), d.starters);
      ok, c := ReadNextProduct(c, quests, ps, i, d);
      if !ok {
        return;
      }
    }
    assert ps[..|ps|] == ps;
    ok := true;
  }

  lemma ProductsNext(ps: seq<Product>, n: nat, known: seq<string>, starters: seq<Starter>)
    requires n < |ps|
    ensures ProductsOk(ps[..n + 1], known, starters) <==>
            ProductsOk(ps[..n], known, starters) && ProductOk(ps[n], known, starters) && ps[n].campaignId !in CampaignIds(ps[..n])
    ensures ProductsOk(ps, known, starters) ==> ProductsOk(ps[..n + 1], known, starters)
  {
    assert ps[..n + 1] == ps[..n] + [ps[n]];
    NextKeys(ps, n, IdOfProduct);
    DistinctNext(CampaignIds(ps[..n]), ps[n].campaignId);
    KeysPrefix(ps, n + 1, IdOfProduct);
  }

  method ReadNextProduct(c: Rights, quests: map<string, seq<int>>, ps: seq<Product>, i: nat, ghost d: Document)
      returns (ok: bool, c': Rights)
    requires i < |ps| && Prepared(c, d, quests) && OffersHold(c, ps[..i])
    ensures ok <==> ProductOk(ps[i], LicenseKeys(d.licenses), d.starters) && ps[i].campaignId !in CampaignIds(ps[..i])
    ensures ok ==> c' == c.(offers := c'.offers, snapshots := c'.snapshots, offerQuestIds := c'.offerQuestIds)
    ensures ok ==> OffersHold(c', ps[..i + 1])
  {
    c' := c;
    var p := ps[i];
    KeysAre(ps[..i], IdOfProduct);
    if p.campaignId in c.offers {
      return false, c';
    }
    var offer;
    ok, offer := ReadProduct(p, quests, c.starters, c.starterKeys, LicenseKeys(d.licenses), d.starters);
    if !ok {
      return;
    }
    OfferKeys(p, c, d, quests);
    var snapshot, questIds := DigestOffer(c.version, offer, quests, c.starters, c.definitions);
    c' := c.(offers := c.offers[p.campaignId := offer], snapshots := c.snapshots[p.campaignId := snapshot],
             offerQuestIds := c.offerQuestIds[p.campaignId := questIds]);
    assert ps[..i + 1] == ps[..i] + [p];
    SnapshotsNext(c, c', p, offer, snapshot, questIds);
    OffersNext(c, c', ps[..i], p);
  }

  lemma SnapshotsNext(c: Rights, c': Rights, p: Product, offer: Offer, snapshot: Snapshot, questIds: seq<int>)
    requires (forall id :: id in c.offers ==> SnapshotRight(c, id)) && offer == OfferOf(p)
    requires SnapshotOf(snapshot, c.version, offer, c.definitions, c.starters) && Lists(questIds, QuestsOf(snapshot.licenses), Below)
    requires c' == c.(offers := c.offers[p.campaignId := offer], snapshots := c.snapshots[p.campaignId := snapshot],
                      offerQuestIds := c.offerQuestIds[p.campaignId := questIds])
    ensures forall id :: id in c'.offers ==> SnapshotRight(c', id)
  {
    forall id | id in c'.offers
      ensures SnapshotRight(c', id)
    {
      if id != p.campaignId {
        assert SnapshotRight(c, id);
      }
    }
  }

  lemma OffersNext(c: Rights, c': Rights, ps: seq<Product>, p: Product)
    requires OffersHold(c, ps) && p.campaignId !in c.offers && c'.offers == c.offers[p.campaignId := OfferOf(p)]
    requires c'.snapshots.Keys == c.snapshots.Keys + {p.campaignId} && c'.offerQuestIds.Keys == c.offerQuestIds.Keys + {p.campaignId}
    requires forall id :: id in c'.offers ==> SnapshotRight(c', id)
    ensures OffersHold(c', ps + [p])
  {
    OfferIds(ps, p);
    forall x | x in ps + [p]
      ensures OfferRight(c', x)
    {
      if x in ps {
        assert OfferRight(c, x);
      }
    }
  }

  lemma OfferIds(ps: seq<Product>, p: Product)
    ensures (set x | x in ps + [p] :: x.campaignId) == (set x | x in ps :: x.campaignId) + {p.campaignId}
    ensures forall x :: x in ps + [p] ==> x in ps || x == p
  {
    var all := ps + [p];
    assert forall x :: x in all <==> x in ps || x == p;
  }

  /** The catalogue of an acceptable document, and of no other. */
  method New(d: Document) returns (r: Answer)
    ensures r.Accepted? <==> DocumentOk(d)
    ensures r.Accepted? ==> Holds(r.rights, d)
  {
    if !VersionOk(d.version) || |d.licenses| > MAX_DEFINITIONS || |d.products| > MAX_DEFINITIONS || |d.starters| > MAX_DEFINITIONS {
      return Refused;
    }
    var ok, quests, filed := ReadLicenses(d.licenses);
    if !ok {
      return Refused;
    }
    var questKeys := map id | id in filed :: Sort(filed[id], TextBelow);
    var definitions := ListDefinitions(quests);
    var starters, starterKeys;
    ok, starters, starterKeys := ReadStarters(d.starters, quests, LicenseKeys(d.licenses));
    if !ok {
      return Refused;
    }
    var base := Rights(d.version, definitions, questKeys, starters, starterKeys, map[], map[], map[]);
    LicensesHeld(base, d.licenses, quests, filed);
    KeysAre(d.starters, KeyOfStarter);
    var c;
    ok, c := ReadProducts(base, quests, d.products, d);
    return if ok then Accepted(c) else Refused;
  }

  lemma LicensesHeld(c: Rights, ds: seq<License>, quests: map<string, seq<int>>, filed: map<int, seq<string>>)
    requires Read(ds, quests, filed, Mappings(ds)) && Lists(c.definitions, set k | k in quests :: License(k, quests[k]), KeyBelow)
    requires c.questKeys == map id | id in filed :: Sort(filed[id], TextBelow)
    ensures DefinitionsHold(c, ds) && forall k :: k in quests ==> License(k, quests[k]) in c.definitions
  {
    KeysAre(ds, KeyOfLicense);
    DefinitionsListed(ds, quests);
    GrantsAre(ds);
    forall id
      ensures id in c.questKeys <==> id in QuestsOf(ds)
    {
      FiledUnder(ds, filed, id);
    }
    forall id | id in c.questKeys
      ensures Lists(c.questKeys[id], KeysFor(ds, id), TextBelow)
    {
      TextsSorted(filed[id]);
    }
  }

  lemma DefinitionsListed(ds: seq<License>, quests: map<string, seq<int>>)
    requires forall k :: k in quests <==> k in LicenseKeys(ds)
    requires forall d :: d in ds ==> d.key in quests && quests[d.key] == Sort(d.questIds, Below)
    ensures (set k | k in quests :: License(k, quests[k])) == (set d | d in ds :: CanonicalLicense(d))
  {
    KeysAre(ds, KeyOfLicense);
    forall k | k in quests
      ensures exists d :: d in ds && CanonicalLicense(d) == License(k, quests[k])
    {
      var d :| d in ds && d.key == k;
      assert CanonicalLicense(d) == License(k, quests[k]);
    }
  }

  lemma FiledUnder(ds: seq<License>, filed: map<int, seq<string>>, id: int)
    requires Filed(filed, Grants(ds))
    ensures id in filed <==> id in QuestsOf(ds)
  {
    if id in filed {
      var k := filed[id][0];
      assert (k, id) in Grants(ds);
    }
    if id in QuestsOf(ds) {
      var d :| d in ds && id in d.questIds;
      assert (d.key, id) in Grants(ds);
    }
  }

  // ------------------------------------------------------------------
  // What the accessors return.

  function KeysForQuest(c: Rights, id: int): seq<string> { if id in c.questKeys then c.questKeys[id] else [] }

  /** The keys of a quest are exactly the definitions that list it. */
  lemma KeysInvertDefinitions(c: Rights, d: Document, key: string, id: int)
    requires Holds(c, d) && DocumentOk(d)
    ensures key in KeysForQuest(c, id) <==> exists x :: x in c.definitions && x.key == key && id in x.questIds
  {
    forall x | x in d.licenses
      ensures id in CanonicalLicense(x).questIds <==> id in x.questIds
    {
      SortKeeps(x.questIds, Below);
      SameElements(CanonicalLicense(x).questIds, x.questIds);
    }
    if key in KeysForQuest(c, id) {
      var x :| x in d.licenses && id in x.questIds && x.key == key;
      assert CanonicalLicense(x) in c.definitions;
    }
    if x :| x in c.definitions && x.key == key && id in x.questIds {
      var y :| y in d.licenses && CanonicalLicense(y) == x;
      assert id in y.questIds && y.key in KeysFor(d.licenses, id);
    }
  }

  /** An offer's starters are exactly those that share a license key with it. */
  lemma OfferDisclosesStarters(c: Rights, d: Document, campaign: int, key: string)
    requires Holds(c, d) && DocumentOk(d) && campaign in c.offers
    ensures key in c.offers[campaign].starterKeys <==>
            key in c.starters && Qualifies(c.starters[key], c.offers[campaign].licenseKeys)
  {
    var p :| p in d.products && p.campaignId == campaign;
    assert OfferRight(c, p);
    SortKeeps(p.licenseKeys, TextBelow);
    SameElements(c.offers[campaign].licenseKeys, p.licenseKeys);
    SortKeeps(p.starterKeys, TextBelow);
    SameElements(c.offers[campaign].starterKeys, p.starterKeys);
    KeysAre(d.starters, KeyOfStarter);
    if key in c.starters {
      var s :| s in d.starters && s.key == key;
      SortKeeps(s.licenseKeys, TextBelow);
      SameElements(c.starters[key].licenseKeys, s.licenseKeys);
      assert Qualifies(c.starters[key], c.offers[campaign].licenseKeys) <==> Qualifies(s, p.licenseKeys);
    }
  }
}
