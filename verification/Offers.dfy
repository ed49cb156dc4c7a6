/** What a catalogue of rights holds, in the words of the document it was made from. */
module Offers {
  import opened Licenses
  import opened Sorting
  import opened Texts

  /** The same texts, in strict order. */
  ghost predicate InTextOrder(sorted: seq<string>, given: seq<string>) {
    (forall k :: k in sorted <==> k in given) && forall i, j :: 0 <= i < j < |sorted| ==> TextBelow(sorted[i], sorted[j])
  }

  /** The same numbers, rising. */
  ghost predicate Rising(sorted: seq<int>, given: seq<int>) {
    (forall n :: n in sorted <==> n in given) && forall i, j :: 0 <= i < j < |sorted| ==> sorted[i] < sorted[j]
  }

  lemma SortedTexts(given: seq<string>)
    requires Distinct(given)
    ensures InTextOrder(Sort(given, TextBelow), given)
  {
    TextsSorted(given);
  }

  lemma SortedNumbers(given: seq<int>)
    requires Distinct(given)
    ensures Rising(Sort(given, Below), given)
  {
    SortOrders(given, Below);
    SortKeeps(given, Below);
    SameElements(Sort(given, Below), given);
  }

  /** The offer says what its product says; a price or a time that is not given is zero. */
  ghost predicate OfferTells(o: Offer, p: Product) {
    && o.campaignId == p.campaignId && o.enabled == p.enabled
    && (if p.price.Just? then o.price == p.price.value else o.price == 0)
    && (if p.startsAt.Just? then o.startsAt == p.startsAt.value else o.startsAt == -62135596800_000000000)
    && (if p.endsAt.Just? then o.endsAt == p.endsAt.value else o.endsAt == -62135596800_000000000)
    && InTextOrder(o.licenseKeys, p.licenseKeys) && InTextOrder(o.starterKeys, p.starterKeys)
  }

  /** An enabled offer has a price and a time span that is not empty. */
  lemma OffersTell(c: Rights, d: Document, p: Product)
    requires Holds(c, d) && DocumentOk(d) && p in d.products
    ensures p.campaignId in c.offers && OfferTells(c.offers[p.campaignId], p)
    ensures var o := c.offers[p.campaignId]; o.enabled ==> 1 <= o.price <= 65535 && o.startsAt < o.endsAt
  {
    assert OfferRight(c, p) && ProductOk(p, LicenseKeys(d.licenses), d.starters);
    SortedTexts(p.licenseKeys);
    SortedTexts(p.starterKeys);
  }

  /** And no offer is without a product. */
  lemma OffersHave(c: Rights, d: Document, campaign: int) returns (p: Product)
    requires Holds(c, d) && campaign in c.offers
    ensures p in d.products && p.campaignId == campaign
  {
    p :| p in d.products && p.campaignId == campaign;
  }

  ghost predicate LicenseTells(x: License, d: License) { x.key == d.key && Rising(x.questIds, d.questIds) }

  /** Each license of the document has its definition, */
  lemma DefinitionOf(c: Rights, d: Document, l: License) returns (x: License)
    requires Holds(c, d) && DocumentOk(d) && l in d.licenses
    ensures x in c.definitions && LicenseTells(x, l)
  {
    x := CanonicalLicense(l);
    assert LicenseOk(l);
    SortedNumbers(l.questIds);
  }

  /** and each definition its license; */
  lemma LicenseOf(c: Rights, d: Document, x: License) returns (l: License)
    requires Holds(c, d) && DocumentOk(d) && x in c.definitions
    ensures l in d.licenses && LicenseTells(x, l)
  {
    l :| l in d.licenses && x == CanonicalLicense(l);
    assert LicenseOk(l);
    SortedNumbers(l.questIds);
  }

  /** they stand by key, which has only one. */
  lemma DefinitionsRise(c: Rights, d: Document, i: nat, j: nat)
    requires Holds(c, d) && i < j < |c.definitions|
    ensures TextBelow(c.definitions[i].key, c.definitions[j].key) && c.definitions[i].key != c.definitions[j].key
  {
    assert KeyBelow(c.definitions[i], c.definitions[j]);
    TextIrreflexive(c.definitions[i].key);
  }

  lemma OneDefinition(c: Rights, d: Document, x: License, y: License)
    requires Holds(c, d) && x in c.definitions && y in c.definitions && x.key == y.key
    ensures x == y
  {
    var i :| 0 <= i < |c.definitions| && c.definitions[i] == x;
    var j :| 0 <= j < |c.definitions| && c.definitions[j] == y;
    if i < j {
      DefinitionsRise(c, d, i, j);
    } else if j < i {
      DefinitionsRise(c, d, j, i);
    }
  }

  ghost predicate StarterTells(x: Starter, s: Starter) {
    && x.key == s.key && x.itemId == s.itemId && x.quantity == s.quantity
    && InTextOrder(x.licenseKeys, s.licenseKeys) && Rising(x.legacy, s.legacy)
  }

  lemma StartersTell(c: Rights, d: Document, s: Starter)
    requires Holds(c, d) && DocumentOk(d) && s in d.starters
    ensures s.key in c.starters && StarterTells(c.starters[s.key], s)
  {
    assert StarterOk(s, LicenseKeys(d.licenses));
    SortedTexts(s.licenseKeys);
    SortedNumbers(s.legacy);
  }

  /** A snapshot holds the offer's own definitions, in the order of its keys. */
  ghost predicate SnapshotTells(s: Snapshot, c: Rights, version: string, offer: Offer) {
    && s.version == version && s.offer == offer && |s.licenses| == |offer.licenseKeys|
    && forall i :: 0 <= i < |s.licenses| ==> s.licenses[i] in c.definitions && s.licenses[i].key == offer.licenseKeys[i]
  }

  lemma SnapshotsTell(c: Rights, d: Document, p: Product)
    requires Holds(c, d) && DocumentOk(d) && p in d.products
    ensures p.campaignId in c.snapshots && p.campaignId in c.offerQuestIds && p.campaignId in c.offers
    ensures SnapshotTells(c.snapshots[p.campaignId], c, d.version, c.offers[p.campaignId])
  {
    assert OfferRight(c, p) && SnapshotRight(c, p.campaignId);
  }

  lemma QuestListed(c: Rights, d: Document, p: Product, l: License, id: int)
    requires Holds(c, d) && DocumentOk(d) && p in d.products && l in d.licenses && l.key in p.licenseKeys && id in l.questIds
    ensures p.campaignId in c.offerQuestIds && id in c.offerQuestIds[p.campaignId]
  {
    SnapshotsTell(c, d, p);
    OffersTell(c, d, p);
    var s := c.snapshots[p.campaignId];
    var i :| 0 <= i < |s.offer.licenseKeys| && s.offer.licenseKeys[i] == l.key;
    var x := DefinitionOf(c, d, l);
    OneDefinition(c, d, x, s.licenses[i]);
    assert s.licenses[i] in s.licenses && id in QuestsOf(s.licenses);
    assert SnapshotRight(c, p.campaignId);
  }

  /** A quest of an offer is that of a definition whose key the offer names. */
  lemma ListedDefinition(c: Rights, d: Document, p: Product, id: int) returns (x: License)
    requires Holds(c, d) && DocumentOk(d) && p in d.products
    requires p.campaignId in c.offerQuestIds && id in c.offerQuestIds[p.campaignId]
    ensures p.campaignId in c.offers && x in c.definitions && x.key in c.offers[p.campaignId].licenseKeys && id in x.questIds
  {
    SnapshotsTell(c, d, p);
    assert SnapshotRight(c, p.campaignId);
    x := SnapshotDefinition(c.snapshots[p.campaignId], c, d.version, c.offers[p.campaignId], id);
  }

  lemma SnapshotDefinition(s: Snapshot, c: Rights, version: string, offer: Offer, id: int) returns (x: License)
    requires SnapshotTells(s, c, version, offer) && id in QuestsOf(s.licenses)
    ensures x in c.definitions && x.key in offer.licenseKeys && id in x.questIds
  {
    x :| x in s.licenses && id in x.questIds;
    var i :| 0 <= i < |s.licenses| && s.licenses[i] == x;
  }

  lemma ListedQuest(c: Rights, d: Document, p: Product, id: int) returns (l: License)
    requires Holds(c, d) && DocumentOk(d) && p in d.products
    requires p.campaignId in c.offerQuestIds && id in c.offerQuestIds[p.campaignId]
    ensures l in d.licenses && l.key in p.licenseKeys && id in l.questIds
  {
    var x := ListedDefinition(c, d, p, id);
    OffersTell(c, d, p);
    l := LicenseOf(c, d, x);
  }

  /** The quests of an offer are those of the licenses its product names. */
  lemma OfferQuests(c: Rights, d: Document, p: Product, id: int)
    requires Holds(c, d) && DocumentOk(d) && p in d.products
    ensures p.campaignId in c.offerQuestIds
    ensures id in c.offerQuestIds[p.campaignId] <==> exists l :: l in d.licenses && l.key in p.licenseKeys && id in l.questIds
  {
    SnapshotsTell(c, d, p);
    if id in c.offerQuestIds[p.campaignId] {
      var l := ListedQuest(c, d, p, id);
    }
    if l :| l in d.licenses && l.key in p.licenseKeys && id in l.questIds {
      QuestListed(c, d, p, l, id);
    }
  }
}
