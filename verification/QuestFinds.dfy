/** Which records the client finds in a restored quest list: the added ones, and those that were there before. */
module QuestFinds {
  import opened Bytes
  import opened Layout
  import opened QuestInfos
  import opened QuestDrafts
  import opened StageBodies
  import opened Sorting

  /** A stored stage carries its quest's ID. */
  lemma StageId(b: seq<byte>, p: nat, body: Body, id: nat)
    requires Usable(body, id) && StageAt(b, p, body)
    ensures p + RECORD_SIZE <= |b| && Word(b, p + ID_FIELD) == id
  {
    var stage := StageBytes(p, body);
    var record := RecordAt(p, body.record);
    assert stage[..RECORD_SIZE] == record;
    SliceElsewhere(body.record, TEXTS, LongBytes(p + RECORD_SIZE), ID_FIELD, ID_FIELD + 2);
    PartOf(b, p, StageSize(body), ID_FIELD, 2);
    PartOf(stage, 0, RECORD_SIZE, ID_FIELD, 2);
    WordSame(b, p + ID_FIELD, body.record, ID_FIELD);
  }

  /** The ID that has slot s of a new category. */
  lemma SlotOwner(upper: nat, s: nat, k: nat) returns (j: nat)
    requires upper == Upper(k) && k < 40000 && s < 100
    ensures j < IDS && Upper(j) == upper && j % 100 == s && j / 100 == k / 100
    ensures upper % 100 == 0 && upper == j / 100 * 100 + 100
  {
    UpperIs(k);
    j := k / 100 * 100 + s;
    assert j / 100 == k / 100;
    UpperIs(j);
  }

  /** One entry of what is listed: the array of the ID's category, its slot, and its record if it has one. */
  ghost predicate Entry(b: seq<byte>, size: nat, start: nat, recs: map<nat, nat>, id: nat) {
    && start + ARRAY_SIZE <= |b| && SlotRight(b, start + id % 100 * 4, recs, id)
    && (id in recs ==> size <= recs[id] && recs[id] + RECORD_SIZE <= |b| && Word(b, recs[id] + ID_FIELD) == id)
  }

  lemma EntryListed(b: seq<byte>, size: nat, arrays: map<nat, nat>, recs: map<nat, nat>, bodies: map<nat, Body>, id: nat)
    requires Listed(b, |b|, size, arrays, recs, bodies) && id < IDS && Upper(id) in arrays
    ensures Entry(b, size, arrays[Upper(id)], recs, id)
  {
    assert SlotRight(b, Slot(arrays, id), recs, id);
    if id in recs {
      assert Placed(b, |b|, size, arrays, recs[id], id, bodies);
      StageId(b, recs[id], bodies[id], id);
    }
  }

  /** A search that comes to the slot finds the record of the slot's owner, for the owner only. */
  lemma EntryFound(b: seq<byte>, size: nat, start: nat, recs: map<nat, nat>, j: nat, upper: nat, id: nat)
    requires Entry(b, size, start, recs, j) && |b| <= MAX_DATA && HEAD <= size && j % 100 == id % 100
    ensures SlotOf(b, Category(upper, SLOTS, start), id).Ok? <==> id == j && id in recs
    ensures id == j && id in recs ==> SlotOf(b, Category(upper, SLOTS, start), id) == Ok(recs[id]) && size <= recs[id]
  {
  }

  /** What the search finds in a new category: the record of the ID that owns the slot. */
  lemma NewFound(b: seq<byte>, size: nat, arrays: map<nat, nat>, recs: map<nat, nat>, bodies: map<nat, Body>,
                 row: Category, k: nat, id: nat)
    requires Listed(b, |b|, size, arrays, recs, bodies) && |b| <= MAX_DATA && HEAD <= size && NewRow(arrays, row)
    requires Upper(k) == row.upper && k < 40000
    ensures SlotOf(b, row, id).Ok? ==> id in recs && SlotOf(b, row, id) == Ok(recs[id]) && size <= recs[id]
    ensures id < IDS ==> (SlotOf(b, row, id).Ok? <==> id in recs && Upper(id) == row.upper)
  {
    var j := SlotOwner(row.upper, id % 100, k);
    EntryListed(b, size, arrays, recs, bodies, j);
    EntryFound(b, size, row.ptr, recs, j, row.upper, id);
    if id < IDS && Upper(id) == row.upper {
      UpperInjective(id, j);
    }
  }

  /** The first category at or above an ID is a new one if one lies below every old candidate. */
  lemma FirstIsNew(rows: seq<Category>, merged: seq<Category>, arrays: map<nat, nat>, id: nat, u: nat) returns (row: Category)
    requires Merged(merged, rows, arrays) && u in arrays && id <= u && !Taken(rows, u)
    requires forall other :: other in rows && id <= other.upper ==> u <= other.upper
    ensures First(merged, id) == Ok(row) && NewRow(arrays, row) && row.upper <= u
  {
    var own := Category(u, SLOTS, arrays[u]);
    assert NewRow(arrays, own) && own in merged;
    FirstExists(merged, id);
    row := First(merged, id).value;
    FirstIsLeast(merged, id, row);
  }

  /** An old category lies between an ID and its new category. */
  predicate OldBetween(rows: seq<Category>, id: nat) {
    exists row :: row in rows && id <= row.upper < Upper(id)
  }

  /** The new category of some body lies between an ID and a bound. */
  predicate NewBetween(bodies: map<nat, Body>, id: nat, upper: nat) {
    exists k :: k in bodies && id <= Upper(k) < upper
  }

  /** The IDs the client can ask for. */
  predicate Numbered(bodies: map<nat, Body>) {
    forall id :: id in bodies ==> 0 < id < 40000
  }

  /** The ID's own new category is the first one exactly when no new one is below it. */
  lemma FirstBetween(merged: seq<Category>, arrays: map<nat, nat>, bodies: map<nat, Body>, id: nat, row: Category, upper: nat)
    requires Ascending(merged, UpperBelow) && First(merged, id) == Ok(row) && NewRow(arrays, row) && row.upper <= upper
    requires forall u :: u in arrays ==> Category(u, SLOTS, arrays[u]) in merged
    requires forall u :: u in arrays <==> exists k :: k in bodies && Upper(k) == u
    ensures row.upper == upper <==> !NewBetween(bodies, id, upper)
  {
    FirstIsLeast(merged, id, row);
    if k :| k in bodies && id <= Upper(k) < upper {
      var u := Upper(k);
      assert Category(u, SLOTS, arrays[u]) in merged;
    }
    if row.upper != upper {
      var k :| k in bodies && Upper(k) == row.upper;
    }
  }

  lemma FindIs(b: seq<byte>, merged: seq<Category>, id: nat, row: Category)
    requires Categories(b) == Ok(merged) && First(merged, id) == Ok(row) && 0 < id < 40000
    ensures Find(b, id) == SlotOf(b, row, id)
  {
  }

  /** When a new category comes before all old ones, the client finds the added quests of the first such category. */
  lemma NewFirst(source: seq<byte>, b: seq<byte>, rows: seq<Category>, merged: seq<Category>,
                 arrays: map<nat, nat>, recs: map<nat, nat>, bodies: map<nat, Body>, id: nat, u: nat) returns (row: Category)
    requires Restored(source, b, rows, merged, arrays, recs, bodies) && Numbered(bodies)
    requires 0 < id < 40000 && u in arrays && id <= u
    requires forall other :: other in rows && id <= other.upper ==> u <= other.upper
    ensures First(merged, id) == Ok(row) && NewRow(arrays, row) && row.upper <= u
    ensures Find(b, id).Ok? ==> id in recs && Find(b, id) == Ok(recs[id]) && |source| <= recs[id]
    ensures Find(b, id).Ok? <==> id in recs && Upper(id) == row.upper
  {
    row := FirstIsNew(rows, merged, arrays, id, u);
    var k :| k in bodies && Upper(k) == row.upper;
    NewFound(b, |source|, arrays, recs, bodies, row, k, id);
    FindIs(b, merged, id, row);
  }

  lemma Unobstructed(source: seq<byte>, b: seq<byte>, rows: seq<Category>, merged: seq<Category>,
                     arrays: map<nat, nat>, recs: map<nat, nat>, bodies: map<nat, Body>, id: nat)
    requires Restored(source, b, rows, merged, arrays, recs, bodies) && Numbered(bodies)
    requires id in bodies && !OldBetween(rows, id)
    ensures Find(b, id).Ok? <==> !NewBetween(bodies, id, Upper(id))
    ensures Find(b, id).Ok? ==> Find(b, id) == Ok(recs[id])
  {
    UpperIs(id);
    var row := NewFirst(source, b, rows, merged, arrays, recs, bodies, id, Upper(id));
    FirstBetween(merged, arrays, bodies, id, row, Upper(id));
  }

  /** The first category is an old one: it stays the first exactly when no new one lies below it. */
  lemma OldFirst(source: seq<byte>, b: seq<byte>, rows: seq<Category>, merged: seq<Category>,
                 arrays: map<nat, nat>, recs: map<nat, nat>, bodies: map<nat, Body>, id: nat, row: Category)
    requires Restored(source, b, rows, merged, arrays, recs, bodies) && Numbered(bodies)
    requires 0 < id < 40000 && First(rows, id) == Ok(row)
    ensures !NewBetween(bodies, id, row.upper) ==> Find(b, id) == SlotOf(b, row, id)
    ensures NewBetween(bodies, id, row.upper) && Find(b, id).Ok? ==> id in recs && |source| <= Find(b, id).value && Upper(id) < row.upper
  {
    FirstMerged(rows, merged, id, row);
    if NewBetween(bodies, id, row.upper) {
      var k :| k in bodies && id <= Upper(k) < row.upper;
      FirstIsLeast(rows, id, row);
      var _ := NewFirst(source, b, rows, merged, arrays, recs, bodies, id, Upper(k));
    } else {
      forall x | x in merged && x !in rows
        ensures !(id <= x.upper < row.upper)
      {
        var k :| k in bodies && Upper(k) == x.upper;
      }
    }
  }

  /** An old slot is read from the restored list as it was. */
  lemma OldSlotRead(source: seq<byte>, b: seq<byte>, row: Category, id: nat)
    requires HEAD <= |source| <= |b| && b[24..|source|] == source[24..] && CategoryOk(source, row) && id % SLOTS < row.count
    ensures row.ptr + id % SLOTS * 4 + 4 <= |source|
    ensures Long(b, row.ptr + id % SLOTS * 4) == Long(source, row.ptr + id % SLOTS * 4)
  {
    var slot := row.ptr + id % SLOTS * 4;
    assert source[24..] == source[24..|source|];
    MiddleSlice(source, b, 24, |source|, slot, slot + 4);
    LongSame(b, slot, source, slot);
  }

  /** The old slot of the ID already leads to a position. */
  predicate LeadsTo(source: seq<byte>, row: Category, id: nat, p: nat) {
    && id % SLOTS < row.count && row.ptr + id % SLOTS * 4 + 4 <= |source|
    && Long(source, row.ptr + id % SLOTS * 4) == p
  }

  /** The old slot leads nowhere, or to a place for a whole record in the list. */
  ghost predicate LeadsInside(source: seq<byte>, row: Category, id: nat) {
    forall p: nat :: LeadsTo(source, row, id, p) ==> p < HEAD || p + RECORD_SIZE <= |source|
  }

  /** Then the client finds by it in the restored list what it found before. */
  lemma SlotKept(source: seq<byte>, b: seq<byte>, row: Category, id: nat)
    requires HEAD <= |source| <= |b| && b[24..|source|] == source[24..] && CategoryOk(source, row) && LeadsInside(source, row, id)
    ensures SlotOf(b, row, id) == SlotOf(source, row, id)
  {
    if id % SLOTS < row.count {
      OldSlotRead(source, b, row, id);
      var p := Long(source, row.ptr + id % SLOTS * 4);
      assert LeadsTo(source, row, id, p);
      if HEAD <= p {
        IdKept(source, b, p);
      }
    }
  }

  lemma IdKept(source: seq<byte>, b: seq<byte>, p: nat)
    requires HEAD <= |source| <= |b| && b[24..|source|] == source[24..] && HEAD <= p && p + RECORD_SIZE <= |source|
    ensures Word(b, p + ID_FIELD) == Word(source, p + ID_FIELD)
  {
    assert source[24..] == source[24..|source|];
    MiddleSlice(source, b, 24, |source|, p + ID_FIELD, p + ID_FIELD + 2);
    WordSame(b, p + ID_FIELD, source, p + ID_FIELD);
  }

  lemma OwnSlotOf(source: seq<byte>, b: seq<byte>, row: Category, id: nat, rec: nat)
    requires HEAD <= |source| <= |b| && b[24..|source|] == source[24..] && CategoryOk(source, row)
    requires HEAD <= rec && rec + RECORD_SIZE <= |b| && Word(b, rec + ID_FIELD) == id
    ensures SlotOf(b, row, id) == Ok(rec) <==> LeadsTo(source, row, id, rec)
  {
    if id % SLOTS < row.count {
      OldSlotRead(source, b, row, id);
    }
  }

  lemma RecordStored(b: seq<byte>, size: nat, arrays: map<nat, nat>, recs: map<nat, nat>, bodies: map<nat, Body>, id: nat)
    requires Listed(b, |b|, size, arrays, recs, bodies) && id in recs
    ensures id in bodies && Usable(bodies[id], id) && StageAt(b, recs[id], bodies[id])
    ensures size <= recs[id] && recs[id] + RECORD_SIZE <= |b| && Word(b, recs[id] + ID_FIELD) == id
  {
    assert Placed(b, |b|, size, arrays, recs[id], id, bodies);
    StageId(b, recs[id], bodies[id], id);
  }

  lemma Obstructed(source: seq<byte>, b: seq<byte>, rows: seq<Category>, merged: seq<Category>,
                   arrays: map<nat, nat>, recs: map<nat, nat>, bodies: map<nat, Body>, id: nat, row: Category)
    requires Restored(source, b, rows, merged, arrays, recs, bodies) && Numbered(bodies)
    requires id in bodies && First(rows, id) == Ok(row) && row.upper < Upper(id)
    ensures Find(b, id) == if NewBetween(bodies, id, row.upper) then Failed else SlotOf(b, row, id)
  {
    OldFirst(source, b, rows, merged, arrays, recs, bodies, id, row);
  }

  /** The first category of an old list is a sound one. */
  lemma FirstSound(source: seq<byte>, rows: seq<Category>, id: nat, row: Category)
    requires Categories(source) == Ok(rows) && First(rows, id) == Ok(row)
    ensures CategoryOk(source, row)
  {
    FirstIn(rows, id, row);
    CategoriesSound(source, rows);
  }

  // ------------------------------------------------------------------
  // The same, for the restoration of a list.

  /** Where the restoration puts the record of an added quest. */
  ghost function RecordOf(source: seq<byte>, bodies: map<nat, Body>, id: nat): nat
    requires BodiesOk(bodies) && AllAccepted(source, bodies) && id in bodies
  {
    BuiltGrown(source, bodies);
    Built(source, bodies).recs[id]
  }

  /** Every added quest has a record of its own in the restored list, with the stage's bytes. */
  lemma RecordAdded(source: seq<byte>, bodies: map<nat, Body>, id: nat)
    requires BodiesOk(bodies) && Readable(source, bodies) && id in bodies
    ensures |source| <= RecordOf(source, bodies, id) && StageAt(Restoration(source, bodies), RecordOf(source, bodies, id), bodies[id])
  {
    RestoredRecords(source, bodies);
    var p := Built(source, bodies);
    RecordStored(Restoration(source, bodies), |source|, p.arrays, p.recs, bodies, id);
  }

  /**
   * When no old category lies between the ID of an added quest and its new category, the client finds the quest
   * exactly when no other new category does, and then at its own record.
   */
  lemma FoundIfUnobstructed(source: seq<byte>, bodies: map<nat, Body>, id: nat)
    requires BodiesOk(bodies) && Readable(source, bodies) && Numbered(bodies)
    requires id in bodies && !OldBetween(Categories(source).value, id)
    ensures Find(Restoration(source, bodies), id).Ok? <==> !NewBetween(bodies, id, Upper(id))
    ensures Find(Restoration(source, bodies), id).Ok? ==>
              Find(Restoration(source, bodies), id) == Ok(RecordOf(source, bodies, id))
  {
    RestorationHolds(source, bodies);
    var p := Built(source, bodies);
    Unobstructed(source, Restoration(source, bodies), Categories(source).value, BuiltRows(source, bodies), p.arrays, p.recs, bodies, id);
  }

  /**
   * When one does, the client finds the quest exactly when the first such category comes before all new ones and
   * its slot leads to a record of the quest, in the list as it was unless the slot leads out of that; and it finds
   * the quest's own record only if the old slot led to the place where that was put.
   */
  lemma FoundIfObstructed(source: seq<byte>, bodies: map<nat, Body>, id: nat, row: Category)
    requires BodiesOk(bodies) && Readable(source, bodies) && Numbered(bodies)
    requires id in bodies && First(Categories(source).value, id) == Ok(row) && row.upper < Upper(id)
    ensures LeadsInside(source, row, id) ==>
              (Find(Restoration(source, bodies), id).Ok? <==> !NewBetween(bodies, id, row.upper) && SlotOf(source, row, id).Ok?)
    ensures Find(Restoration(source, bodies), id) ==
            if NewBetween(bodies, id, row.upper) then Failed else SlotOf(Restoration(source, bodies), row, id)
    ensures Find(Restoration(source, bodies), id) == Ok(RecordOf(source, bodies, id)) <==>
            !NewBetween(bodies, id, row.upper) && LeadsTo(source, row, id, RecordOf(source, bodies, id))
  {
    ObstructedFind(source, bodies, id, row);
    OwnSlot(source, bodies, id, row);
    OldSlotAsBefore(source, bodies, id, row);
  }

  lemma ObstructedFind(source: seq<byte>, bodies: map<nat, Body>, id: nat, row: Category)
    requires BodiesOk(bodies) && Readable(source, bodies) && Numbered(bodies)
    requires id in bodies && First(Categories(source).value, id) == Ok(row) && row.upper < Upper(id)
    ensures Find(Restoration(source, bodies), id) ==
            if NewBetween(bodies, id, row.upper) then Failed else SlotOf(Restoration(source, bodies), row, id)
  {
    RestorationHolds(source, bodies);
    var p := Built(source, bodies);
    Obstructed(source, Restoration(source, bodies), Categories(source).value, BuiltRows(source, bodies), p.arrays, p.recs, bodies, id, row);
  }

  lemma OwnSlot(source: seq<byte>, bodies: map<nat, Body>, id: nat, row: Category)
    requires BodiesOk(bodies) && Readable(source, bodies) && id in bodies && First(Categories(source).value, id) == Ok(row)
    ensures SlotOf(Restoration(source, bodies), row, id) == Ok(RecordOf(source, bodies, id)) <==>
            LeadsTo(source, row, id, RecordOf(source, bodies, id))
  {
    RecordPlace(source, bodies, id);
    SourceKept(source, bodies);
    FirstSound(source, Categories(source).value, id, row);
    OwnSlotOf(source, Restoration(source, bodies), row, id, RecordOf(source, bodies, id));
  }

  lemma RecordPlace(source: seq<byte>, bodies: map<nat, Body>, id: nat)
    requires BodiesOk(bodies) && Readable(source, bodies) && id in bodies
    ensures var b, rec := Restoration(source, bodies), RecordOf(source, bodies, id);
            HEAD <= rec && rec + RECORD_SIZE <= |b| && Word(b, rec + ID_FIELD) == id
  {
    RestoredRecords(source, bodies);
    var p := Built(source, bodies);
    RecordIdStored(Restoration(source, bodies), |source|, p.arrays, p.recs, bodies, id);
  }

  lemma RecordIdStored(b: seq<byte>, size: nat, arrays: map<nat, nat>, recs: map<nat, nat>, bodies: map<nat, Body>, id: nat)
    requires Listed(b, |b|, size, arrays, recs, bodies) && id in recs
    ensures size <= recs[id] && recs[id] + RECORD_SIZE <= |b| && Word(b, recs[id] + ID_FIELD) == id
  {
    RecordStored(b, size, arrays, recs, bodies, id);
  }

  lemma RestoredRecords(source: seq<byte>, bodies: map<nat, Body>)
    requires BodiesOk(bodies) && Readable(source, bodies)
    ensures var p, b := Built(source, bodies), Restoration(source, bodies);
            HEAD <= |source| && p.recs.Keys == bodies.Keys && Listed(b, |b|, |source|, p.arrays, p.recs, bodies)
  {
    RestorationHolds(source, bodies);
  }

  lemma SourceKept(source: seq<byte>, bodies: map<nat, Body>)
    requires BodiesOk(bodies) && Readable(source, bodies)
    ensures HEAD <= |source| <= |Restoration(source, bodies)| && Restoration(source, bodies)[24..|source|] == source[24..]
  {
    RestorationHolds(source, bodies);
  }

  lemma OldSlotAsBefore(source: seq<byte>, bodies: map<nat, Body>, id: nat, row: Category)
    requires BodiesOk(bodies) && Readable(source, bodies) && First(Categories(source).value, id) == Ok(row)
    ensures LeadsInside(source, row, id) ==> SlotOf(Restoration(source, bodies), row, id) == SlotOf(source, row, id)
  {
    SourceKept(source, bodies);
    FirstSound(source, Categories(source).value, id, row);
    if LeadsInside(source, row, id) {
      SlotKept(source, Restoration(source, bodies), row, id);
    }
  }

  /** Every slot of the list leads to somewhere in it, or nowhere. */
  ghost predicate SlotsInside(source: seq<byte>) {
    forall row, id: nat, p: nat :: Categories(source).Ok? && row in Categories(source).value && LeadsTo(source, row, id, p) ==> p < |source|
  }

  /**
   * In a list whose slots lead into it, an added quest is found at its own record exactly when no category, old or
   * new, lies between its ID and its own category.
   */
  lemma FindsAdded(source: seq<byte>, bodies: map<nat, Body>, id: nat)
    requires BodiesOk(bodies) && Readable(source, bodies) && Numbered(bodies) && SlotsInside(source) && id in bodies
    ensures Find(Restoration(source, bodies), id) == Ok(RecordOf(source, bodies, id)) <==>
            !OldBetween(Categories(source).value, id) && !NewBetween(bodies, id, Upper(id))
  {
    var rows := Categories(source).value;
    RecordAdded(source, bodies, id);
    if OldBetween(rows, id) {
      var row := FirstOld(source, rows, id);
      FoundIfObstructed(source, bodies, id, row);
    } else {
      FoundIfUnobstructed(source, bodies, id);
    }
  }

  lemma FirstOld(source: seq<byte>, rows: seq<Category>, id: nat) returns (row: Category)
    requires Categories(source) == Ok(rows) && OldBetween(rows, id)
    ensures First(rows, id) == Ok(row) && row in rows && row.upper < Upper(id)
  {
    var other :| other in rows && id <= other.upper < Upper(id);
    CategoriesSound(source, rows);
    FirstExists(rows, id);
    row := First(rows, id).value;
    FirstIsLeast(rows, id, row);
  }

  /** Every slot leads nowhere, or to a place for a whole record in the list. */
  ghost predicate SlotsWhole(source: seq<byte>) {
    forall row, id: nat :: Categories(source).Ok? && row in Categories(source).value ==> LeadsInside(source, row, id)
  }

  /**
   * The client finds an added quest: nothing lies in between, or an old slot leads to a record of the quest in b.
   */
  ghost predicate Reached(source: seq<byte>, b: seq<byte>, bodies: map<nat, Body>, id: nat)
    requires Categories(source).Ok?
  {
    var rows := Categories(source).value;
    if OldBetween(rows, id) then
      exists row :: First(rows, id) == Ok(row) && !NewBetween(bodies, id, row.upper) && SlotOf(b, row, id).Ok?
    else !NewBetween(bodies, id, Upper(id))
  }

  /** No body is refused, and the restored list is not too long. */
  ghost predicate RoomFor(source: seq<byte>, bodies: map<nat, Body>) {
    && AllAccepted(source, bodies) && |Restoration(source, bodies)| <= MAX_DATA && Numbered(bodies)
    && |BuiltRows(source, bodies)| <= MAX_CATEGORIES
  }

  /** The client finds every added quest. */
  ghost predicate AllReached(source: seq<byte>, b: seq<byte>, bodies: map<nat, Body>)
    requires Categories(source).Ok?
  {
    forall id :: id in bodies ==> Reached(source, b, bodies, id)
  }

  /**
   * When a restoration succeeds: of a list whose slots lead to whole records of it this can be seen from the list as
   * it is; where a slot leads out of the list, it depends on what is put there.
   */
  lemma RestorableIff(source: seq<byte>, bodies: map<nat, Body>)
    requires BodiesOk(bodies)
    ensures SlotsWhole(source) ==> (Restorable(source, bodies) <==> RoomFor(source, bodies) && AllReached(source, source, bodies))
    ensures Restorable(source, bodies) <==> RoomFor(source, bodies) && AllReached(source, Restoration(source, bodies), bodies)
  {
    RestorableFinds(source, bodies);
    if RoomFor(source, bodies) {
      AllReachedIff(source, bodies);
    }
  }

  lemma RestorableFinds(source: seq<byte>, bodies: map<nat, Body>)
    requires BodiesOk(bodies)
    ensures Restorable(source, bodies) <==>
            RoomFor(source, bodies) && forall id :: id in bodies ==> Find(Restoration(source, bodies), id).Ok?
  {
    if Restorable(source, bodies) {
      RestorableReadable(source, bodies);
    }
  }

  lemma AllReachedIff(source: seq<byte>, bodies: map<nat, Body>)
    requires BodiesOk(bodies) && RoomFor(source, bodies)
    ensures var found := forall id :: id in bodies ==> Find(Restoration(source, bodies), id).Ok?;
            && (found <==> AllReached(source, Restoration(source, bodies), bodies))
            && (SlotsWhole(source) ==> (found <==> AllReached(source, source, bodies)))
  {
    forall id | id in bodies
      ensures Find(Restoration(source, bodies), id).Ok? <==> Reached(source, Restoration(source, bodies), bodies, id)
      ensures SlotsWhole(source) ==> (Find(Restoration(source, bodies), id).Ok? <==> Reached(source, source, bodies, id))
    {
      ReachedIff(source, bodies, id);
    }
  }

  lemma ReachedIff(source: seq<byte>, bodies: map<nat, Body>, id: nat)
    requires BodiesOk(bodies) && Readable(source, bodies) && Numbered(bodies) && id in bodies
    ensures Find(Restoration(source, bodies), id).Ok? <==> Reached(source, Restoration(source, bodies), bodies, id)
    ensures SlotsWhole(source) ==> (Find(Restoration(source, bodies), id).Ok? <==> Reached(source, source, bodies, id))
  {
    var rows := Categories(source).value;
    if OldBetween(rows, id) {
      var row := FirstOld(source, rows, id);
      FoundIfObstructed(source, bodies, id, row);
      assert SlotsWhole(source) ==> LeadsInside(source, row, id);
    } else {
      FoundIfUnobstructed(source, bodies, id);
    }
  }

  /**
   * A quest the client found before is found at the same place, with the same record, exactly when no new
   * category lies between its ID and the category that holds it; otherwise it is hidden.
   */
  lemma KeepsOld(source: seq<byte>, bodies: map<nat, Body>, id: nat, row: Category, p: nat)
    requires BodiesOk(bodies) && Readable(source, bodies) && Numbered(bodies)
    requires Find(source, id) == Ok(p) && First(Categories(source).value, id) == Ok(row)
    ensures Find(Restoration(source, bodies), id) == Ok(p) <==> !NewBetween(bodies, id, row.upper)
    ensures NewBetween(bodies, id, row.upper) && id !in bodies ==> Find(Restoration(source, bodies), id) == Failed
    ensures p + RECORD_SIZE <= |source| <= |Restoration(source, bodies)|
    ensures Restoration(source, bodies)[p..p + RECORD_SIZE] == source[p..p + RECORD_SIZE]
  {
    RestorationHolds(source, bodies);
    var b, q := Restoration(source, bodies), Built(source, bodies);
    OldRecord(source, b, Categories(source).value, row, id, p);
    OldFirst(source, b, Categories(source).value, BuiltRows(source, bodies), q.arrays, q.recs, bodies, id, row);
  }

  /** An old slot and the record it leads to are untouched. */
  lemma OldRecord(source: seq<byte>, b: seq<byte>, rows: seq<Category>, row: Category, id: nat, p: nat)
    requires Categories(source) == Ok(rows) && HEAD <= |source| <= |b| && b[24..|source|] == source[24..]
    requires Find(source, id) == Ok(p) && First(rows, id) == Ok(row)
    ensures Inside(source, p, RECORD_SIZE) && SlotOf(b, row, id) == Ok(p)
    ensures b[p..p + RECORD_SIZE] == source[p..p + RECORD_SIZE]
  {
    FirstIn(rows, id, row);
    CategoriesSound(source, rows);
    assert source[24..] == source[24..|source|];
    OldSlot(source, b, row, id, p);
  }

  lemma OldSlot(source: seq<byte>, b: seq<byte>, row: Category, id: nat, p: nat)
    requires HEAD <= |source| <= |b| && b[24..|source|] == source[24..|source|]
    requires SlotOf(source, row, id) == Ok(p) && CategoryOk(source, row)
    ensures Inside(source, p, RECORD_SIZE) && SlotOf(b, row, id) == Ok(p)
    ensures b[p..p + RECORD_SIZE] == source[p..p + RECORD_SIZE]
  {
    var size, slot := |source|, row.ptr + id % SLOTS * 4;
    MiddleSlice(source, b, 24, size, slot, slot + 4);
    LongSame(b, slot, source, slot);
    MiddleSlice(source, b, 24, size, p, p + RECORD_SIZE);
    MiddleSlice(source, b, 24, size, p + ID_FIELD, p + ID_FIELD + 2);
    WordSame(b, p + ID_FIELD, source, p + ID_FIELD);
  }

  lemma {:induction false} FirstIn(rows: seq<Category>, id: nat, row: Category)
    requires First(rows, id) == Ok(row)
    ensures row in rows
  {
    if rows[0].upper < id {
      FirstIn(rows[1..], id, row);
    }
  }
}
