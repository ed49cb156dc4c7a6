/** Restoring missing quest records: new categories at the end of the list data, and a new category table. */
module QuestDrafts {
  import opened Bytes
  import opened Layout
  import opened QuestInfos
  import opened StageBodies
  import opened Sorting

  const IDS := 0x1_0000
  const TEXT_TABLE := 32

  /** The body of this quest. */
  predicate Usable(body: Body, id: nat) {
    && body.Body? && |body.record| == RECORD_SIZE && |body.texts| == TEXT_COUNT && Word(body.record, ID_FIELD) == id
  }

  /** The upper bound of the category of an ID, in 16 bits. */
  function Upper(id: nat): nat { (id / 100 * 100 + 100) % IDS }

  lemma UpperIs(id: nat)
    requires id < IDS
    ensures id / 100 <= 655 && Upper(id) == if id / 100 == 655 then 64 else id / 100 * 100 + 100
  {
  }

  lemma UpperInjective(a: nat, b: nat)
    requires a < IDS && b < IDS && Upper(a) == Upper(b)
    ensures a / 100 == b / 100
    ensures a % 100 == b % 100 ==> a == b
  {
    UpperIs(a);
    UpperIs(b);
  }

  // ------------------------------------------------------------------
  // What has been appended so far.

  /** Each text with a zero behind it. */
  function TextBlock(texts: seq<seq<byte>>): seq<byte> {
    if texts == [] then [] else TextBlock(texts[..|texts| - 1]) + texts[|texts| - 1] + [0]
  }

  /** Pointers to the texts of a block that begins at start. */
  function TextPointers(start: nat, texts: seq<seq<byte>>): (t: seq<byte>)
    ensures |t| == |texts| * 4
  {
    if texts == [] then []
    else
      var init := texts[..|texts| - 1];
      TextPointers(start, init) + LongBytes(start + |TextBlock(init)|)
  }

  /** The record with its text pointer set. */
  function RecordAt(p: nat, record: seq<byte>): (r: seq<byte>)
    requires |record| == RECORD_SIZE
    ensures |r| == RECORD_SIZE
  {
    Patched(record, TEXTS, LongBytes(p + RECORD_SIZE))
  }

  /** A stage as it is stored at p: the record, the table of text pointers, the texts verbatim. */
  function StageBytes(p: nat, body: Body): (b: seq<byte>)
    requires body.Body? && |body.record| == RECORD_SIZE && |body.texts| == TEXT_COUNT
    ensures |b| == StageSize(body)
  {
    RecordAt(p, body.record) + TextPointers(p + RECORD_SIZE + TEXT_TABLE, body.texts) + TextBlock(body.texts)
  }

  function StageSize(body: Body): nat
    requires body.Body?
  {
    RECORD_SIZE + |body.texts| * 4 + |TextBlock(body.texts)|
  }

  predicate StageAt(b: seq<byte>, p: nat, body: Body)
    requires body.Body? && |body.record| == RECORD_SIZE && |body.texts| == TEXT_COUNT
  {
    p + StageSize(body) <= |b| && b[p..p + StageSize(body)] == StageBytes(p, body)
  }

  /** The slot of an ID in the array of its category. */
  function Slot(arrays: map<nat, nat>, id: nat): nat
    requires Upper(id) in arrays
  {
    arrays[Upper(id)] + id % 100 * 4
  }

  predicate Clear(p: nat, n: nat, q: nat, m: nat) { p + n <= q || q + m <= p }

  /**
   * The new arrays and the records placed so far lie between size and limit and do not overlap; a record is its
   * body's; and the slot of an ID leads to its record, if it is placed, and is zero otherwise.
   */
  ghost predicate Listed(b: seq<byte>, limit: nat, size: nat, arrays: map<nat, nat>, recs: map<nat, nat>, bodies: map<nat, Body>) {
    && limit <= |b|
    && (forall u :: u in arrays ==> size <= arrays[u] && arrays[u] + ARRAY_SIZE <= limit)
    && (forall u, v :: u in arrays && v in arrays && u != v ==> Clear(arrays[u], ARRAY_SIZE, arrays[v], ARRAY_SIZE))
    && (forall id :: id in recs ==> Placed(b, limit, size, arrays, recs[id], id, bodies))
    && (forall id, u :: id in recs && u in arrays ==> Clear(recs[id], StageSize(bodies[id]), arrays[u], ARRAY_SIZE))
    && (forall id: nat :: id < IDS && Upper(id) in arrays ==> SlotRight(b, Slot(arrays, id), recs, id))
  }

  /** The slot holds the record's position, or zero. */
  predicate SlotRight(b: seq<byte>, slot: nat, recs: map<nat, nat>, id: nat) {
    slot + 4 <= |b| && Long(b, slot) == if id in recs then recs[id] % LONG_LIMIT else 0
  }

  ghost predicate Placed(b: seq<byte>, limit: nat, size: nat, arrays: map<nat, nat>, rec: nat, id: nat, bodies: map<nat, Body>)
    requires limit <= |b|
  {
    && id < IDS && id in bodies && Usable(bodies[id], id) && Upper(id) in arrays
    && size <= rec && rec + StageSize(bodies[id]) <= limit && StageAt(b, rec, bodies[id])
  }

  lemma MiddleSlice(b: seq<byte>, b': seq<byte>, from: nat, limit: nat, p: nat, q: nat)
    requires from <= limit <= |b| && limit <= |b'| && b'[from..limit] == b[from..limit] && from <= p <= q <= limit
    ensures b'[p..q] == b[p..q]
  {
    PartOf(b, from, limit - from, p - from, q - p);
    PartOf(b', from, limit - from, p - from, q - p);
  }

  /** Nothing before size or beyond the limit matters. */
  lemma ListedWithin(b: seq<byte>, b': seq<byte>, limit: nat, limit': nat, size: nat, arrays: map<nat, nat>,
                     recs: map<nat, nat>, bodies: map<nat, Body>)
    requires Listed(b, limit, size, arrays, recs, bodies) && size <= limit <= limit' <= |b'|
    requires b'[size..limit] == b[size..limit]
    ensures Listed(b', limit', size, arrays, recs, bodies)
  {
    forall id | id in recs
      ensures Placed(b', limit', size, arrays, recs[id], id, bodies)
    {
      PlacedWithin(b, b', limit, limit', size, arrays, recs[id], id, bodies);
    }
    forall id: nat | id < IDS && Upper(id) in arrays
      ensures SlotRight(b', Slot(arrays, id), recs, id)
    {
      SlotWithin(b, b', limit, size, Slot(arrays, id), recs, id);
    }
  }

  lemma PlacedWithin(b: seq<byte>, b': seq<byte>, limit: nat, limit': nat, size: nat, arrays: map<nat, nat>, rec: nat, id: nat,
                     bodies: map<nat, Body>)
    requires size <= limit <= |b| && limit <= limit' <= |b'| && b'[size..limit] == b[size..limit]
    requires Placed(b, limit, size, arrays, rec, id, bodies)
    ensures Placed(b', limit', size, arrays, rec, id, bodies)
  {
    MiddleSlice(b, b', size, limit, rec, rec + StageSize(bodies[id]));
  }

  lemma SlotWithin(b: seq<byte>, b': seq<byte>, limit: nat, size: nat, slot: nat, recs: map<nat, nat>, id: nat)
    requires size <= limit <= |b| && limit <= |b'| && b'[size..limit] == b[size..limit] && size <= slot && slot + 4 <= limit
    requires SlotRight(b, slot, recs, id)
    ensures SlotRight(b', slot, recs, id)
  {
    MiddleSlice(b, b', size, limit, slot, slot + 4);
    LongSame(b', slot, b, slot);
  }

  lemma ListedExtends(b: seq<byte>, b': seq<byte>, limit: nat, limit': nat, size: nat, arrays: map<nat, nat>,
                      recs: map<nat, nat>, bodies: map<nat, Body>)
    requires Listed(b, limit, size, arrays, recs, bodies) && size <= limit <= limit' <= |b'| && b'[..limit] == b[..limit]
    ensures Listed(b', limit', size, arrays, recs, bodies)
  {
    assert b'[size..limit] == b'[..limit][size..] == b[..limit][size..] == b[size..limit];
    ListedWithin(b, b', limit, limit', size, arrays, recs, bodies);
  }

  /** A fresh array of zeros for a new category. */
  lemma ListedArray(b: seq<byte>, limit: nat, size: nat, arrays: map<nat, nat>, recs: map<nat, nat>, bodies: map<nat, Body>,
                    upper: nat, start: nat)
    requires Listed(b, limit, size, arrays, recs, bodies) && upper !in arrays && size <= limit <= start
    requires start + ARRAY_SIZE <= |b| && b[start..start + ARRAY_SIZE] == Zeros(ARRAY_SIZE)
    ensures Listed(b, start + ARRAY_SIZE, size, arrays[upper := start], recs, bodies)
  {
    var arrays' := arrays[upper := start];
    forall id | id in recs
      ensures Placed(b, start + ARRAY_SIZE, size, arrays', recs[id], id, bodies)
    {
      assert Placed(b, limit, size, arrays, recs[id], id, bodies);
    }
    forall id: nat | id < IDS && Upper(id) in arrays'
      ensures SlotRight(b, Slot(arrays', id), recs, id)
    {
      NewSlot(b, limit, size, arrays, recs, bodies, upper, start, id);
    }
    forall id, u | id in recs && u in arrays'
      ensures Clear(recs[id], StageSize(bodies[id]), arrays'[u], ARRAY_SIZE)
    {
      assert Placed(b, limit, size, arrays, recs[id], id, bodies);
    }
  }

  lemma NewSlot(b: seq<byte>, limit: nat, size: nat, arrays: map<nat, nat>, recs: map<nat, nat>, bodies: map<nat, Body>,
                upper: nat, start: nat, id: nat)
    requires Listed(b, limit, size, arrays, recs, bodies) && upper !in arrays && id < IDS && Upper(id) in arrays[upper := start]
    requires start + ARRAY_SIZE <= |b| && b[start..start + ARRAY_SIZE] == Zeros(ARRAY_SIZE)
    ensures SlotRight(b, Slot(arrays[upper := start], id), recs, id)
  {
    if Upper(id) == upper {
      assert id in recs ==> Placed(b, limit, size, arrays, recs[id], id, bodies);
      ZeroLong(b, start, id % 100 * 4);
    } else {
      assert SlotRight(b, Slot(arrays, id), recs, id);
    }
  }

  lemma ZeroLong(b: seq<byte>, p: nat, at: nat)
    requires p + ARRAY_SIZE <= |b| && b[p..p + ARRAY_SIZE] == Zeros(ARRAY_SIZE) && at + 4 <= ARRAY_SIZE
    ensures Long(b, p + at) == 0
  {
    var z := b[p..p + ARRAY_SIZE];
    assert b[p + at] == z[at] && b[p + (at + 1)] == z[at + 1] && b[p + (at + 2)] == z[at + 2] && b[p + (at + 3)] == z[at + 3];
  }

  lemma PlacedKept(b: seq<byte>, limit: nat, size: nat, arrays: map<nat, nat>, rec: nat, id: nat, bodies: map<nat, Body>,
                   slot: nat, v: nat, limit': nat)
    requires limit <= limit' <= |b| && slot + 4 <= |b| && Placed(b, limit, size, arrays, rec, id, bodies)
    requires Clear(rec, StageSize(bodies[id]), slot, 4)
    ensures Placed(Patched(b, slot, LongBytes(v)), limit', size, arrays, rec, id, bodies)
  {
    SliceElsewhere(b, slot, LongBytes(v), rec, rec + StageSize(bodies[id]));
  }

  lemma SlotsKept(b: seq<byte>, arrays: map<nat, nat>, recs: map<nat, nat>, id: nat, rec: nat, k: nat)
    requires id < IDS && k < IDS && Upper(id) in arrays && Upper(k) in arrays && Slot(arrays, id) + 4 <= |b|
    requires forall u, v :: u in arrays && v in arrays && u != v ==> Clear(arrays[u], ARRAY_SIZE, arrays[v], ARRAY_SIZE)
    requires SlotRight(b, Slot(arrays, k), recs, k)
    ensures SlotRight(Patched(b, Slot(arrays, id), LongBytes(rec)), Slot(arrays, k), recs[id := rec], k)
  {
    var slot := Slot(arrays, id);
    if k == id {
      LongPutLow(b, slot, rec);
    } else {
      SlotsApart(arrays, id, k);
      SliceElsewhere(b, slot, LongBytes(rec), Slot(arrays, k), Slot(arrays, k) + 4);
      LongSame(Patched(b, slot, LongBytes(rec)), Slot(arrays, k), b, Slot(arrays, k));
    }
  }

  lemma SlotsApart(arrays: map<nat, nat>, id: nat, k: nat)
    requires id < IDS && k < IDS && Upper(id) in arrays && Upper(k) in arrays && k != id
    requires forall u, v :: u in arrays && v in arrays && u != v ==> Clear(arrays[u], ARRAY_SIZE, arrays[v], ARRAY_SIZE)
    ensures Clear(Slot(arrays, id), 4, Slot(arrays, k), 4)
  {
    UpperIs(id);
    UpperIs(k);
    if Upper(id) != Upper(k) {
      assert Clear(arrays[Upper(id)], ARRAY_SIZE, arrays[Upper(k)], ARRAY_SIZE);
    }
  }

  lemma AllPlaced(b: seq<byte>, limit: nat, size: nat, arrays: map<nat, nat>, recs: map<nat, nat>, bodies: map<nat, Body>,
                  id: nat, rec: nat, k: nat)
    requires Listed(b, limit, size, arrays, recs, bodies) && id !in recs && limit <= rec && size <= rec
    requires id < IDS && id in bodies && Usable(bodies[id], id) && Upper(id) in arrays && StageAt(b, rec, bodies[id])
    requires k in recs || k == id
    ensures Placed(Patched(b, Slot(arrays, id), LongBytes(rec)), rec + StageSize(bodies[id]), size, arrays,
                   if k == id then rec else recs[k], k, bodies)
  {
    var slot, limit' := Slot(arrays, id), rec + StageSize(bodies[id]);
    if k != id {
      assert Placed(b, limit, size, arrays, recs[k], k, bodies);
      assert Clear(recs[k], StageSize(bodies[k]), arrays[Upper(id)], ARRAY_SIZE);
      PlacedKept(b, limit, size, arrays, recs[k], k, bodies, slot, rec, limit');
    } else {
      PlacedKept(b, limit', size, arrays, rec, id, bodies, slot, rec, limit');
    }
  }

  /** The slot of the ID is pointed at its record. */
  lemma ListedRecord(b: seq<byte>, limit: nat, size: nat, arrays: map<nat, nat>, recs: map<nat, nat>, bodies: map<nat, Body>,
                     id: nat, rec: nat)
    requires Listed(b, limit, size, arrays, recs, bodies) && id !in recs && limit <= rec && size <= rec
    requires id < IDS && id in bodies && Usable(bodies[id], id) && Upper(id) in arrays && StageAt(b, rec, bodies[id])
    ensures Listed(Patched(b, Slot(arrays, id), LongBytes(rec)), rec + StageSize(bodies[id]), size, arrays, recs[id := rec], bodies)
  {
    var slot, recs', limit' := Slot(arrays, id), recs[id := rec], rec + StageSize(bodies[id]);
    var b' := Patched(b, slot, LongBytes(rec));
    forall k | k in recs'
      ensures Placed(b', limit', size, arrays, recs'[k], k, bodies)
    {
      AllPlaced(b, limit, size, arrays, recs, bodies, id, rec, k);
    }
    forall k: nat | k < IDS && Upper(k) in arrays
      ensures SlotRight(b', Slot(arrays, k), recs', k)
    {
      SlotsKept(b, arrays, recs, id, rec, k);
    }
  }

  lemma SliceElsewhere(b: seq<byte>, q: nat, bs: seq<byte>, p: nat, r: nat)
    requires q + |bs| <= |b| && p <= r <= |b| && (r <= q || q + |bs| <= p)
    ensures Patched(b, q, bs)[p..r] == b[p..r]
  {
  }

  // ------------------------------------------------------------------
  // Appending one stage.

  /** The pointer table while the first n texts have been stored. */
  function PartTable(start: nat, texts: seq<seq<byte>>, n: nat): (t: seq<byte>)
    requires n <= |texts|
    ensures |t| == |texts| * 4
  {
    TextPointers(start, texts[..n]) + Zeros((|texts| - n) * 4)
  }

  lemma NextPointer(front: seq<byte>, start: nat, texts: seq<seq<byte>>, n: nat, block: seq<byte>)
    requires n < |texts| && block == TextBlock(texts[..n])
    ensures Patched(front + PartTable(start, texts, n) + block, |front| + n * 4, LongBytes(start + |block|))
            == front + PartTable(start, texts, n + 1) + block
  {
    assert texts[..n + 1][..n] == texts[..n];
    var before, after := front + PartTable(start, texts, n) + block, front + PartTable(start, texts, n + 1) + block;
    assert TextPointers(start, texts[..n + 1]) == TextPointers(start, texts[..n]) + LongBytes(start + |block|);
    assert |TextPointers(start, texts[..n])| == n * 4;
    var patched := Patched(before, |front| + n * 4, LongBytes(start + |block|));
    forall i | 0 <= i < |before|
      ensures patched[i] == after[i]
    {
    }
  }

  lemma Regroup(front: seq<byte>, a: seq<byte>, b: seq<byte>, c: seq<byte>)
    ensures front + a + b == front + (a + b)
    ensures front + a + b + c == front + (a + b + c)
    ensures (front + a + b)[|front| + |a|..] == b && (front + a + b)[..|front| + |a|] == front + a
  {
  }

  lemma NextText(texts: seq<seq<byte>>, n: nat)
    requires n < |texts|
    ensures TextBlock(texts[..n + 1]) == TextBlock(texts[..n]) + texts[n] + [0]
  {
    assert texts[..n + 1][..n] == texts[..n];
  }

  /** The table and the block while the first n texts have been stored. */
  function Stored(front: seq<byte>, start: nat, texts: seq<seq<byte>>, n: nat): seq<byte>
    requires n <= |texts|
  {
    front + PartTable(start, texts, n) + TextBlock(texts[..n])
  }

  lemma StoredEnds(front: seq<byte>, start: nat, texts: seq<seq<byte>>)
    ensures Stored(front, start, texts, 0) == front + Zeros(|texts| * 4)
    ensures Stored(front, start, texts, |texts|) == front + TextPointers(start, texts) + TextBlock(texts)
  {
    assert texts[..|texts|] == texts && texts[..0] == [];
  }

  method StoreText(draft: Draft, ghost front: seq<byte>, table: nat, texts: seq<seq<byte>>, i: nat)
    requires i < |texts| && |front| == table
    requires draft.bytes == Stored(front, table + |texts| * 4, texts, i)
    modifies draft
    ensures draft.bytes == Stored(front, table + |texts| * 4, texts, i + 1)
  {
    ghost var start := table + |texts| * 4;
    ghost var block, full := TextBlock(texts[..i]), front + PartTable(start, texts, i + 1);
    NextPointer(front, start, texts, i, block);
    draft.PutLong(table + i * 4, |draft.bytes|);
    NextText(texts, i);
    draft.Append(texts[i]);
    draft.Append([0]);
    Regroup(full, block, texts[i], [0]);
  }

  /** Stores the texts behind their table of zeros, and points the table at them. */
  method AppendTexts(draft: Draft, table: nat, texts: seq<seq<byte>>)
    requires |texts| == TEXT_COUNT && table + TEXT_TABLE == |draft.bytes| && draft.bytes[table..] == Zeros(TEXT_TABLE)
    modifies draft
    ensures draft.bytes == old(draft.bytes[..table]) + TextPointers(table + TEXT_TABLE, texts) + TextBlock(texts)
  {
    ghost var front := draft.bytes[..table];
    assert draft.bytes == front + Zeros(TEXT_TABLE);
    StoredEnds(front, table + TEXT_TABLE, texts);
    for i := 0 to |texts|
      invariant draft.bytes == Stored(front, table + TEXT_TABLE, texts, i)
    {
      StoreText(draft, front, table, texts, i);
    }
  }

  lemma PatchFront(front: seq<byte>, back: seq<byte>, p: nat, bs: seq<byte>)
    requires p + |bs| <= |front|
    ensures Patched(front + back, p, bs) == Patched(front, p, bs) + back
  {
  }

  /** The record with its text pointer, and a table of zeros. */
  method AppendHead(draft: Draft, record: seq<byte>)
    requires |record| == RECORD_SIZE
    modifies draft
    ensures draft.bytes == old(draft.bytes) + RecordAt(|old(draft.bytes)|, record) + Zeros(TEXT_TABLE)
  {
    var rec := |draft.bytes|;
    draft.Append(record);
    var table := |draft.bytes|;
    draft.Append(Zeros(TEXT_TABLE));
    draft.PutLong(rec + TEXTS, table);
  }

  /** The record, its texts, and the slot that leads to it. */
  method AppendRecord(draft: Draft, slot: nat, body: Body)
    requires body.Body? && |body.record| == RECORD_SIZE && |body.texts| == TEXT_COUNT && slot + 4 <= |draft.bytes|
    modifies draft
    ensures draft.bytes == Patched(old(draft.bytes), slot, LongBytes(|old(draft.bytes)|)) + StageBytes(|old(draft.bytes)|, body)
  {
    var rec := |draft.bytes|;
    var table := rec + RECORD_SIZE;
    ghost var base, record := draft.bytes, RecordAt(rec, body.record);
    ghost var front := Patched(base, slot, LongBytes(rec));
    AppendHead(draft, body.record);
    Regroup(base, record, Zeros(TEXT_TABLE), []);
    PatchFront(base, record + Zeros(TEXT_TABLE), slot, LongBytes(rec));
    draft.PutLong(slot, rec);
    Regroup(front, record, Zeros(TEXT_TABLE), []);
    AppendTexts(draft, table, body.texts);
    Regroup(front, record, TextPointers(table + TEXT_TABLE, body.texts), TextBlock(body.texts));
  }

  lemma ArrayListed(before: seq<byte>, after: seq<byte>, start: nat, size: nat, arrays: map<nat, nat>, recs: map<nat, nat>,
                    bodies: map<nat, Body>, upper: nat)
    requires size <= |before| <= start && start + ARRAY_SIZE == |after| && after[..|before|] == before
    requires after[start..] == Zeros(ARRAY_SIZE)
    requires Listed(before, |before|, size, arrays, recs, bodies) && upper !in arrays
    ensures Listed(after, |after|, size, arrays[upper := start], recs, bodies) && after[..size] == before[..size]
  {
    assert before[..|before|] == before && after[start..start + ARRAY_SIZE] == after[start..];
    ListedExtends(before, after, |before|, |before|, size, arrays, recs, bodies);
    ListedArray(after, |before|, size, arrays, recs, bodies, upper, start);
    assert after[..size] == after[..|before|][..size];
  }

  /** A draft on the way: its bytes, the arrays of the new categories, and where the records are. */
  datatype Progress = Progress(bytes: seq<byte>, arrays: map<nat, nat>, recs: map<nat, nat>)
  {
    predicate Fits() { forall u :: u in arrays ==> arrays[u] + ARRAY_SIZE <= |bytes| }
  }

  /** The category of an ID, with a new array of zeros if there is none yet. */
  function WithArray(p: Progress, id: nat): (q: Progress)
    requires p.Fits()
    ensures q.Fits() && Upper(id) in q.arrays && |p.bytes| <= |q.bytes| && q.bytes[..|p.bytes|] == p.bytes
  {
    if Upper(id) in p.arrays then p
    else
      p.(bytes := Aligned(p.bytes) + Zeros(ARRAY_SIZE), arrays := p.arrays[Upper(id) := |Aligned(p.bytes)|])
  }

  predicate Whole(body: Body) { body.Body? && |body.record| == RECORD_SIZE && |body.texts| == TEXT_COUNT }

  /** One missing record: its category, the stage, and the slot. */
  function WithStage(p: Progress, id: nat, body: Body): (q: Progress)
    requires p.Fits() && Whole(body)
    ensures q.Fits() && |p.bytes| <= |q.bytes|
  {
    var a := WithArray(p, id);
    var base := Aligned(a.bytes);
    Progress(Patched(base, Slot(a.arrays, id), LongBytes(|base|)) + StageBytes(|base|, body), a.arrays, a.recs[id := |base|])
  }

  method AppendArray(draft: Draft, arrays: map<nat, nat>, id: nat, ghost p: Progress) returns (arrays': map<nat, nat>)
    requires p.Fits() && p.bytes == draft.bytes && p.arrays == arrays
    modifies draft
    ensures draft.bytes == WithArray(p, id).bytes && arrays' == WithArray(p, id).arrays
  {
    arrays' := arrays;
    if Upper(id) !in arrays {
      draft.Align();
      var start := |draft.bytes|;
      draft.Append(Zeros(ARRAY_SIZE));
      arrays' := arrays[Upper(id) := start];
    }
  }

  method AppendStage(draft: Draft, arrays: map<nat, nat>, id: nat, body: Body, ghost p: Progress) returns (arrays': map<nat, nat>)
    requires p.Fits() && p.bytes == draft.bytes && p.arrays == arrays && Whole(body)
    modifies draft
    ensures draft.bytes == WithStage(p, id, body).bytes && arrays' == WithStage(p, id, body).arrays
  {
    arrays' := AppendArray(draft, arrays, id, p);
    draft.Align();
    AppendRecord(draft, arrays'[Upper(id)] + id % 100 * 4, body);
  }

  /** What has been listed stays listed, with one more stage. */
  lemma StageListed(before: seq<byte>, base: seq<byte>, size: nat, arrays: map<nat, nat>, recs: map<nat, nat>,
                    bodies: map<nat, Body>, id: nat)
    requires size <= |before| <= |base| && base[..|before|] == before
    requires Listed(before, |before|, size, arrays, recs, bodies)
    requires id < IDS && id !in recs && id in bodies && Usable(bodies[id], id) && Upper(id) in arrays
    ensures Slot(arrays, id) + 4 <= |base|
    ensures var b := Patched(base, Slot(arrays, id), LongBytes(|base|)) + StageBytes(|base|, bodies[id]);
            && b[..size] == before[..size]
            && Listed(b, |b|, size, arrays, recs[id := |base|], bodies)
  {
    var rec, slot, stage := |base|, Slot(arrays, id), StageBytes(|base|, bodies[id]);
    var whole := base + stage;
    assert whole[..|before|] == before[..|before|];
    ListedExtends(before, whole, |before|, rec, size, arrays, recs, bodies);
    assert whole[rec..rec + StageSize(bodies[id])] == stage;
    ListedRecord(whole, rec, size, arrays, recs, bodies, id, rec);
    PatchFront(base, stage, slot, LongBytes(rec));
    SliceElsewhere(whole, slot, LongBytes(rec), 0, size);
    assert whole[..size] == whole[..|before|][..size];
  }

  lemma ArrayGrown(source: seq<byte>, p: Progress, bodies: map<nat, Body>, id: nat)
    requires p.Fits() && Grown(source, p.bytes, p.arrays, p.recs, bodies)
    ensures var q := WithArray(p, id); Grown(source, q.bytes, q.arrays, p.recs, bodies) && q.arrays.Keys == p.arrays.Keys + {Upper(id)}
  {
    if Upper(id) !in p.arrays {
      var after, start := WithArray(p, id).bytes, |Aligned(p.bytes)|;
      assert after[..|p.bytes|] == Aligned(p.bytes)[..|p.bytes|];
      ArrayListed(p.bytes, after, start, |source|, p.arrays, p.recs, bodies, Upper(id));
    }
  }

  /** The source is still there, and everything is listed behind it, with one stage more. */
  lemma StageGrown(source: seq<byte>, p: Progress, bodies: map<nat, Body>, id: nat)
    requires p.Fits() && Grown(source, p.bytes, p.arrays, p.recs, bodies)
    requires id < IDS && id !in p.recs && id in bodies && Usable(bodies[id], id)
    ensures var q := WithStage(p, id, bodies[id]); Grown(source, q.bytes, q.arrays, q.recs, bodies)
  {
    ArrayGrown(source, p, bodies, id);
    var a := WithArray(p, id);
    RecordGrown(source, a.bytes, Aligned(a.bytes), a.arrays, p.recs, bodies, id);
  }

  lemma RecordGrown(source: seq<byte>, before: seq<byte>, base: seq<byte>, arrays: map<nat, nat>, recs: map<nat, nat>,
                    bodies: map<nat, Body>, id: nat)
    requires Grown(source, before, arrays, recs, bodies) && |before| <= |base| && base[..|before|] == before
    requires id < IDS && id !in recs && id in bodies && Usable(bodies[id], id) && Upper(id) in arrays
    ensures Slot(arrays, id) + 4 <= |base|
    ensures Grown(source, Patched(base, Slot(arrays, id), LongBytes(|base|)) + StageBytes(|base|, bodies[id]), arrays,
                  recs[id := |base|], bodies)
  {
    StageListed(before, base, |source|, arrays, recs, bodies, id);
  }

  // ------------------------------------------------------------------
  // All stages, and the new category table.

  ghost predicate BodiesOk(bodies: map<nat, Body>) {
    forall id :: id in bodies ==> id < IDS && Genuine(bodies[id])
  }

  predicate IdBelow(a: nat, b: nat) { a < b }

  /** The IDs in ascending order. */
  ghost function InOrder(ids: set<nat>): (r: seq<nat>)
    ensures Lists(r, ids, IdBelow)
  {
    EnumeratedAll(ids);
    IdsSorted(Enumerated(ids), ids);
    Sort(Enumerated(ids), IdBelow)
  }

  lemma IdsSorted(all: seq<nat>, ids: set<nat>)
    requires Distinct(all) && forall id :: id in all <==> id in ids
    ensures Lists(Sort(all, IdBelow), ids, IdBelow)
  {
    SortOrders(all, IdBelow);
    SortKeeps(all, IdBelow);
    SameElements(Sort(all, IdBelow), all);
  }

  method SortedIds(keys: set<nat>) returns (ids: seq<nat>)
    ensures ids == InOrder(keys)
  {
    ids := Listing(keys);
    IdsSorted(ids, keys);
    ListsUnique(Sort(ids, IdBelow), InOrder(keys), keys, IdBelow);
    ids := Sort(ids, IdBelow);
  }

  predicate Taken(rows: seq<Category>, upper: nat) {
    exists row :: row in rows && row.upper == upper
  }

  /** The source is still there, and everything is listed behind it. */
  ghost predicate Grown(source: seq<byte>, b: seq<byte>, arrays: map<nat, nat>, recs: map<nat, nat>, bodies: map<nat, Body>) {
    |source| <= |b| && b[..|source|] == source && Listed(b, |b|, |source|, arrays, recs, bodies)
  }

  predicate Accepted(rows: seq<Category>, bodies: map<nat, Body>, id: nat) {
    id in bodies && Usable(bodies[id], id) && !Taken(rows, Upper(id))
  }

  predicate Given(bodies: map<nat, Body>, ids: seq<nat>) {
    forall id :: id in ids ==> id in bodies && Whole(bodies[id])
  }

  /** The draft after the stages of these IDs, in this order. */
  function AfterStages(source: seq<byte>, bodies: map<nat, Body>, ids: seq<nat>): (q: Progress)
    requires Given(bodies, ids)
    ensures q.Fits() && |source| <= |q.bytes|
    decreases |ids|
  {
    if ids == [] then Progress(source, map[], map[])
    else
      var last := ids[|ids| - 1];
      WithStage(AfterStages(source, bodies, ids[..|ids| - 1]), last, bodies[last])
  }

  /** These are the bytes and the arrays after the stages of these IDs. */
  predicate ReachedStage(source: seq<byte>, bodies: map<nat, Body>, ids: seq<nat>, b: seq<byte>, arrays: map<nat, nat>) {
    Given(bodies, ids) && b == AfterStages(source, bodies, ids).bytes && arrays == AfterStages(source, bodies, ids).arrays
  }

  /** The bodies of the stages, as inspecting them gives. */
  function Bodies(stages: map<nat, seq<byte>>): (bodies: map<nat, Body>)
    ensures bodies.Keys == stages.Keys
  {
    map id | id in stages :: BodyOf(stages[id])
  }

  lemma BodiesGenuine(stages: map<nat, seq<byte>>)
    requires forall id :: id in stages ==> id < IDS
    ensures BodiesOk(Bodies(stages))
  {
    forall id | id in stages
      ensures Genuine(BodyOf(stages[id]))
    {
      BodyGenuine(stages[id]);
    }
  }

  method CheckStage(rows: seq<Category>, stages: map<nat, seq<byte>>, id: nat) returns (ok: bool, body: Body)
    requires id in stages
    ensures ok <==> Accepted(rows, Bodies(stages), id)
    ensures ok ==> body == Bodies(stages)[id] && Whole(body)
  {
    if exists row :: row in rows && row.upper == Upper(id) {
      return false, Unusable;
    }
    body := ReadBody(stages[id]);
    ok := Usable(body, id);
  }

  /** Appends every stage, up to the first whose body is not the quest's or whose category already exists. */
  method AppendStages(draft: Draft, rows: seq<Category>, stages: map<nat, seq<byte>>) returns (ok: bool, arrays: map<nat, nat>)
    requires BodiesOk(Bodies(stages))
    modifies draft
    ensures ok <==> forall id :: id in stages ==> Accepted(rows, Bodies(stages), id)
    ensures ok ==> ReachedStage(old(draft.bytes), Bodies(stages), InOrder(stages.Keys), draft.bytes, arrays)
  {
    arrays := map[];
    ghost var source, bodies := draft.bytes, Bodies(stages);
    var ids := SortedIds(stages.Keys);
    for i := 0 to |ids|
      invariant forall id :: id in ids[..i] ==> Accepted(rows, bodies, id)
      invariant ReachedStage(source, bodies, ids[..i], draft.bytes, arrays)
    {
      assert ids[i] in ids;
      var body;
      ok, body := CheckStage(rows, stages, ids[i]);
      if !ok {
        return false, arrays;
      }
      arrays := NextStage(draft, bodies, ids, i, body, arrays, source);
    }
    assert ids[..|ids|] == ids;
    ok := true;
  }

  method NextStage(draft: Draft, ghost bodies: map<nat, Body>, ids: seq<nat>, i: nat, body: Body, arrays: map<nat, nat>,
                   ghost source: seq<byte>) returns (arrays': map<nat, nat>)
    requires i < |ids| && ids[i] in bodies && body == bodies[ids[i]] && Whole(body)
    requires ReachedStage(source, bodies, ids[..i], draft.bytes, arrays)
    modifies draft
    ensures ReachedStage(source, bodies, ids[..i + 1], draft.bytes, arrays')
  {
    assert ids[..i + 1][..i] == ids[..i];
    arrays' := AppendStage(draft, arrays, ids[i], body, AfterStages(source, bodies, ids[..i]));
  }

  /** Records for exactly these IDs, in exactly their categories. */
  lemma {:induction false} StagesKeys(source: seq<byte>, bodies: map<nat, Body>, ids: seq<nat>)
    requires Given(bodies, ids)
    ensures AfterStages(source, bodies, ids).recs.Keys == (set id | id in ids)
    ensures AfterStages(source, bodies, ids).arrays.Keys == (set id | id in ids :: Upper(id))
    decreases |ids|
  {
    if ids != [] {
      var init, last := ids[..|ids| - 1], ids[|ids| - 1];
      assert ids == init + [last];
      StagesKeys(source, bodies, init);
    }
  }

  lemma {:induction false} StagesGrown(source: seq<byte>, bodies: map<nat, Body>, ids: seq<nat>)
    requires Given(bodies, ids) && Distinct(ids) && forall id :: id in ids ==> id < IDS && Usable(bodies[id], id)
    ensures var q := AfterStages(source, bodies, ids); Grown(source, q.bytes, q.arrays, q.recs, bodies)
    decreases |ids|
  {
    if ids != [] {
      var init, last := ids[..|ids| - 1], ids[|ids| - 1];
      assert ids == init + [last] && last !in init && last in ids;
      StagesGrown(source, bodies, init);
      StagesKeys(source, bodies, init);
      StageGrown(source, AfterStages(source, bodies, init), bodies, last);
    }
  }

  // ------------------------------------------------------------------
  // The new category table.

  function RowEntry(row: Category): (e: seq<byte>)
    ensures |e| == 8
  {
    WordBytes(row.upper) + WordBytes(row.count) + LongBytes(row.ptr)
  }

  function RowBytes(rows: seq<Category>): (b: seq<byte>)
    ensures |b| == |rows| * 8
  {
    if rows == [] then [] else RowBytes(rows[..|rows| - 1]) + RowEntry(rows[|rows| - 1])
  }

  /** The table as it stands behind the data: an aligned count, the rows, an empty row. */
  function WithTable(b: seq<byte>, rows: seq<Category>): seq<byte> {
    Aligned(Aligned(b) + WordBytes(|rows|)) + RowBytes(rows) + Zeros(8)
  }

  function CountAt(b: seq<byte>): nat { |Aligned(b)| }

  function RowsAt(b: seq<byte>, n: nat): nat { |Aligned(Aligned(b) + WordBytes(n))| }

  method AppendTable(draft: Draft, rows: seq<Category>) returns (count: nat, table: nat)
    modifies draft
    ensures draft.bytes == WithTable(old(draft.bytes), rows)
    ensures count == CountAt(old(draft.bytes)) && table == RowsAt(old(draft.bytes), |rows|)
  {
    draft.Align();
    count := |draft.bytes|;
    draft.Append(WordBytes(|rows|));
    draft.Align();
    table := |draft.bytes|;
    ghost var front := draft.bytes;
    for i := 0 to |rows|
      invariant draft.bytes == front + RowBytes(rows[..i])
    {
      ghost var before := draft.bytes;
      draft.Append(WordBytes(rows[i].upper));
      draft.Append(WordBytes(rows[i].count));
      draft.Append(LongBytes(rows[i].ptr));
      Regroup(before, WordBytes(rows[i].upper), WordBytes(rows[i].count), LongBytes(rows[i].ptr));
      assert rows[..i + 1][..i] == rows[..i];
      Regroup(front, RowBytes(rows[..i]), RowEntry(rows[i]), []);
    }
    assert rows[..|rows|] == rows;
    draft.Append(Zeros(8));
  }

  lemma {:induction false} RowBytesAt(rows: seq<Category>, i: nat)
    requires i < |rows|
    ensures RowBytes(rows)[i * 8..i * 8 + 8] == RowEntry(rows[i])
  {
    var init := rows[..|rows| - 1];
    if i == |rows| - 1 {
      assert RowBytes(rows) == RowBytes(init) + RowEntry(rows[i]);
    } else {
      RowBytesAt(init, i);
      assert RowBytes(rows)[..|init| * 8] == RowBytes(init);
      PartOf(RowBytes(rows), 0, |init| * 8, i * 8, 8);
    }
  }

  predicate Storable(row: Category) {
    row.upper < WORD_LIMIT && row.count < WORD_LIMIT && row.ptr < LONG_LIMIT
  }

  lemma PartRead(b: seq<byte>, p: nat, block: seq<byte>, at: nat, part: seq<byte>)
    requires p + |block| <= |b| && b[p..p + |block|] == block && at + |part| <= |block| && block[at..at + |part|] == part
    ensures b[p + at..p + at + |part|] == part
  {
    PartOf(b, p, |block|, at, |part|);
  }

  /** Entry i of the table is there. */
  predicate RowStored(b: seq<byte>, table: nat, i: nat, row: Category) {
    table + i * 8 + 8 <= |b| && b[table + i * 8..table + i * 8 + 8] == RowEntry(row)
  }

  lemma BlockStored(b: seq<byte>, table: nat, block: seq<byte>, n: nat, i: nat, row: Category)
    requires table + n * 8 <= |b| && b[table..table + n * 8] == block && i < n && |block| == n * 8
    requires block[i * 8..i * 8 + 8] == RowEntry(row)
    ensures RowStored(b, table, i, row)
  {
    PartRead(b, table, block, i * 8, RowEntry(row));
  }

  lemma RowsStored(b: seq<byte>, table: nat, rows: seq<Category>, block: seq<byte>, i: nat)
    requires table + |rows| * 8 <= |b| && b[table..table + |rows| * 8] == block && block == RowBytes(rows) && i < |rows|
    ensures RowStored(b, table, i, rows[i])
  {
    RowBytesAt(rows, i);
    BlockStored(b, table, block, |rows|, i, rows[i]);
  }

  lemma StoredRead(b: seq<byte>, table: nat, i: nat, row: Category)
    requires RowStored(b, table, i, row) && Storable(row)
    ensures CategoryAt(b, table + i * 8) == row
  {
    EntryRead(b, table + i * 8, row);
  }

  lemma EntryRead(b: seq<byte>, p: nat, row: Category)
    requires p + 8 <= |b| && b[p..p + 8] == RowEntry(row) && Storable(row)
    ensures CategoryAt(b, p) == row
  {
    var e := RowEntry(row);
    assert e[0..2] == WordBytes(row.upper) && e[2..4] == WordBytes(row.count) && e[4..8] == LongBytes(row.ptr);
    PartOf(b, p, 8, 0, 2);
    PartOf(b, p, 8, 2, 2);
    PartOf(b, p, 8, 4, 4);
    WordGiven(b, p, row.upper);
    WordGiven(b, p + 2, row.count);
    LongGiven(b, p + 4, row.ptr);
  }

  /** What was written is read. */
  lemma TableRead(b: seq<byte>, table: nat, rows: seq<Category>)
    requires table + |rows| * 8 <= |b|
    requires forall i :: 0 <= i < |rows| ==> RowStored(b, table, i, rows[i]) && Storable(rows[i])
    ensures Rows(b, table, |rows|) == rows
  {
    forall i | 0 <= i < |rows|
      ensures Rows(b, table, |rows|)[i] == rows[i]
    {
      StoredRead(b, table, i, rows[i]);
    }
  }

  // ------------------------------------------------------------------
  // The finished list.

  /** The table appended, and the header pointed at it. */
  function Finished(b: seq<byte>, rows: seq<Category>): (r: seq<byte>)
    requires |b| >= HEAD
    ensures |r| == RowsAt(b, |rows|) + |rows| * 8 + 8
  {
    var b1 := Patched(WithTable(b, rows), 16, LongBytes(CountAt(b)));
    Patched(b1, 20, LongBytes(RowsAt(b, |rows|)))
  }

  lemma TablePlaced(b: seq<byte>, rows: seq<Category>)
    ensures var w := WithTable(b, rows); var at := RowsAt(b, |rows|);
            && |b| <= CountAt(b) && CountAt(b) + 2 <= at && |w| == at + |rows| * 8 + 8
            && w[..|b|] == b && w[CountAt(b)..CountAt(b) + 2] == WordBytes(|rows|)
            && w[at..at + |rows| * 8] == RowBytes(rows) && w[at + |rows| * 8..] == Zeros(8)
  {
    var a := Aligned(b);
    var c := a + WordBytes(|rows|);
    var d := Aligned(c);
    assert a[..|b|] == b && d[..|c|] == c;
    Regroup(d, RowBytes(rows), Zeros(8), []);
    var w := WithTable(b, rows);
    assert w[..|d|] == d;
    assert w[..|b|] == d[..|c|][..|a|][..|b|];
    assert w[|a|..|a| + 2] == d[..|c|][|a|..];
  }

  /** Only the two header words differ from the table as it was appended. */
  lemma FinishedKeeps(b: seq<byte>, rows: seq<Category>, p: nat, q: nat)
    requires |b| >= HEAD && p <= q <= |Finished(b, rows)| && (q <= 16 || 24 <= p)
    ensures |Finished(b, rows)| == |WithTable(b, rows)| && Finished(b, rows)[p..q] == WithTable(b, rows)[p..q]
  {
    var w := WithTable(b, rows);
    var b1 := Patched(w, 16, LongBytes(CountAt(b)));
    SliceElsewhere(w, 16, LongBytes(CountAt(b)), p, q);
    SliceElsewhere(b1, 20, LongBytes(RowsAt(b, |rows|)), p, q);
  }

  lemma FinishedHeader(b: seq<byte>, rows: seq<Category>)
    requires |b| >= HEAD && |Finished(b, rows)| < LONG_LIMIT
    ensures Long(Finished(b, rows), 16) == CountAt(b) && Long(Finished(b, rows), 20) == RowsAt(b, |rows|)
  {
    var w := WithTable(b, rows);
    var b1 := Patched(w, 16, LongBytes(CountAt(b)));
    TablePlaced(b, rows);
    LongPut(w, 16, CountAt(b));
    LongPut(b1, 20, RowsAt(b, |rows|));
    SliceElsewhere(b1, 20, LongBytes(RowsAt(b, |rows|)), 16, 20);
    LongSame(Finished(b, rows), 16, b1, 16);
  }

  /** The rows are read back from the finished list. */
  lemma FinishedRows(b: seq<byte>, rows: seq<Category>)
    requires |b| >= HEAD && forall row :: row in rows ==> Storable(row)
    ensures RowsAt(b, |rows|) + |rows| * 8 <= |Finished(b, rows)|
    ensures Rows(Finished(b, rows), RowsAt(b, |rows|), |rows|) == rows
  {
    var r, at := Finished(b, rows), RowsAt(b, |rows|);
    TablePlaced(b, rows);
    FinishedKeeps(b, rows, at, at + |rows| * 8);
    forall i | 0 <= i < |rows|
      ensures RowStored(r, at, i, rows[i])
    {
      RowsStored(r, at, rows, RowBytes(rows), i);
    }
    TableRead(r, at, rows);
  }

  lemma FinishedCount(b: seq<byte>, rows: seq<Category>)
    requires |b| >= HEAD && |rows| < WORD_LIMIT
    ensures CountAt(b) + 2 <= |Finished(b, rows)| && Word(Finished(b, rows), CountAt(b)) == |rows|
    ensures var at := RowsAt(b, |rows|) + |rows| * 8; Finished(b, rows)[at..at + 8] == Zeros(8)
  {
    var c, at, w := CountAt(b), RowsAt(b, |rows|) + |rows| * 8, WithTable(b, rows);
    TablePlaced(b, rows);
    FinishedKeeps(b, rows, c, c + 2);
    FinishedKeeps(b, rows, at, at + 8);
    assert w[at..at + 8] == w[at..];
    WordPut(Zeros(2), 0, |rows|);
    assert Patched(Zeros(2), 0, WordBytes(|rows|)) == WordBytes(|rows|);
    WordSame(Finished(b, rows), c, WordBytes(|rows|), 0);
  }

  lemma FinishedMagic(source: seq<byte>, b: seq<byte>, rows: seq<Category>)
    requires HeaderOk(source) && |source| <= |b| && b[..|source|] == source && |Finished(b, rows)| <= MAX_DATA
    ensures HeaderOk(Finished(b, rows))
  {
    var r := Finished(b, rows);
    TablePlaced(b, rows);
    FinishedKeeps(b, rows, 0, 16);
    assert r[0..16] == b[..|source|][0..16] == source[0..16];
    SamePart(r, 0, source, 0, 16, 0, 4);
    SamePart(r, 0, source, 0, 16, 4, 4);
    SamePart(r, 0, source, 0, 16, 12, 4);
    LongSame(r, 0, source, 0);
    LongSame(r, 4, source, 4);
    LongSame(r, 12, source, 12);
  }

  /** The finished list has exactly these categories. */
  lemma FinishedCategories(source: seq<byte>, b: seq<byte>, rows: seq<Category>)
    requires HeaderOk(source) && |source| <= |b| && b[..|source|] == source && |Finished(b, rows)| <= MAX_DATA
    requires 0 < |rows| <= MAX_CATEGORIES && Ascending(rows, UpperBelow)
    requires forall row :: row in rows ==> Storable(row) && CategoryOk(b, row)
    ensures Categories(Finished(b, rows)) == Ok(rows)
  {
    TablePlaced(b, rows);
    FinishedMagic(source, b, rows);
    FinishedHeader(b, rows);
    FinishedCount(b, rows);
    FinishedRows(b, rows);
    StillOk(b, Finished(b, rows), rows);
    assert forall i :: 0 < i < |rows| ==> UpperBelow(rows[i - 1], rows[i]);
  }

  lemma StillOk(b: seq<byte>, r: seq<byte>, rows: seq<Category>)
    requires |b| <= |r| && forall row :: row in rows ==> CategoryOk(b, row)
    ensures forall row :: row in rows ==> CategoryOk(r, row)
  {
  }

  // ------------------------------------------------------------------
  // The whole restoration.

  /** A category of the draft: a hundred slots in a new array. */
  predicate NewRow(arrays: map<nat, nat>, row: Category) {
    row.upper in arrays && row == Category(row.upper, SLOTS, arrays[row.upper])
  }

  /** The old categories and the new ones, in ascending order. */
  ghost predicate Merged(merged: seq<Category>, rows: seq<Category>, arrays: map<nat, nat>) {
    Ascending(merged, UpperBelow) && forall row :: row in merged <==> row in rows || NewRow(arrays, row)
  }

  ghost function MergedSet(rows: seq<Category>, arrays: map<nat, nat>): set<Category> {
    (set row | row in rows) + (set u | u in arrays :: Category(u, SLOTS, arrays[u]))
  }

  ghost function MergedRows(rows: seq<Category>, arrays: map<nat, nat>): seq<Category> {
    Sort(Enumerated(MergedSet(rows, arrays)), UpperBelow)
  }

  lemma UppersApart(rows: seq<Category>, arrays: map<nat, nat>)
    requires Ascending(rows, UpperBelow) && forall u :: u in arrays ==> !Taken(rows, u)
    ensures forall a, b :: a in MergedSet(rows, arrays) && b in MergedSet(rows, arrays) && a.upper == b.upper ==> a == b
  {
    forall a, b | a in MergedSet(rows, arrays) && b in MergedSet(rows, arrays) && a.upper == b.upper
      ensures a == b
    {
      if a in rows && b in rows {
        SameUpper(rows, a, b);
      }
    }
  }

  /** Sorting any enumeration of the merged categories gives the merged table. */
  lemma SortedMerged(rows: seq<Category>, arrays: map<nat, nat>, all: seq<Category>)
    requires Ascending(rows, UpperBelow) && (forall u :: u in arrays ==> !Taken(rows, u))
    requires Distinct(all) && forall row :: row in all <==> row in MergedSet(rows, arrays)
    ensures Sort(all, UpperBelow) == MergedRows(rows, arrays) && Merged(MergedRows(rows, arrays), rows, arrays)
  {
    var elements := MergedSet(rows, arrays);
    UppersApart(rows, arrays);
    EnumeratedAll(elements);
    SortedLists(all, elements);
    SortedLists(Enumerated(elements), elements);
    ListsUnique(Sort(all, UpperBelow), MergedRows(rows, arrays), elements, UpperBelow);
  }

  lemma SortedLists(all: seq<Category>, elements: set<Category>)
    requires Distinct(all) && forall row :: row in all <==> row in elements
    requires forall a, b :: a in elements && b in elements && a.upper == b.upper ==> a == b
    ensures Lists(Sort(all, UpperBelow), elements, UpperBelow)
  {
    SortOrders(all, UpperBelow);
    SortKeeps(all, UpperBelow);
    SameElements(Sort(all, UpperBelow), all);
  }

  method MergeRows(rows: seq<Category>, arrays: map<nat, nat>) returns (merged: seq<Category>)
    requires Ascending(rows, UpperBelow) && forall u :: u in arrays ==> !Taken(rows, u)
    ensures merged == MergedRows(rows, arrays) && Merged(merged, rows, arrays)
  {
    var all := rows;
    var rest := arrays.Keys;
    while rest != {}
      invariant rest <= arrays.Keys && Distinct(all) && |all| >= |rows| && all[..|rows|] == rows
      invariant forall row :: row in all <==> row in rows || (NewRow(arrays, row) && row.upper !in rest)
      decreases |rest|
    {
      var u :| u in rest;
      all := all + [Category(u, SLOTS, arrays[u])];
      rest := rest - {u};
    }
    SortedMerged(rows, arrays, all);
    merged := Sort(all, UpperBelow);
  }

  /** The restored list b of source: old bytes, old categories, one new record for each body. */
  ghost predicate Restored(source: seq<byte>, b: seq<byte>, rows: seq<Category>, merged: seq<Category>,
                           arrays: map<nat, nat>, recs: map<nat, nat>, bodies: map<nat, Body>)
  {
    && Categories(source) == Ok(rows) && Categories(b) == Ok(merged) && Merged(merged, rows, arrays)
    && Ascending(rows, UpperBelow) && (forall u :: u in arrays ==> !Taken(rows, u))
    && recs.Keys == bodies.Keys && (forall u :: u in arrays <==> exists id :: id in bodies && Upper(id) == u)
    && HEAD <= |source| <= |b| <= MAX_DATA && b[24..|source|] == source[24..]
    && Listed(b, |b|, |source|, arrays, recs, bodies)
  }

  lemma CategoriesSound(data: seq<byte>, rows: seq<Category>)
    requires Categories(data) == Ok(rows)
    ensures HeaderOk(data) && 0 < |rows| <= MAX_CATEGORIES && Ascending(rows, UpperBelow)
    ensures forall row :: row in rows ==> Storable(row) && CategoryOk(data, row)
  {
    UppersAscend(rows);
  }

  /** The appended part ends up in the finished list as it was. */
  lemma FinishedListed(source: seq<byte>, b: seq<byte>, merged: seq<Category>, arrays: map<nat, nat>, recs: map<nat, nat>,
                       bodies: map<nat, Body>)
    requires HEAD <= |source| <= |b| && b[..|source|] == source
    requires Listed(b, |b|, |source|, arrays, recs, bodies)
    ensures var r := Finished(b, merged);
            |source| <= |b| <= |r| && r[24..|source|] == source[24..] && Listed(r, |r|, |source|, arrays, recs, bodies)
  {
    var r, size := Finished(b, merged), |source|;
    TablePlaced(b, merged);
    FinishedKeeps(b, merged, size, |b|);
    FinishedKeeps(b, merged, 24, size);
    var w := WithTable(b, merged);
    assert w[size..|b|] == w[..|b|][size..] == b[size..|b|];
    assert w[24..size] == w[..|b|][24..size] == b[24..size] == b[..size][24..];
    ListedWithin(b, r, |b|, |r|, size, arrays, recs, bodies);
  }

  /** The categories can be read, and no body is refused. */
  ghost predicate AllAccepted(source: seq<byte>, bodies: map<nat, Body>) {
    Categories(source).Ok? && forall id :: id in bodies ==> Accepted(Categories(source).value, bodies, id)
  }

  /** Everything appended, in ascending order of the IDs. */
  ghost function Built(source: seq<byte>, bodies: map<nat, Body>): (p: Progress)
    requires AllAccepted(source, bodies)
    ensures HEAD <= |p.bytes|
  {
    AfterStages(source, bodies, InOrder(bodies.Keys))
  }

  ghost function BuiltRows(source: seq<byte>, bodies: map<nat, Body>): seq<Category>
    requires AllAccepted(source, bodies)
  {
    MergedRows(Categories(source).value, Built(source, bodies).arrays)
  }

  /** The restored list. */
  ghost function Restoration(source: seq<byte>, bodies: map<nat, Body>): seq<byte>
    requires AllAccepted(source, bodies)
  {
    Finished(Built(source, bodies).bytes, BuiltRows(source, bodies))
  }

  /** No body is refused, the restored list is not too long, and the client would find every quest in it. */
  ghost predicate Restorable(source: seq<byte>, bodies: map<nat, Body>) {
    && AllAccepted(source, bodies) && |Restoration(source, bodies)| <= MAX_DATA
    && forall id :: id in bodies ==> Find(Restoration(source, bodies), id).Ok?
  }

  /** Appends the missing records of the bodies. */
  method AppendClientQuestInfo(source: seq<byte>, stages: map<nat, seq<byte>>) returns (r: Result<seq<byte>>)
    requires forall id :: id in stages ==> id < IDS
    ensures r == if Restorable(source, Bodies(stages)) then Ok(Restoration(source, Bodies(stages))) else Failed
  {
    ghost var bodies := Bodies(stages);
    BodiesGenuine(stages);
    var categories := ReadCategories(source);
    if !categories.Ok? {
      return Failed;
    }
    CategoriesSound(source, categories.value);
    var draft := new Draft(source);
    var ok, newRows := AppendStages(draft, categories.value, stages);
    if !ok {
      return Failed;
    }
    BuiltGrown(source, bodies);
    BuiltArrays(source, bodies);
    var all := MergeRows(categories.value, newRows);
    ghost var b := draft.bytes;
    var count, table := AppendTable(draft, all);
    TablePlaced(b, all);
    draft.PutLong(16, count);
    draft.PutLong(20, table);
    assert draft.bytes == Restoration(source, bodies);
    if |draft.bytes| > MAX_DATA {
      return Failed;
    }
    ok := FindAll(draft.bytes, stages.Keys);
    return if ok then Ok(draft.bytes) else Failed;
  }

  lemma BuiltGrown(source: seq<byte>, bodies: map<nat, Body>)
    requires BodiesOk(bodies) && AllAccepted(source, bodies)
    ensures var p := Built(source, bodies); Grown(source, p.bytes, p.arrays, p.recs, bodies) && p.recs.Keys == bodies.Keys
  {
    StagesGrown(source, bodies, InOrder(bodies.Keys));
    StagesKeys(source, bodies, InOrder(bodies.Keys));
  }

  /** The new categories are those of the bodies, and none of them existed. */
  lemma BuiltArrays(source: seq<byte>, bodies: map<nat, Body>)
    requires BodiesOk(bodies) && AllAccepted(source, bodies)
    ensures var p := Built(source, bodies); forall u :: u in p.arrays <==> exists id :: id in bodies && Upper(id) == u
    ensures var p := Built(source, bodies); forall u :: u in p.arrays ==> !Taken(Categories(source).value, u)
    ensures Merged(BuiltRows(source, bodies), Categories(source).value, Built(source, bodies).arrays)
  {
    StagesKeys(source, bodies, InOrder(bodies.Keys));
    CategoriesSound(source, Categories(source).value);
    BuiltMerged(Categories(source).value, Built(source, bodies).arrays);
  }

  lemma BuiltMerged(rows: seq<Category>, arrays: map<nat, nat>)
    requires Ascending(rows, UpperBelow) && forall u :: u in arrays ==> !Taken(rows, u)
    ensures Merged(MergedRows(rows, arrays), rows, arrays)
  {
    EnumeratedAll(MergedSet(rows, arrays));
    SortedMerged(rows, arrays, Enumerated(MergedSet(rows, arrays)));
  }

  /** The restored list can be read again, as long as it does not have too many categories. */
  ghost predicate Readable(source: seq<byte>, bodies: map<nat, Body>) {
    AllAccepted(source, bodies) && |Restoration(source, bodies)| <= MAX_DATA && |BuiltRows(source, bodies)| <= MAX_CATEGORIES
  }

  lemma RestorationHolds(source: seq<byte>, bodies: map<nat, Body>)
    requires BodiesOk(bodies) && Readable(source, bodies)
    ensures var p := Built(source, bodies);
            Restored(source, Restoration(source, bodies), Categories(source).value, BuiltRows(source, bodies), p.arrays, p.recs, bodies)
  {
    BuiltGrown(source, bodies);
    BuiltArrays(source, bodies);
    var p := Built(source, bodies);
    FinishedHolds(source, p.bytes, Categories(source).value, BuiltRows(source, bodies), p.arrays, p.recs, bodies);
  }

  method FindAll(data: seq<byte>, ids: set<nat>) returns (ok: bool)
    ensures ok <==> forall id :: id in ids ==> Find(data, id).Ok?
  {
    var rest := ids;
    while rest != {}
      invariant rest <= ids && forall id :: id in ids && id !in rest ==> Find(data, id).Ok?
      decreases |rest|
    {
      var id :| id in rest;
      var r := ClientQuestRecord(data, id);
      if !r.Ok? {
        return false;
      }
      rest := rest - {id};
    }
    return true;
  }

  function Uppers(rows: seq<Category>): set<nat> { set i | 0 <= i < |rows| :: rows[i].upper }

  lemma {:induction false} UppersSize(rows: seq<Category>)
    requires Ascending(rows, UpperBelow)
    ensures |Uppers(rows)| == |rows|
  {
    if rows != [] {
      var init, last := rows[..|rows| - 1], rows[|rows| - 1];
      UppersSize(init);
      assert forall i :: 0 <= i < |init| ==> init[i] == rows[i] && UpperBelow(rows[i], last);
      assert Uppers(rows) == Uppers(init) + {last.upper};
    }
  }

  function Images(ids: set<nat>): set<nat> { set id | id in ids :: Upper(id) }

  lemma {:induction false} ImagesSize(ids: set<nat>)
    ensures |Images(ids)| <= |ids|
  {
    if ids != {} {
      var id :| id in ids;
      ImagesSize(ids - {id});
      assert Images(ids) == Images(ids - {id}) + {Upper(id)};
    }
  }

  lemma MergedCount(rows: seq<Category>, merged: seq<Category>, arrays: map<nat, nat>, bodies: map<nat, Body>)
    requires Ascending(rows, UpperBelow) && Merged(merged, rows, arrays)
    requires forall u :: u in arrays ==> exists id :: id in bodies && Upper(id) == u
    ensures |rows| <= |merged| <= |rows| + |bodies|
  {
    UppersSize(rows);
    UppersSize(merged);
    ImagesSize(bodies.Keys);
    forall i | 0 <= i < |rows|
      ensures rows[i].upper in Uppers(merged)
    {
      assert rows[i] in rows && rows[i] in merged;
      var k :| 0 <= k < |merged| && merged[k] == rows[i];
    }
    forall k | 0 <= k < |merged|
      ensures merged[k].upper in Uppers(rows) + Images(bodies.Keys)
    {
      if merged[k] in rows {
        var i :| 0 <= i < |rows| && rows[i] == merged[k];
      } else {
        assert NewRow(arrays, merged[k]);
      }
    }
    SubsetSize(Uppers(rows), Uppers(merged));
    SubsetSize(Uppers(merged), Uppers(rows) + Images(bodies.Keys));
  }

  /** A list whose length does not fit would not have been found readable. */
  lemma NotTooMany(b: seq<byte>, rows: seq<Category>, merged: seq<Category>, bodies: map<nat, Body>)
    requires |b| >= HEAD && |rows| <= MAX_CATEGORIES && |merged| <= |rows| + |bodies| < WORD_LIMIT
    requires |Finished(b, merged)| <= MAX_DATA
    requires bodies != map[] ==> exists id :: id in bodies && Find(Finished(b, merged), id).Ok?
    ensures |merged| <= MAX_CATEGORIES
  {
    if bodies != map[] {
      FinishedHeader(b, merged);
      FinishedCount(b, merged);
    }
  }

  lemma FinishedHolds(source: seq<byte>, b: seq<byte>, rows: seq<Category>, merged: seq<Category>,
                      arrays: map<nat, nat>, recs: map<nat, nat>, bodies: map<nat, Body>)
    requires Categories(source) == Ok(rows) && Merged(merged, rows, arrays) && (forall u :: u in arrays ==> !Taken(rows, u))
    requires recs.Keys == bodies.Keys && (forall u :: u in arrays <==> exists id :: id in bodies && Upper(id) == u)
    requires |source| <= |b| && b[..|source|] == source && HEAD <= |source|
    requires Listed(b, |b|, |source|, arrays, recs, bodies) && BodiesOk(bodies)
    requires |Finished(b, merged)| <= MAX_DATA && |merged| <= MAX_CATEGORIES
    ensures Restored(source, Finished(b, merged), rows, merged, arrays, recs, bodies)
  {
    CategoriesSound(source, rows);
    TablePlaced(b, merged);
    FinishedListed(source, b, merged, arrays, recs, bodies);
    MergedStorable(source, b, rows, merged, arrays, recs, bodies);
    FinishedCategories(source, b, merged);
  }

  lemma MergedStorable(source: seq<byte>, b: seq<byte>, rows: seq<Category>, merged: seq<Category>,
                       arrays: map<nat, nat>, recs: map<nat, nat>, bodies: map<nat, Body>)
    requires Categories(source) == Ok(rows) && Merged(merged, rows, arrays) && BodiesOk(bodies)
    requires forall u :: u in arrays <==> exists id :: id in bodies && Upper(id) == u
    requires |source| <= |b| <= MAX_DATA && b[..|source|] == source && Listed(b, |b|, |source|, arrays, recs, bodies) && HEAD <= |source|
    ensures merged != [] && forall row :: row in merged ==> Storable(row) && CategoryOk(b, row)
  {
    CategoriesSound(source, rows);
    forall u | u in arrays
      ensures 0 < u < WORD_LIMIT
    {
      var id :| id in bodies && Upper(id) == u;
      UpperIs(id);
    }
    assert rows[0] in merged;
  }

  /** A list in which every quest is found has few enough categories. */
  lemma RestorableReadable(source: seq<byte>, bodies: map<nat, Body>)
    requires BodiesOk(bodies) && Restorable(source, bodies)
    ensures Readable(source, bodies) && forall id :: id in bodies ==> 0 < id < 40000
  {
    BuiltArrays(source, bodies);
    CategoriesSound(source, Categories(source).value);
    FewCategories(Built(source, bodies).bytes, Categories(source).value, BuiltRows(source, bodies), Built(source, bodies).arrays, bodies);
  }

  lemma FewCategories(b: seq<byte>, rows: seq<Category>, merged: seq<Category>, arrays: map<nat, nat>, bodies: map<nat, Body>)
    requires |b| >= HEAD && |rows| <= MAX_CATEGORIES && Ascending(rows, UpperBelow) && Merged(merged, rows, arrays)
    requires forall u :: u in arrays ==> exists id :: id in bodies && Upper(id) == u
    requires |Finished(b, merged)| <= MAX_DATA && forall id :: id in bodies ==> Find(Finished(b, merged), id).Ok?
    ensures |merged| <= MAX_CATEGORIES && forall id :: id in bodies ==> 0 < id < 40000
  {
    NumbersBelow(bodies.Keys, 40000);
    MergedCount(rows, merged, arrays, bodies);
    NotTooMany(b, rows, merged, bodies);
  }
}
