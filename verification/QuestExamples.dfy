/** Lists and quests for which a restoration does not do what one would expect of it. */
module QuestExamples {
  import opened Bytes
  import opened Layout
  import opened QuestInfos
  import opened QuestDrafts
  import opened StageBodies
  import opened QuestFinds
  import opened Sorting

  /** Where the only record of the example list is. */
  const RECORD := 536

  function Header(): seq<byte> { LongBytes(INFO_MAGIC) + LongBytes(6) + Zeros(4) + LongBytes(HEAD) + Zeros(120) }

  function Slots(id: nat): seq<byte> { Patched(Zeros(ARRAY_SIZE), id % SLOTS * 4, LongBytes(RECORD)) }

  function EmptyRecord(id: nat): seq<byte> { Patched(Zeros(RECORD_SIZE), ID_FIELD, WordBytes(id)) }

  function Front(id: nat): seq<byte> { Header() + Slots(id) + EmptyRecord(id) }

  /** A quest list of one category with one quest. */
  function ListOf(upper: nat, id: nat): seq<byte> { Finished(Front(id), [Category(upper, SLOTS, HEAD)]) }


  lemma HeaderReads(b: seq<byte>)
    requires |b| >= HEAD && b[..HEAD] == Header() && |b| <= MAX_DATA
    ensures HeaderOk(b)
  {
    var h, a := Header(), LongBytes(INFO_MAGIC);
    LongAfter(h, [], INFO_MAGIC);
    LongAfter(h, a, 6);
    LongAfter(h, a + LongBytes(6) + Zeros(4), HEAD);
    HeadLong(b, h, 0);
    HeadLong(b, h, 4);
    HeadLong(b, h, 12);
  }

  /** A number that stands behind the head a of b. */
  lemma LongAfter(b: seq<byte>, a: seq<byte>, v: nat)
    requires |a| + 4 <= |b| && b[..|a| + 4] == a + LongBytes(v) && v < LONG_LIMIT
    ensures Long(b, |a|) == v
  {
    assert b[|a|..|a| + 4] == b[..|a| + 4][|a|..] == LongBytes(v);
    LongGiven(b, |a|, v);
  }

  lemma HeadLong(b: seq<byte>, h: seq<byte>, p: nat)
    requires |h| <= |b| && b[..|h|] == h && p + 4 <= |h|
    ensures Long(b, p) == Long(h, p)
  {
    PartOf(b, 0, |h|, p, 4);
    LongSame(b, p, h, p);
  }

  /** The example list, as the client reads it. */
  lemma ListRead(upper: nat, id: nat)
    requires 0 < id <= upper < WORD_LIMIT && id < 40000
    ensures Categories(ListOf(upper, id)) == Ok([Category(upper, SLOTS, HEAD)])
    ensures First([Category(upper, SLOTS, HEAD)], id) == Ok(Category(upper, SLOTS, HEAD))
    ensures Find(ListOf(upper, id), id) == Ok(RECORD) && |ListOf(upper, id)| <= 1000 && Lone(ListOf(upper, id), upper, id)
  {
    var b, rows := Front(id), [Category(upper, SLOTS, HEAD)];
    assert b[..HEAD] == Header();
    HeaderReads(b);
    FinishedCategories(b, b, rows);
    FinishedKeeps(b, rows, HEAD, |b|);
    TablePlaced(b, rows);
    var list := ListOf(upper, id);
    assert list[HEAD..|b|] == WithTable(b, rows)[..|b|][HEAD..] == b[HEAD..];
    SlotPut(id);
    ListSlot(list, id);
  }

  lemma SlotPut(id: nat)
    requires id < WORD_LIMIT
    ensures |Front(id)| == 856
    ensures Long(Front(id), HEAD + id % SLOTS * 4) == RECORD && Word(Front(id), RECORD + ID_FIELD) == id
  {
    var b, s, r := Front(id), Slots(id), EmptyRecord(id);
    LongPut(Zeros(ARRAY_SIZE), id % SLOTS * 4, RECORD);
    WordPut(Zeros(RECORD_SIZE), ID_FIELD, id);
    assert b[HEAD..HEAD + ARRAY_SIZE] == s && b[RECORD..RECORD + RECORD_SIZE] == r;
    PartOf(b, HEAD, ARRAY_SIZE, id % SLOTS * 4, 4);
    LongSame(b, HEAD + id % SLOTS * 4, s, id % SLOTS * 4);
    PartOf(b, RECORD, RECORD_SIZE, ID_FIELD, 2);
    WordSame(b, RECORD + ID_FIELD, r, ID_FIELD);
  }

  lemma ListSlot(list: seq<byte>, id: nat)
    requires 856 <= |list| && |Front(id)| == 856 && list[HEAD..856] == Front(id)[HEAD..] && id < WORD_LIMIT
    requires Long(Front(id), HEAD + id % SLOTS * 4) == RECORD && Word(Front(id), RECORD + ID_FIELD) == id
    ensures forall upper: nat :: SlotOf(list, Category(upper, SLOTS, HEAD), id) == Ok(RECORD)
  {
    var b, slot := Front(id), HEAD + id % SLOTS * 4;
    assert b[HEAD..] == b[HEAD..856];
    MiddleSlice(b, list, HEAD, 856, slot, slot + 4);
    LongSame(list, slot, b, slot);
    MiddleSlice(b, list, HEAD, 856, RECORD + ID_FIELD, RECORD + ID_FIELD + 2);
    WordSame(list, RECORD + ID_FIELD, b, RECORD + ID_FIELD);
  }

  // ------------------------------------------------------------------
  // A stage body with geometry and eight empty texts.

  const STAGE_TEXTS := FRONT + RECORD_SIZE

  function StageFront(): seq<byte> { LongBytes(FRONT) + Zeros(16) + LongBytes(FRONT) + Zeros(44) }

  function StageRecord(id: nat): seq<byte> { Patched(EmptyRecord(id), TEXTS, LongBytes(STAGE_TEXTS)) }

  function Repeated(v: nat, n: nat): (b: seq<byte>)
    ensures |b| == n * 4
  {
    if n == 0 then [] else Repeated(v, n - 1) + LongBytes(v)
  }

  function StageFile(id: nat): seq<byte> { StageFront() + StageRecord(id) + Repeated(STAGE_TEXTS + 32, TEXT_COUNT) + [0] }

  function EmptyBody(id: nat): Body { Body(StageRecord(id), [[], [], [], [], [], [], [], []]) }

  /** Inspecting it gives the record and the texts. */
  lemma StageRead(id: nat)
    requires id < IDS
    ensures BodyOf(StageFile(id)) == EmptyBody(id)
    ensures Usable(EmptyBody(id), id) && Whole(EmptyBody(id)) && Genuine(EmptyBody(id))
  {
    var d, r := StageFile(id), StageRecord(id);
    StageParts(id, TEXT_COUNT);
    FrontRead(d);
    RecordRead(id);
    assert d[FRONT..FRONT + RECORD_SIZE] == r;
    StageTexts(d);
  }

  lemma StageParts(id: nat, n: nat)
    requires n == TEXT_COUNT
    ensures |StageFile(id)| == STAGE_TEXTS + 33 && StageFile(id)[..FRONT] == StageFront()
    ensures StageFile(id)[FRONT..STAGE_TEXTS] == StageRecord(id)
    ensures StageFile(id)[STAGE_TEXTS..STAGE_TEXTS + n * 4] == Repeated(STAGE_TEXTS + 32, n) && StageFile(id)[STAGE_TEXTS + 32] == 0
  {
  }

  lemma FrontRead(d: seq<byte>)
    requires |d| >= FRONT + RECORD_SIZE && d[..FRONT] == StageFront()
    ensures WellFormed(d) && Long(d, 0) == FRONT && Long(d, GEOMETRY) == FRONT
  {
    var f, a := StageFront(), LongBytes(FRONT) + Zeros(16);
    LongAfter(f, [], FRONT);
    LongAfter(f, a, FRONT);
    HeadLong(d, f, 0);
    HeadLong(d, f, GEOMETRY);
    ZeroHead(d, f, 4);
    ZeroHead(d, f, MONSTERS);
    ZeroHead(d, f, 0x28);
  }

  lemma ZeroHead(d: seq<byte>, f: seq<byte>, p: nat)
    requires |f| <= |d| && d[..|f|] == f && p + 4 <= |f| && f[p..p + 4] == Zeros(4)
    ensures Long(d, p) == 0
  {
    HeadLong(d, f, p);
    assert forall i :: p <= i < p + 4 ==> f[i] == f[p..p + 4][i - p];
  }

  lemma RecordRead(id: nat)
    requires id < IDS
    ensures Long(StageRecord(id), TEXTS) == STAGE_TEXTS && Word(StageRecord(id), ID_FIELD) == id
  {
    var r := EmptyRecord(id);
    LongPut(r, TEXTS, STAGE_TEXTS);
    WordPut(Zeros(RECORD_SIZE), ID_FIELD, id);
    SliceElsewhere(r, TEXTS, LongBytes(STAGE_TEXTS), ID_FIELD, ID_FIELD + 2);
    WordSame(StageRecord(id), ID_FIELD, r, ID_FIELD);
  }

  lemma StageTexts(d: seq<byte>)
    requires |d| == STAGE_TEXTS + 33 && d[STAGE_TEXTS + 32] == 0
    requires d[STAGE_TEXTS..STAGE_TEXTS + 32] == Repeated(STAGE_TEXTS + 32, TEXT_COUNT)
    ensures Texts(d, STAGE_TEXTS) == Ok([[], [], [], [], [], [], [], []])
  {
    forall i | 0 <= i < TEXT_COUNT
      ensures EntryOf(d, STAGE_TEXTS, i) == Ok([])
    {
      RepeatedAt(STAGE_TEXTS + 32, TEXT_COUNT, i);
      PartOf(d, STAGE_TEXTS, 32, i * 4, 4);
      LongGiven(d, STAGE_TEXTS + i * 4, STAGE_TEXTS + 32);
      assert d[STAGE_TEXTS + 32..STAGE_TEXTS + 33] == [] + [0];
      TextIff(d, STAGE_TEXTS + i * 4, []);
    }
    assert AllTexts(d, STAGE_TEXTS);
    var texts := Texts(d, STAGE_TEXTS).value;
    assert |texts| == TEXT_COUNT && forall i :: 0 <= i < TEXT_COUNT ==> texts[i] == [];
    assert texts == [[], [], [], [], [], [], [], []];
  }

  lemma {:induction false} RepeatedAt(v: nat, n: nat, i: nat)
    requires i < n
    ensures Repeated(v, n)[i * 4..i * 4 + 4] == LongBytes(v)
  {
    if i < n - 1 {
      RepeatedAt(v, n - 1, i);
      assert Repeated(v, n)[i * 4..i * 4 + 4] == Repeated(v, n - 1)[i * 4..i * 4 + 4];
    }
  }

  // ------------------------------------------------------------------
  // One quest added to the list.

  /** One usable body, which is not too long. */
  ghost predicate Single(bodies: map<nat, Body>, id: nat) {
    bodies.Keys == {id} && BodiesOk(bodies) && Usable(bodies[id], id) && StageSize(bodies[id]) <= 1000
  }

  /** A short list of one category, whose upper bound this is, in which the client finds the quest held. */
  ghost predicate Lone(source: seq<byte>, upper: nat, held: nat) {
    && Categories(source) == Ok([Category(upper, SLOTS, HEAD)]) && First([Category(upper, SLOTS, HEAD)], held) == Ok(Category(upper, SLOTS, HEAD))
    && Find(source, held) == Ok(RECORD) && |source| <= 1000
  }

  lemma OneAccepted(source: seq<byte>, upper: nat, held: nat, id: nat, bodies: map<nat, Body>)
    requires Lone(source, upper, held) && 0 < id < 40000 && upper != Upper(id) && Single(bodies, id)
    ensures Numbered(bodies) && AllAccepted(source, bodies)
  {
    assert forall k :: k in bodies ==> k == id;
  }

  /** A list with one more quest is short, and has two categories. */
  lemma OneReadable(source: seq<byte>, upper: nat, held: nat, id: nat, bodies: map<nat, Body>)
    requires Lone(source, upper, held) && 0 < id < 40000 && upper != Upper(id) && Single(bodies, id)
    requires AllAccepted(source, bodies)
    ensures Readable(source, bodies)
  {
    BuiltArrays(source, bodies);
    CategoriesSound(source, Categories(source).value);
    MergedCount(Categories(source).value, BuiltRows(source, bodies), Built(source, bodies).arrays, bodies);
    OneBuilt(source, id, bodies);
  }

  lemma RestorableOne(source: seq<byte>, id: nat, bodies: map<nat, Body>)
    requires bodies.Keys == {id} && Readable(source, bodies) && Find(Restoration(source, bodies), id).Ok?
    ensures Restorable(source, bodies)
  {
    assert forall k :: k in bodies ==> k == id;
  }

  /** The new category comes first, or the old one is below the ID. */
  lemma FoundAlone(source: seq<byte>, upper: nat, held: nat, id: nat, bodies: map<nat, Body>)
    requires Lone(source, upper, held) && 0 < id < 40000 && (upper < id || Upper(id) < upper) && id <= Upper(id) && Single(bodies, id)
    requires Readable(source, bodies) && Numbered(bodies)
    ensures Restorable(source, bodies)
  {
    FoundIfUnobstructed(source, bodies, id);
    RestorableOne(source, id, bodies);
  }

  lemma OneBuilt(source: seq<byte>, id: nat, bodies: map<nat, Body>)
    requires Single(bodies, id) && AllAccepted(source, bodies) && |source| <= 1000
    ensures |Built(source, bodies).bytes| <= 3000
  {
    OnlyOne(InOrder(bodies.Keys), id);
    AfterOne(source, bodies, id);
  }

  lemma OnlyOne(ids: seq<nat>, id: nat)
    requires Lists(ids, {id}, IdBelow)
    ensures ids == [id]
  {
    assert id in ids;
    assert |ids| > 1 ==> ids[0] in ids && ids[1] in ids && IdBelow(ids[0], ids[1]);
  }

  lemma AfterOne(source: seq<byte>, bodies: map<nat, Body>, id: nat)
    requires Given(bodies, [id]) && id in bodies && Whole(bodies[id])
    ensures |AfterStages(source, bodies, [id]).bytes| <= |source| + 406 + StageSize(bodies[id])
  {
    assert [id][..0] == [];
    StageLength(Progress(source, map[], map[]), id, bodies[id]);
  }

  lemma StageLength(p: Progress, id: nat, body: Body)
    requires p.Fits() && Whole(body)
    ensures |WithStage(p, id, body).bytes| <= |p.bytes| + 406 + StageSize(body)
  {
  }

  /**
   * An old category below the new one leads to a record of the quest already, as 27050 may to one of 27001. The
   * category 27100 does not exist, so the quest is accepted and added; but the client finds the old record.
   */
  lemma OldRecordFound(source: seq<byte>, upper: nat, id: nat, bodies: map<nat, Body>)
    requires Lone(source, upper, id) && 0 < id <= upper < Upper(id) && id < 40000 && Single(bodies, id)
    ensures Restorable(source, bodies)
    ensures Find(Restoration(source, bodies), id) == Ok(RECORD) && RECORD < RecordOf(source, bodies, id)
  {
    OneAccepted(source, upper, id, id, bodies);
    OneReadable(source, upper, id, id, bodies);
    KeepsOld(source, bodies, id, Category(upper, SLOTS, HEAD), RECORD);
    RecordAdded(source, bodies, id);
    RestorableOne(source, id, bodies);
  }

  /**
   * The new category of an added quest comes before the old one that holds another quest, as 27100, added for 27001,
   * comes before 27180 that holds 27050. The client no longer finds the other quest.
   */
  lemma OldQuestHidden(source: seq<byte>, upper: nat, held: nat, id: nat, bodies: map<nat, Body>)
    requires Lone(source, upper, held) && 0 < id < held <= Upper(id) < upper && held < 40000 && Single(bodies, id)
    ensures Restorable(source, bodies)
    ensures Find(source, held) == Ok(RECORD) && Find(Restoration(source, bodies), held) == Failed
  {
    OneAccepted(source, upper, held, id, bodies);
    OneReadable(source, upper, held, id, bodies);
    FoundAlone(source, upper, held, id, bodies);
    assert id in bodies && held <= Upper(id) < upper;
    KeepsOld(source, bodies, held, Category(upper, SLOTS, HEAD), RECORD);
  }

  /** An added quest alone, above the old category, is found. */
  lemma OneRestored(source: seq<byte>, upper: nat, held: nat, id: nat, bodies: map<nat, Body>)
    requires Lone(source, upper, held) && upper < id < 40000 && Single(bodies, id)
    ensures Restorable(source, bodies)
  {
    UpperIs(id);
    OneAccepted(source, upper, held, id, bodies);
    OneReadable(source, upper, held, id, bodies);
    FoundAlone(source, upper, held, id, bodies);
  }

  /**
   * The new category of one quest captures another, as 27100, added for 27001, captures 27100. Nothing is restored,
   * though no body is refused.
   */
  lemma NeighbourRefused(source: seq<byte>, id: nat, other: nat, bodies: map<nat, Body>)
    requires Lone(source, 100, 1) && 100 < id < other == Upper(id) < 40000
    requires bodies.Keys == {id, other} && BodiesOk(bodies) && Usable(bodies[id], id) && Usable(bodies[other], other)
    ensures AllAccepted(source, bodies) && !Restorable(source, bodies)
  {
    UpperIs(id);
    UpperIs(other);
    assert forall k :: k in bodies ==> k == id || k == other;
    Captured(source, bodies, id, other);
  }

  lemma Captured(source: seq<byte>, bodies: map<nat, Body>, id: nat, other: nat)
    requires BodiesOk(bodies) && AllAccepted(source, bodies) && id in bodies && other in bodies
    requires Upper(id) == other && forall row :: row in Categories(source).value ==> row.upper < other
    ensures !Restorable(source, bodies)
  {
    if Restorable(source, bodies) {
      RestorableReadable(source, bodies);
      UpperIs(other);
      FoundIfUnobstructed(source, bodies, other);
      assert NewBetween(bodies, other, Upper(other));
    }
  }

  // ------------------------------------------------------------------
  // The three at concrete numbers.

  /** A stage body of this quest, as decoded bytes. */
  lemma StageOf(id: nat) returns (stage: seq<byte>)
    requires id < IDS
    ensures Usable(BodyOf(stage), id) && Genuine(BodyOf(stage)) && StageSize(BodyOf(stage)) <= 1000
  {
    stage := StageFile(id);
    StageRead(id);
    EmptySize(id);
  }

  lemma EmptySize(id: nat)
    ensures StageSize(EmptyBody(id)) == RECORD_SIZE + TEXT_TABLE + TEXT_COUNT
  {
    EmptyTexts(EmptyBody(id).texts);
  }

  lemma {:induction false} EmptyTexts(texts: seq<seq<byte>>)
    requires forall i :: 0 <= i < |texts| ==> texts[i] == []
    ensures |TextBlock(texts)| == |texts|
  {
    if texts != [] {
      EmptyTexts(texts[..|texts| - 1]);
    }
  }

  lemma OneStage(id: nat) returns (stages: map<nat, seq<byte>>)
    requires id < IDS
    ensures Single(Bodies(stages), id)
  {
    var stage := StageOf(id);
    stages := map[id := stage];
  }

  lemma TwoStages(id: nat, other: nat) returns (stages: map<nat, seq<byte>>)
    requires id < IDS && other < IDS && id != other
    ensures Bodies(stages).Keys == {id, other} && BodiesOk(Bodies(stages))
    ensures Usable(Bodies(stages)[id], id) && Usable(Bodies(stages)[other], other)
  {
    var stage := StageOf(id);
    var second := StageOf(other);
    stages := map[id := stage, other := second];
  }

  /** Lists and decoded stage bodies for the three. */
  lemma Instances() returns (source: seq<byte>, hiding: seq<byte>, plain: seq<byte>, stages: map<nat, seq<byte>>, refused: map<nat, seq<byte>>)
    ensures var bodies := Bodies(stages);
            && BodiesOk(bodies) && 27001 in bodies && Restorable(source, bodies)
            && Find(Restoration(source, bodies), 27001) == Ok(RECORD) && RECORD < RecordOf(source, bodies, 27001)
            && Restorable(hiding, bodies) && Find(hiding, 27050) == Ok(RECORD) && Find(Restoration(hiding, bodies), 27050) == Failed
    ensures 27001 in refused && 27100 in refused && AllAccepted(plain, Bodies(refused)) && !Restorable(plain, Bodies(refused))
  {
    var id, held, other, upper, above := 27001, 27050, 27100, 27050, 27180;
    UpperIs(id);
    stages := OneStage(id);
    refused := TwoStages(id, other);
    source := LoneList(upper, id);
    hiding := LoneList(above, held);
    plain := LoneList(100, 1);
    OldRecordFound(source, upper, id, Bodies(stages));
    OldQuestHidden(hiding, above, held, id, Bodies(stages));
    NeighbourRefused(plain, id, other, Bodies(refused));
  }

  lemma LoneList(upper: nat, held: nat) returns (source: seq<byte>)
    requires 0 < held <= upper < WORD_LIMIT && held < 40000
    ensures Lone(source, upper, held)
  {
    source := ListOf(upper, held);
    ListRead(upper, held);
  }
}
