/** Client data whose draft changes a byte of a record that is still read. */
module RouteExamples {
  import opened Bytes
  import opened Layout
  import opened RouteBanks
  import opened ClientDrafts
  import QuestDrafts
  import QuestExamples
  import QuestFinds
  import QuestInfos
  import StageBodies

  const STAGE := 27001

  /** A record of one stage, read word by word; bytes 16 to 75 are never read. */
  predicate PlainAt(d: seq<byte>, at: nat, star: nat) {
    && at + RECORD_SIZE <= |d| && Long(d, at) == 1 && Word(d, at + 12) == 10001 + star * 1000 && Word(d, at + 14) == star + 1
    && Long(d, at + STAGE_OFFSET) == STAGE && forall j :: 1 <= j < STAGE_SLOTS ==> Long(d, at + STAGE_OFFSET + j * 0x10) == 0
  }

  function PlainRoute(star: nat): Route { Route(0, star, star * 100 + 1, 10001 + star * 1000, [STAGE]) }

  lemma RecordLong(d: seq<byte>, at: nat, p: nat)
    requires at + RECORD_SIZE <= |d| && p + 4 <= RECORD_SIZE
    ensures Long(d[at..at + RECORD_SIZE], p) == Long(d, at + p)
  {
    PartOf(d, at, RECORD_SIZE, p, 4);
    LongSame(d[at..at + RECORD_SIZE], p, d, at + p);
  }

  lemma RecordShort(d: seq<byte>, at: nat, p: nat)
    requires at + RECORD_SIZE <= |d| && p + 2 <= RECORD_SIZE
    ensures Word(d[at..at + RECORD_SIZE], p) == Word(d, at + p)
  {
    PartOf(d, at, RECORD_SIZE, p, 2);
    WordSame(d[at..at + RECORD_SIZE], p, d, at + p);
  }

  lemma {:induction false} ZeroStages(slots: seq<nat>)
    requires forall j :: 0 <= j < |slots| ==> slots[j] == 0
    ensures Stages(slots, true) == Ok([])
  {
    if slots != [] {
      ZeroStages(slots[1..]);
    }
  }

  lemma OneStage(slots: seq<nat>)
    requires |slots| > 1 && slots[0] == STAGE && forall j :: 1 <= j < |slots| ==> slots[j] == 0
    ensures Stages(slots, false) == Ok([STAGE])
  {
    var rest := slots[1..];
    assert rest[0] == 0;
    ZeroStages(rest[1..]);
    assert Stages(rest, false) == Ok([]);
    var one: seq<nat> := [STAGE];
    assert one + [] == one && slots[1..] == rest;
    assert Stages(slots, false) == Prepend([slots[0]], Stages(rest, false));
  }

  lemma PlainRecord(d: seq<byte>, at: nat, star: nat)
    requires PlainAt(d, at, star) && star <= 10
    ensures RecordOf(d[at..at + RECORD_SIZE], |d|, 0) == Ok(PlainRoute(star))
  {
    var r := d[at..at + RECORD_SIZE];
    RecordLong(d, at, 0);
    RecordShort(d, at, 12);
    RecordShort(d, at, 14);
    forall j | 0 <= j < STAGE_SLOTS
      ensures RouteBanks.Slots(r)[j] == if j == 0 then STAGE else 0
    {
      RecordLong(d, at, STAGE_OFFSET + j * STAGE_STRIDE);
    }
    OneStage(RouteBanks.Slots(r));
  }

  /** A record of its star and then something else is a bank of one route. */
  lemma PlainBank(d: seq<byte>, at: nat, star: nat)
    requires PlainAt(d, at, star) && star <= 10 && at + 0x10c + 16 <= |d| && Word(d, at + 0x10c + 14) != star + 1
    ensures Bank(d, star, at) == Ok([PlainRoute(star)]) && Holds(d, star, at, [PlainRoute(star)])
  {
    PlainRecord(d, at, star);
    RecordShort(d, at, 14);
    assert Record(d, at, 0) == d[at..at + RECORD_SIZE];
    BankHolds(d, star, at, [PlainRoute(star)]);
  }

  /** Eleven banks of one record each, side by side; the last record is the catalogue, too; the counts lie in the first. */
  ghost predicate Prepared(d: seq<byte>, first: nat, pointers: nat) {
    && BANKS_HEADER + 4 <= pointers && pointers + BANK_COUNT * 4 <= first && |d| == first + 11 * 0x10c + 16 <= 10000
    && Long(d, 0) == MAGIC && Long(d, BANKS_HEADER) == pointers
    && (forall s :: 0 <= s < BANK_COUNT ==> Long(d, pointers + s * 4) == first + s * 0x10c && PlainAt(d, first + s * 0x10c, s))
    && d[first + 11 * 0x10c..] == Zeros(16)
    && Long(d, CATALOGUE_HEADER) == first + 10 * 0x10c
    && Long(d, QUANTITIES_POINTER) + 0x370 == first + 16 && first >= 1000
    && Word(d, first + 16) == BANK_COUNT && forall s :: 0 <= s < BANK_COUNT ==> Word(d, first + 18 + s * 2) == 1
  }

  lemma {:induction false} JoinedOk(banks: seq<Result<seq<Route>>>)
    requires forall k :: 0 <= k < |banks| ==> banks[k].Ok?
    ensures Joined(banks).Ok?
  {
    if banks != [] {
      JoinedOk(banks[1..]);
    }
  }

  lemma PreparedBank(d: seq<byte>, first: nat, pointers: nat, s: nat)
    requires Prepared(d, first, pointers) && s < BANK_COUNT
    ensures BankOf(d, pointers, s) == Ok([PlainRoute(s)]) && Holds(d, s, first + s * 0x10c, [PlainRoute(s)])
  {
    var at := first + s * 0x10c;
    assert PlainAt(d, at, s);
    if s < 10 {
      assert PlainAt(d, first + (s + 1) * 0x10c, s + 1);
    } else {
      EndWord(d, first + 11 * 0x10c);
    }
    PlainBank(d, at, s);
  }

  lemma EndWord(d: seq<byte>, at: nat)
    requires at + 16 == |d| && d[at..] == Zeros(16)
    ensures Word(d, at + 14) == 0 && d[at..at + 16] == Zeros(16)
  {
    assert d[at + 14] == d[at..][14] && d[at + 15] == d[at..][15];
  }

  lemma PreparedRoutes(d: seq<byte>, first: nat, pointers: nat) returns (active: seq<Route>)
    requires Prepared(d, first, pointers)
    ensures Pointers(d) == Ok(pointers) && RoutesOf(d) == Ok(active)
    ensures forall s :: 0 <= s < BANK_COUNT ==> CountOf(active, s) == 1
  {
    forall s | 0 <= s < BANK_COUNT
      ensures BanksOf(d, pointers)[s].Ok?
    {
      PreparedBank(d, first, pointers, s);
    }
    JoinedOk(BanksOf(d, pointers));
    active := RoutesOf(d).value;
    forall s | 0 <= s < BANK_COUNT
      ensures CountOf(active, s) == 1
    {
      PreparedBank(d, first, pointers, s);
      var bank := BankNumbered(d, pointers, active, s);
    }
  }

  lemma PreparedCatalogue(d: seq<byte>, first: nat, pointers: nat)
    requires Prepared(d, first, pointers)
    ensures TableOf(d) == Ok(first + 10 * 0x10c) && Catalogue(d) == Ok([PlainRoute(10)])
  {
    var table := first + 10 * 0x10c;
    assert PlainAt(d, table, 10);
    EndWord(d, first + 11 * 0x10c);
    PlainCatalogue(d, table, 10);
  }

  lemma PlainCatalogue(d: seq<byte>, table: nat, star: nat)
    requires TableOf(d) == Ok(table) && PlainAt(d, table, star) && star <= 10 && table + 0x10c + 16 <= |d|
    requires d[table + 0x10c..table + 0x10c + 16] == Zeros(16)
    ensures Catalogue(d) == Ok([PlainRoute(star)])
  {
    PlainRecord(d, table, star);
    NotZero(d, table);
    assert Record(d, table, 0) == d[table..table + RECORD_SIZE];
    assert CatalogueAt(d, table, 0, PlainRoute(star));
    CatalogueIs(d, table, [PlainRoute(star)]);
  }

  lemma NotZero(d: seq<byte>, at: nat)
    requires at + 16 <= |d| && Long(d, at) == 1
    ensures d[at..at + 16] != Zeros(16)
  {
    assert d[at..at + 16][0] == d[at] && d[at] == 1;
  }

  lemma PreparedCounts(d: seq<byte>, first: nat, pointers: nat, active: seq<Route>)
    requires Prepared(d, first, pointers) && forall s :: 0 <= s < BANK_COUNT ==> CountOf(active, s) == 1
    ensures CountsMatch(d, active) && Quantities(d) + COUNTS == first + 18
  {
  }

  /** Everything that is checked before the draft. */
  lemma PreparedSelection(d: seq<byte>, first: nat, pointers: nat, bodies: map<nat, StageBodies.Body>) returns (active: seq<Route>)
    requires Prepared(d, first, pointers) && bodies.Keys == {STAGE}
    ensures Selection(d, 1001, bodies.Keys) == Ok((active, PlainRoute(10))) && Chosen(d, active, PlainRoute(10))
    ensures CountOf(active, 10) == 1
  {
    active := PreparedRoutes(d, first, pointers);
    PreparedCatalogue(d, first, pointers);
    PreparedCounts(d, first, pointers, active);
    assert [PlainRoute(10)][..0] == [];
    assert |bodies| == |bodies.Keys| == 1;
    assert LastOf([PlainRoute(10)], 1001) == Ok(PlainRoute(10));
  }

  // ------------------------------------------------------------------
  // The draft.

  /** The byte that changes: the low byte of the last count, in the record of the first bank. */
  function Changed(first: nat): nat { first + 38 }

  /** The plan of the draft: one record in the last bank, whose count is the word that changes. */
  ghost predicate Ready(p: Plan, first: nat) {
    && p.Fits() && p.star == 10 && p.ordinal == 1 && p.countWord == Changed(first) && Word(p.dat, p.countWord) == 1
    && first >= BANKS_HEADER + 4 && first + RECORD_SIZE <= |p.dat| <= 10000
  }

  lemma PreparedPlan(d: seq<byte>, first: nat, pointers: nat, active: seq<Route>) returns (p: Plan)
    requires Prepared(d, first, pointers) && Chosen(d, active, PlainRoute(10)) && CountOf(active, 10) == 1
    ensures p == PlanOf(d, active, PlainRoute(10)) && Planned(p, active, PlainRoute(10))
    ensures p.dat == d && p.pointers == pointers && Ready(p, first)
  {
    p := PlanOf(d, active, PlainRoute(10));
    PlanPlanned(d, active, PlainRoute(10));
    PlanFits(p, active, PlainRoute(10));
    CountAt(d, first, pointers);
  }

  lemma CountAt(d: seq<byte>, first: nat, pointers: nat)
    requires Prepared(d, first, pointers)
    ensures Word(d, Changed(first)) == 1 && Quantities(d) + COUNTS + 20 == Changed(first)
  {
    assert Word(d, first + 18 + 10 * 2) == 1;
  }

  lemma DraftSize(p: Plan, first: nat)
    requires Ready(p, first)
    ensures |p.dat| <= |p.Drafted()| <= 20000 && p.NewTable() + BANK_COUNT * 4 <= |p.Drafted()|
  {
  }

  /** Nothing behind the header differs but that byte. */
  ghost predicate Still(d: seq<byte>, b: seq<byte>, first: nat) {
    |d| <= |b| && forall i :: BANKS_HEADER + 4 <= i < |d| && i != Changed(first) ==> b[i] == d[i]
  }

  lemma DraftStill(p: Plan, first: nat)
    requires Ready(p, first)
    ensures Still(p.dat, p.Drafted(), first)
  {
    DraftSize(p, first);
    forall i | BANKS_HEADER + 4 <= i < |p.dat| && i != Changed(first)
      ensures p.Drafted()[i] == p.dat[i]
    {
      DraftOld(p, i);
    }
  }

  lemma StillLong(d: seq<byte>, b: seq<byte>, first: nat, at: nat)
    requires Still(d, b, first) && BANKS_HEADER + 4 <= at && at + 4 <= |d| && (at + 4 <= Changed(first) || Changed(first) < at)
    ensures Long(b, at) == Long(d, at) && Word(b, at) == Word(d, at) && Word(b, at + 2) == Word(d, at + 2)
  {
  }

  /** The first record is read as before, though a byte of it has changed; so are the others. */
  lemma StillPlain(d: seq<byte>, b: seq<byte>, first: nat, at: nat, s: nat)
    requires Still(d, b, first) && PlainAt(d, at, s) && BANKS_HEADER + 4 <= at && (at == first || first + RECORD_SIZE <= at)
    ensures PlainAt(b, at, s)
  {
    StillLong(d, b, first, at);
    StillLong(d, b, first, at + 12);
    forall j | 0 <= j < STAGE_SLOTS
      ensures Long(b, at + STAGE_OFFSET + j * 0x10) == Long(d, at + STAGE_OFFSET + j * 0x10)
    {
      StillLong(d, b, first, at + STAGE_OFFSET + j * 0x10);
    }
    assert Long(b, at + STAGE_OFFSET + 0 * 0x10) == Long(d, at + STAGE_OFFSET + 0 * 0x10);
  }

  lemma StillBank(d: seq<byte>, b: seq<byte>, first: nat, at: nat, s: nat)
    requires Still(d, b, first) && s <= 10 && BANKS_HEADER + 4 <= at && (at == first || first + RECORD_SIZE <= at)
    requires PlainAt(d, at, s) && at + 0x10c + 16 <= |d| && Word(d, at + 0x10c + 14) != s + 1
    ensures Holds(b, s, at, [PlainRoute(s)]) && Bank(b, s, at) == Ok([PlainRoute(s)])
  {
    StillPlain(d, b, first, at, s);
    StillLong(d, b, first, at + 0x10c + 12);
    PlainBank(b, at, s);
  }

  lemma PreparedPlain(d: seq<byte>, first: nat, pointers: nat, s: nat)
    requires Prepared(d, first, pointers) && s < 10
    ensures PlainAt(d, first + s * 0x10c, s) && Word(d, first + s * 0x10c + 0x10c + 14) == s + 2
    ensures Long(d, pointers + s * 4) == first + s * 0x10c && first + s * 0x10c + 0x10c + 16 <= |d|
  {
    assert PlainAt(d, first + (s + 1) * 0x10c, s + 1);
  }

  lemma BankOk(b: seq<byte>, table: nat, s: nat, at: nat)
    requires table + BANK_COUNT * 4 <= |b| && s < BANK_COUNT && Long(b, table + s * 4) == at && BANKS_HEADER + 4 <= at
    requires Bank(b, s, at) == Ok([PlainRoute(s)]) && at + 16 <= |b|
    ensures BankOf(b, table, s).Ok?
  {
  }

  lemma LastBankOk(p: Plan, first: nat, active: seq<Route>)
    requires Ready(p, first) && Planned(p, active, PlainRoute(10))
    ensures BankOf(p.Drafted(), p.NewTable(), 10).Ok?
  {
    DraftSize(p, first);
    var bank := PlanBank(p, active, PlainRoute(10));
    PlanRecord(p, active, PlainRoute(10));
    DraftSelected(p, bank, PlainRoute(10));
  }

  lemma OtherBankOk(p: Plan, first: nat, s: nat, at: nat)
    requires Ready(p, first) && s < 10 && at == Long(p.dat, p.pointers + s * 4) && (at == first || first + RECORD_SIZE <= at)
    requires PlainAt(p.dat, at, s) && at + 0x10c + 16 <= |p.dat| && Word(p.dat, at + 0x10c + 14) == s + 2
    ensures BankOf(p.Drafted(), p.NewTable(), s).Ok? && Holds(p.Drafted(), s, at, [PlainRoute(s)])
  {
    DraftSize(p, first);
    DraftStill(p, first);
    DraftPointer(p, s);
    StillBank(p.dat, p.Drafted(), first, at, s);
    BankOk(p.Drafted(), p.NewTable(), s, at);
  }

  lemma HeaderStill(p: Plan, first: nat)
    requires Ready(p, first) && Pointers(p.dat).Ok?
    ensures Pointers(p.Drafted()) == Ok(p.NewTable())
  {
    DraftSize(p, first);
    HeaderRewritten(Aligned(p.dat), p.BankBytes(), p.RecordBytes(), p.TableBytes(), p.star, p.countWord, p.ordinal + 1);
    DraftWord(p, 0);
    DraftWord(p, 2);
  }

  lemma PreparedBankOk(p: Plan, first: nat, s: nat)
    requires Prepared(p.dat, first, p.pointers) && Ready(p, first) && s < 10
    ensures p.NewTable() + BANK_COUNT * 4 <= |p.Drafted()| && BankOf(p.Drafted(), p.NewTable(), s).Ok?
  {
    PreparedPlain(p.dat, first, p.pointers, s);
    OtherBankOk(p, first, s, first + s * 0x10c);
  }

  lemma ReadWithBanks(p: Plan, first: nat)
    requires Ready(p, first) && Pointers(p.dat).Ok? && p.NewTable() + BANK_COUNT * 4 <= |p.Drafted()|
    requires BankOf(p.Drafted(), p.NewTable(), 10).Ok? && forall s :: 0 <= s < 10 ==> BankOf(p.Drafted(), p.NewTable(), s).Ok?
    ensures DraftParses(p)
  {
    DraftSize(p, first);
    HeaderStill(p, first);
    JoinedOk(BanksOf(p.Drafted(), p.NewTable()));
  }

  lemma DraftReads(p: Plan, first: nat, active: seq<Route>)
    requires Prepared(p.dat, first, p.pointers) && Planned(p, active, PlainRoute(10)) && Ready(p, first)
    ensures DraftParses(p)
  {
    DraftSize(p, first);
    forall s | 0 <= s < 10
      ensures BankOf(p.Drafted(), p.NewTable(), s).Ok?
    {
      PreparedBankOk(p, first, s);
    }
    LastBankOk(p, first, active);
    ReadWithBanks(p, first);
  }

  lemma CountChanged(p: Plan, first: nat)
    requires Ready(p, first)
    ensures |p.dat| <= |p.Drafted()| && p.dat[Changed(first)] == 1 && p.Drafted()[Changed(first)] == 2
  {
    DraftSize(p, first);
    DraftCount(p);
  }

  lemma FirstBank(p: Plan, first: nat)
    requires Prepared(p.dat, first, p.pointers) && Ready(p, first)
    ensures Holds(p.dat, 0, first, [PlainRoute(0)]) && Holds(p.Drafted(), 0, first, [PlainRoute(0)])
  {
    BankKept(p, first, 0, first);
  }

  lemma BankKept(p: Plan, first: nat, s: nat, at: nat)
    requires Prepared(p.dat, first, p.pointers) && Ready(p, first) && s < 10 && at == first + s * 0x10c
    ensures Holds(p.dat, s, at, [PlainRoute(s)]) && Holds(p.Drafted(), s, at, [PlainRoute(s)])
  {
    PreparedBank(p.dat, first, p.pointers, s);
    PreparedPlain(p.dat, first, p.pointers, s);
    OtherBankOk(p, first, s, at);
  }

  /** The draft of prepared data, and the record that changes. */
  lemma PreparedDraft(d: seq<byte>, first: nat, pointers: nat, bodies: map<nat, StageBodies.Body>) returns (p: Plan)
    requires Prepared(d, first, pointers) && bodies.Keys == {STAGE}
    ensures Planning(d, 1001, bodies.Keys) == Ok(p) && DraftParses(p) && p.dat == d && Ready(p, first)
    ensures Holds(d, 0, first, [PlainRoute(0)]) && Holds(p.Drafted(), 0, first, [PlainRoute(0)])
  {
    var active := PreparedSelection(d, first, pointers, bodies);
    p := PreparedPlan(d, first, pointers, active);
    DraftReads(p, first, active);
    FirstBank(p, first);
  }

  /**
   * A draft of prepared data is built, and changes a byte of the first bank's record, which is still read where it
   * was: from 1, the count of the last bank's records, to 2.
   */
  lemma RecordChanged(d: seq<byte>, first: nat, pointers: nat, inf: seq<byte>, bodies: map<nat, StageBodies.Body>)
    requires Prepared(d, first, pointers) && bodies.Keys == {STAGE} && QuestDrafts.Restorable(inf, bodies)
    ensures Draftable(d, inf, 1001, bodies) && first <= Changed(first) < first + RECORD_SIZE <= |d| <= |DraftOf(d, inf, 1001, bodies).data|
    ensures Holds(d, 0, first, [PlainRoute(0)]) && Holds(DraftOf(d, inf, 1001, bodies).data, 0, first, [PlainRoute(0)])
    ensures d[Changed(first)] == 1 && DraftOf(d, inf, 1001, bodies).data[Changed(first)] == 2
  {
    var p := PreparedDraft(d, first, pointers, bodies);
    CountChanged(p, first);
  }

  // ------------------------------------------------------------------
  // Such data, for n banks, where n is eleven.

  function Counts(n: nat): seq<byte> { if n == 0 then WordBytes(BANK_COUNT) else Counts(n - 1) + WordBytes(1) }

  /** A record with the counts in bytes 16 to 39, which are never read. */
  function OneRecord(s: nat, n: nat): seq<byte> {
    LongBytes(1) + Zeros(8) + WordBytes(10001 + s * 1000) + WordBytes(s + 1) + Counts(n) + Zeros(36) + LongBytes(STAGE) + Zeros(188)
  }

  function Records(m: nat, n: nat): seq<byte> { Chain(s => OneRecord(s, n), m) }

  function Chain(record: nat -> seq<byte>, m: nat): seq<byte> { if m == 0 then [] else Chain(record, m - 1) + record(m - 1) }

  function Pointing(first: nat, n: nat): seq<byte> {
    if n == 0 then [] else Pointing(first, n - 1) + LongBytes(first + (n - 1) * 0x10c)
  }

  function Beginning(quantities: nat, catalogue: nat, pointers: nat): seq<byte> {
    LongBytes(MAGIC) + Zeros(12) + LongBytes(quantities) + Zeros(0x864) + LongBytes(catalogue) + Zeros(0xa0) + LongBytes(pointers)
  }

  lemma {:induction false} CountsAt(n: nat, k: nat)
    requires k <= n
    ensures |Counts(n)| == 2 + n * 2 && Counts(n)[k * 2..k * 2 + 2] == WordBytes(if k == 0 then BANK_COUNT else 1)
  {
    if n > 0 {
      CountsAt(n - 1, if k < n then k else 0);
    }
  }

  lemma {:induction false} PointingAt(first: nat, n: nat, s: nat)
    requires s < n
    ensures |Pointing(first, n)| == n * 4 && Pointing(first, n)[s * 4..s * 4 + 4] == LongBytes(first + s * 0x10c)
  {
    if n > 1 {
      PointingAt(first, n - 1, if s < n - 1 then s else 0);
    }
  }

  /** What the parts of a record hold. */
  lemma RecordParts(s: nat, n: nat)
    requires n == BANK_COUNT
    ensures var r := OneRecord(s, n);
            && |r| == RECORD_SIZE && r[0..4] == LongBytes(1) && r[12..14] == WordBytes(10001 + s * 1000)
            && r[14..16] == WordBytes(s + 1) && r[16..40] == Counts(n) && r[0x4c..0x50] == LongBytes(STAGE) && r[0x50..] == Zeros(188)
  {
    CountsAt(n, 0);
  }

  lemma RecordsAt(m: nat, n: nat, s: nat)
    requires s < m && n == BANK_COUNT
    ensures |Records(m, n)| == m * 0x10c && |OneRecord(s, n)| == 0x10c && Records(m, n)[s * 0x10c..s * 0x10c + 0x10c] == OneRecord(s, n)
  {
    var record := (k: nat) => OneRecord(k, n);
    forall k: nat
      ensures |record(k)| == 0x10c
    {
      RecordParts(k, n);
    }
    ChainAt(record, m, s);
  }

  lemma {:induction false} ChainAt(record: nat -> seq<byte>, m: nat, s: nat)
    requires s < m && forall k :: |record(k)| == 0x10c
    ensures |Chain(record, m)| == m * 0x10c && Chain(record, m)[s * 0x10c..s * 0x10c + 0x10c] == record(s)
  {
    if m > 1 {
      ChainAt(record, m - 1, if s < m - 1 then s else 0);
    }
    Last(Chain(record, m - 1), record(m - 1), s * 0x10c);
  }

  /** A part of a joined list is a part of its front, or all of its back. */
  lemma Last(front: seq<byte>, back: seq<byte>, at: nat)
    requires |back| == 0x10c && (at + 0x10c <= |front| || at == |front|)
    ensures (front + back)[at..at + 0x10c] == if at == |front| then back else front[at..at + 0x10c]
  {
  }

  lemma ZeroTail(r: seq<byte>, at: nat)
    requires |r| == RECORD_SIZE && r[0x50..] == Zeros(188) && 0x50 <= at && at + 4 <= |r|
    ensures Long(r, at) == 0
  {
    assert r[at] == r[0x50..][at - 0x50] && r[at + 1] == r[0x50..][at + 1 - 0x50];
    assert r[at + 2] == r[0x50..][at + 2 - 0x50] && r[at + 3] == r[0x50..][at + 3 - 0x50];
  }

  lemma RecordPlain(r: seq<byte>, s: nat)
    requires s <= 10 && |r| == RECORD_SIZE && r[0..4] == LongBytes(1) && r[12..14] == WordBytes(10001 + s * 1000)
    requires r[14..16] == WordBytes(s + 1) && r[0x4c..0x50] == LongBytes(STAGE) && r[0x50..] == Zeros(188)
    ensures PlainAt(r, 0, s)
  {
    LongGiven(r, 0, 1);
    WordGiven(r, 12, 10001 + s * 1000);
    WordGiven(r, 14, s + 1);
    LongGiven(r, 0x4c, STAGE);
    forall j | 1 <= j < STAGE_SLOTS
      ensures Long(r, 0 + STAGE_OFFSET + j * 0x10) == 0
    {
      ZeroTail(r, STAGE_OFFSET + j * 0x10);
    }
  }

  lemma PlainMoved(d: seq<byte>, at: nat, r: seq<byte>, s: nat)
    requires |r| == RECORD_SIZE && PlainAt(r, 0, s) && at + RECORD_SIZE <= |d| && d[at..at + RECORD_SIZE] == r
    ensures PlainAt(d, at, s)
  {
    RecordLong(d, at, 0);
    RecordShort(d, at, 12);
    RecordShort(d, at, 14);
    RecordLong(d, at, STAGE_OFFSET);
    forall j | 1 <= j < STAGE_SLOTS
      ensures Long(d, at + STAGE_OFFSET + j * 0x10) == 0
    {
      assert Long(r, 0 + STAGE_OFFSET + j * 0x10) == 0;
      RecordLong(d, at, STAGE_OFFSET + j * 0x10);
    }
  }

  lemma BeginningParts(h: seq<byte>, quantities: nat, catalogue: nat, pointers: nat)
    requires quantities < 10000 && catalogue < 10000 && pointers < 10000 && h == Beginning(quantities, catalogue, pointers)
    ensures |h| == BANKS_HEADER + 4 && Long(h, 0) == MAGIC && Long(h, QUANTITIES_POINTER) == quantities
    ensures Long(h, CATALOGUE_HEADER) == catalogue && Long(h, BANKS_HEADER) == pointers
  {
    var a := LongBytes(MAGIC) + Zeros(12);
    var b := a + LongBytes(quantities) + Zeros(0x864);
    QuestExamples.LongAfter(h, [], MAGIC);
    QuestExamples.LongAfter(h, a, quantities);
    QuestExamples.LongAfter(h, b, catalogue);
    QuestExamples.LongAfter(h, b + LongBytes(catalogue) + Zeros(0xa0), pointers);
  }

  /** The data consists of these parts. */
  ghost predicate Consists(d: seq<byte>, first: nat, pointers: nat, n: nat, t: seq<byte>, rs: seq<byte>) {
    && n == BANK_COUNT && pointers == BANKS_HEADER + 4 && first == pointers + 44 && |d| == first + 11 * 0x10c + 16
    && |t| == 44 && |rs| == 11 * 0x10c && d[pointers..first] == t && d[first..first + 11 * 0x10c] == rs
    && d[first + 11 * 0x10c..] == Zeros(16)
  }

  lemma Joins(h: seq<byte>, t: seq<byte>, rs: seq<byte>, first: nat, pointers: nat, n: nat)
    requires n == BANK_COUNT && pointers == BANKS_HEADER + 4 && first == pointers + 44 && |h| == pointers && |t| == 44 && |rs| == 11 * 0x10c
    ensures Consists(h + t + rs + Zeros(16), first, pointers, n, t, rs) && (h + t + rs + Zeros(16))[..|h|] == h
  {
    var d := h + t + rs + Zeros(16);
    assert d[|h|..|h| + |t|] == t;
    assert d[|h| + |t|..|h| + |t| + |rs|] == rs;
    assert d[|h| + |t| + |rs|..] == Zeros(16);
  }

  /** Record s of the data, and the pointer to it. */
  ghost predicate RecordIs(d: seq<byte>, first: nat, pointers: nat, n: nat, s: nat) {
    && first + s * 0x10c + 0x10c <= |d| && d[first + s * 0x10c..first + s * 0x10c + 0x10c] == OneRecord(s, n)
    && pointers + s * 4 + 4 <= |d| && Long(d, pointers + s * 4) == first + s * 0x10c
  }

  lemma DataRecord(d: seq<byte>, first: nat, pointers: nat, n: nat, t: seq<byte>, rs: seq<byte>, s: nat)
    requires Consists(d, first, pointers, n, t, rs) && s < n && t == Pointing(first, n) && rs == Records(n, n)
    ensures RecordIs(d, first, pointers, n, s)
  {
    RecordsSized(n);
    RecordHere(d, first, n, n, rs, s);
    PointerHere(d, first, pointers, n, t, s);
  }

  lemma RecordsSized(n: nat)
    requires n == BANK_COUNT
    ensures forall k: nat :: |OneRecord(k, n)| == 0x10c
  {
    forall k: nat
      ensures |OneRecord(k, n)| == 0x10c
    {
      RecordParts(k, n);
    }
  }

  lemma RecordHere(d: seq<byte>, first: nat, m: nat, n: nat, rs: seq<byte>, s: nat)
    requires s < m && rs == Records(m, n) && forall k: nat :: |OneRecord(k, n)| == 0x10c
    requires first + m * 0x10c <= |d| && d[first..first + m * 0x10c] == rs
    ensures first + s * 0x10c + 0x10c <= |d| && d[first + s * 0x10c..first + s * 0x10c + 0x10c] == OneRecord(s, n)
  {
    var record := (k: nat) => OneRecord(k, n);
    ChainAt(record, m, s);
    PartTaken(d, first, rs, s * 0x10c, record(s));
  }

  lemma PartTaken(d: seq<byte>, p: nat, part: seq<byte>, at: nat, r: seq<byte>)
    requires p + |part| <= |d| && d[p..p + |part|] == part && at + |r| <= |part| && part[at..at + |r|] == r
    ensures d[p + at..p + at + |r|] == r
  {
    PartOf(d, p, |part|, at, |r|);
  }

  lemma PointerHere(d: seq<byte>, first: nat, pointers: nat, n: nat, t: seq<byte>, s: nat)
    requires s < n && t == Pointing(first, n) && first + n * 0x10c < LONG_LIMIT
    requires pointers + n * 4 <= |d| && d[pointers..pointers + n * 4] == t
    ensures pointers + s * 4 + 4 <= |d| && Long(d, pointers + s * 4) == first + s * 0x10c
  {
    PointingAt(first, n, s);
    PartTaken(d, pointers, t, s * 4, LongBytes(first + s * 0x10c));
    LongGiven(d, pointers + s * 4, first + s * 0x10c);
  }

  lemma PlainOne(d: seq<byte>, at: nat, s: nat, n: nat)
    requires n == BANK_COUNT && s < n && at + 0x10c <= |d| && d[at..at + 0x10c] == OneRecord(s, n)
    ensures PlainAt(d, at, s)
  {
    RecordParts(s, n);
    RecordPlain(OneRecord(s, n), s);
    PlainMoved(d, at, OneRecord(s, n), s);
  }

  lemma CountGiven(d: seq<byte>, at: nat, n: nat, k: nat)
    requires n == BANK_COUNT && k <= n && at + 24 <= |d| && d[at..at + 24] == Counts(n)
    ensures Word(d, at + k * 2) == if k == 0 then BANK_COUNT else 1
  {
    CountsAt(n, k);
    PartOf(d, at, 24, k * 2, 2);
    WordGiven(d, at + k * 2, if k == 0 then BANK_COUNT else 1);
  }

  lemma CountsGiven(d: seq<byte>, at: nat, s: nat, n: nat)
    requires n == BANK_COUNT && at + 0x10c <= |d| && d[at..at + 0x10c] == OneRecord(s, n)
    ensures d[at + 16..at + 40] == Counts(n)
  {
    RecordParts(s, n);
    PartOf(d, at, 0x10c, 16, 24);
  }

  lemma DataCounts(d: seq<byte>, first: nat, n: nat)
    requires n == BANK_COUNT && first + 0x10c <= |d| && d[first..first + 0x10c] == OneRecord(0, n)
    ensures Word(d, first + 16) == BANK_COUNT && forall s :: 0 <= s < BANK_COUNT ==> Word(d, first + 18 + s * 2) == 1
  {
    CountsGiven(d, first, 0, n);
    CountGiven(d, first + 16, n, 0);
    forall s | 0 <= s < BANK_COUNT
      ensures Word(d, first + 18 + s * 2) == 1
    {
      CountGiven(d, first + 16, n, s + 1);
    }
  }

  lemma DataHeader(d: seq<byte>, h: seq<byte>, first: nat, pointers: nat)
    requires 1000 <= first < 5000 && pointers < 10000 && h == Beginning(first + 16 - 0x370, first + 10 * 0x10c, pointers)
    requires |h| <= |d| && d[..|h|] == h
    ensures BANKS_HEADER + 4 <= |d| && Long(d, 0) == MAGIC && Long(d, QUANTITIES_POINTER) + 0x370 == first + 16
    ensures Long(d, CATALOGUE_HEADER) == first + 10 * 0x10c && Long(d, BANKS_HEADER) == pointers
  {
    BeginningParts(h, first + 16 - 0x370, first + 10 * 0x10c, pointers);
    QuestExamples.HeadLong(d, h, 0);
    QuestExamples.HeadLong(d, h, QUANTITIES_POINTER);
    QuestExamples.HeadLong(d, h, CATALOGUE_HEADER);
    QuestExamples.HeadLong(d, h, BANKS_HEADER);
  }

  lemma DataPrepared(d: seq<byte>, h: seq<byte>, first: nat, pointers: nat, n: nat)
    requires n == BANK_COUNT && pointers == BANKS_HEADER + 4 && first == pointers + 44 && |d| == first + 11 * 0x10c + 16
    requires d[first + 11 * 0x10c..] == Zeros(16) && forall s :: 0 <= s < n ==> RecordIs(d, first, pointers, n, s)
    requires h == Beginning(first + 16 - 0x370, first + 10 * 0x10c, pointers) && |h| <= |d| && d[..|h|] == h
    ensures Prepared(d, first, pointers)
  {
    DataHeader(d, h, first, pointers);
    DataRecords(d, first, pointers, n);
    assert RecordIs(d, first, pointers, n, 0);
    DataCounts(d, first, n);
  }

  lemma DataRecords(d: seq<byte>, first: nat, pointers: nat, n: nat)
    requires n == BANK_COUNT && pointers == BANKS_HEADER + 4 && first == pointers + 44 && |d| == first + 11 * 0x10c + 16
    requires forall s :: 0 <= s < n ==> RecordIs(d, first, pointers, n, s)
    ensures forall s :: 0 <= s < BANK_COUNT ==> Long(d, pointers + s * 4) == first + s * 0x10c && PlainAt(d, first + s * 0x10c, s)
  {
    forall s | 0 <= s < BANK_COUNT
      ensures Long(d, pointers + s * 4) == first + s * 0x10c && PlainAt(d, first + s * 0x10c, s)
    {
      assert RecordIs(d, first, pointers, n, s);
      PlainOne(d, first + s * 0x10c, s, n);
    }
  }

  lemma PreparedExists(pointers: nat, first: nat, n: nat) returns (d: seq<byte>)
    requires n == BANK_COUNT && pointers == BANKS_HEADER + 4 && first == pointers + 44
    ensures Prepared(d, first, pointers)
  {
    var h, t, rs := Beginning(first + 16 - 0x370, first + 10 * 0x10c, pointers), Pointing(first, n), Records(n, n);
    BeginningParts(h, first + 16 - 0x370, first + 10 * 0x10c, pointers);
    PointingAt(first, n, 0);
    RecordsAt(n, n, 0);
    d := h + t + rs + Zeros(16);
    Joins(h, t, rs, first, pointers, n);
    forall s | 0 <= s < n
      ensures RecordIs(d, first, pointers, n, s)
    {
      DataRecord(d, first, pointers, n, t, rs, s);
    }
    DataPrepared(d, h, first, pointers, n);
  }

  /** Client data, a quest list and a stage for which the draft is built and a record that is still read changes. */
  lemma Instance() returns (d: seq<byte>, inf: seq<byte>, stages: map<nat, seq<byte>>, table: nat, byte: nat)
    ensures var bodies := QuestDrafts.Bodies(stages);
            && QuestDrafts.BodiesOk(bodies) && Draftable(d, inf, 1001, bodies) && table <= byte < table + RECORD_SIZE <= |d|
            && Holds(d, 0, table, [PlainRoute(0)]) && Holds(DraftOf(d, inf, 1001, bodies).data, 0, table, [PlainRoute(0)])
            && |d| <= |DraftOf(d, inf, 1001, bodies).data| && DraftOf(d, inf, 1001, bodies).data[byte] != d[byte]
  {
    var pointers: nat, n: nat := BANKS_HEADER + 4, BANK_COUNT;
    table := pointers + 44;
    d := PreparedExists(pointers, table, n);
    byte := Changed(table);
    inf, stages := OneStageList();
    RecordChanged(d, table, pointers, inf, QuestDrafts.Bodies(stages));
  }

  lemma OneStageList() returns (inf: seq<byte>, stages: map<nat, seq<byte>>)
    ensures QuestDrafts.BodiesOk(QuestDrafts.Bodies(stages)) && QuestDrafts.Restorable(inf, QuestDrafts.Bodies(stages))
    ensures stages.Keys == {STAGE}
  {
    var id: nat, upper: nat, held: nat := STAGE, 100, 1;
    stages := QuestExamples.OneStage(id);
    inf := QuestExamples.LoneList(upper, held);
    QuestExamples.OneRestored(inf, upper, held, id, QuestDrafts.Bodies(stages));
  }
}
