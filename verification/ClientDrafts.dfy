/**
 * The client draft: decoded client data with one retained route appended to an active bank.
 * The new bank and a new pointer table go at the end; three words of the old data are rewritten.
 */
module ClientDrafts {
  import opened Bytes
  import opened Layout
  import QuestDrafts
  import StageBodies
  import QuestInfos
  import opened RouteBanks
  import opened Sorting

  const MAX_DATA := 0x800_0000
  const QUANTITIES_POINTER := 0x10
  const COUNTS := 0x372

  // ------------------------------------------------------------------
  // The retained catalogue: records until an all-zero header, no code twice.

  predicate CodesApart(routes: seq<Route>) {
    forall i, j :: 0 <= i < j < |routes| ==> routes[i].nativeCode != routes[j].nativeCode
  }

  function TableOf(data: seq<byte>): Result<nat> {
    if |data| < CATALOGUE_HEADER + 4 || Long(data, 0) != MAGIC then Failed
    else
      var table := Long(data, CATALOGUE_HEADER);
      if table < CATALOGUE_HEADER + 4 || table + 16 > |data| then Failed else Ok(table)
  }

  predicate ZeroHeader(data: seq<byte>, table: nat, i: nat) {
    At(table, i) + 16 <= |data| && data[At(table, i)..At(table, i) + 16] == Zeros(16)
  }

  predicate CatalogueAt(data: seq<byte>, table: nat, k: nat, route: Route) {
    && k < MAX_ROUTES && At(table, k) + RECORD_SIZE <= |data| && !ZeroHeader(data, table, k)
    && RecordOf(Record(data, table, k), |data|, k) == Ok(route)
  }

  /** The table holds these routes, of different codes: record by record, then an all-zero header. */
  ghost predicate CatalogueHolds(data: seq<byte>, table: nat, routes: seq<Route>) {
    && 0 < |routes| <= MAX_ROUTES && ZeroHeader(data, table, |routes|) && CodesApart(routes)
    && forall k :: 0 <= k < |routes| ==> CatalogueAt(data, table, k, routes[k])
  }

  lemma CatalogueUnique(data: seq<byte>, table: nat, a: seq<Route>, b: seq<Route>)
    requires CatalogueHolds(data, table, a) && CatalogueHolds(data, table, b)
    ensures a == b
  {
    assert |a| < |b| ==> CatalogueAt(data, table, |a|, b[|a|]);
    assert |b| < |a| ==> CatalogueAt(data, table, |b|, a[|b|]);
    forall k | 0 <= k < |a|
      ensures a[k] == b[k]
    {
      assert CatalogueAt(data, table, k, a[k]) && CatalogueAt(data, table, k, b[k]);
    }
  }

  ghost function Catalogue(data: seq<byte>): Result<seq<Route>> {
    var table := TableOf(data);
    if table.Ok? && exists routes :: CatalogueHolds(data, table.value, routes) then
      var routes :| CatalogueHolds(data, table.value, routes); Ok(routes)
    else Failed
  }

  /** When the records read so far are followed by neither a record of a new code nor the end, there is no catalogue. */
  lemma CatalogueBroken(data: seq<byte>, table: nat, routes: seq<Route>)
    requires TableOf(data) == Ok(table) && !(0 < |routes| && ZeroHeader(data, table, |routes|))
    requires forall k :: 0 <= k < |routes| ==> CatalogueAt(data, table, k, routes[k])
    requires forall route :: CatalogueAt(data, table, |routes|, route) ==> !CodesApart(routes + [route])
    ensures Catalogue(data) == Failed
  {
    if all :| CatalogueHolds(data, table, all) {
      assert |all| < |routes| ==> CatalogueAt(data, table, |all|, routes[|all|]);
      if |all| > |routes| {
        SamePrefix(data, table, routes, all);
      }
      assert false;
    }
  }

  lemma CatalogueIs(data: seq<byte>, table: nat, routes: seq<Route>)
    requires TableOf(data) == Ok(table) && CatalogueHolds(data, table, routes)
    ensures Catalogue(data) == Ok(routes)
  {
    CatalogueUnique(data, table, routes, Catalogue(data).value);
  }

  lemma SamePrefix(data: seq<byte>, table: nat, routes: seq<Route>, all: seq<Route>)
    requires |routes| < |all| && CodesApart(all)
    requires forall k :: 0 <= k < |routes| ==> CatalogueAt(data, table, k, routes[k])
    requires forall k :: 0 <= k < |all| ==> CatalogueAt(data, table, k, all[k])
    ensures CodesApart(routes + [all[|routes|]])
  {
    forall k | 0 <= k < |routes|
      ensures routes[k] == all[k]
    {
      assert CatalogueAt(data, table, k, routes[k]) && CatalogueAt(data, table, k, all[k]);
    }
    assert routes + [all[|routes|]] == all[..|routes| + 1];
  }

  method ParseCatalogue(data: seq<byte>) returns (r: Result<seq<Route>>)
    ensures r == Catalogue(data)
  {
    if |data| < CATALOGUE_HEADER + 4 || Long(data, 0) != MAGIC {
      return Failed;
    }
    var table := Long(data, CATALOGUE_HEADER);
    if table < CATALOGUE_HEADER + 4 || table + 16 > |data| {
      return Failed;
    }
    r := ParseRecords(data, table);
  }

  method ParseRecords(data: seq<byte>, table: nat) returns (r: Result<seq<Route>>)
    requires TableOf(data) == Ok(table)
    ensures r == Catalogue(data)
  {
    var routes: seq<Route> := [];
    var codes: set<nat> := {};
    for i := 0 to MAX_ROUTES + 1
      invariant |routes| == i <= MAX_ROUTES && CodesApart(routes)
      invariant forall k :: 0 <= k < i ==> CatalogueAt(data, table, k, routes[k])
      invariant CodesOf(routes, codes)
    {
      var pos := table + i * 0x10c;
      if pos + 16 > |data| {
        CatalogueBroken(data, table, routes);
        return Failed;
      }
      if data[pos..pos + 16] == Zeros(16) {
        if |routes| == 0 {
          CatalogueBroken(data, table, routes);
          return Failed;
        }
        CatalogueIs(data, table, routes);
        return Ok(routes);
      }
      if i == MAX_ROUTES || pos + RECORD_SIZE > |data| {
        CatalogueBroken(data, table, routes);
        return Failed;
      }
      var route := ParseRouteRecord(data, pos, i);
      if !route.Ok? {
        CatalogueBroken(data, table, routes);
        return Failed;
      }
      if route.value.nativeCode in codes {
        RepeatedCode(routes, codes, route.value);
        CatalogueBroken(data, table, routes);
        return Failed;
      }
      CodesNext(routes, codes, route.value);
      routes := routes + [route.value];
      codes := codes + {route.value.nativeCode};
    }
    assert false;
  }

  ghost predicate CodesOf(routes: seq<Route>, codes: set<nat>) {
    forall n :: n in codes <==> exists k :: 0 <= k < |routes| && routes[k].nativeCode == n
  }

  lemma CodesNext(routes: seq<Route>, codes: set<nat>, route: Route)
    requires CodesOf(routes, codes) && CodesApart(routes) && route.nativeCode !in codes
    ensures CodesOf(routes + [route], codes + {route.nativeCode}) && CodesApart(routes + [route])
  {
    var all := routes + [route];
    assert all[|routes|] == route;
    forall n | n in codes
      ensures exists k :: 0 <= k < |all| && all[k].nativeCode == n
    {
      var k :| 0 <= k < |routes| && routes[k].nativeCode == n;
      assert all[k] == routes[k];
    }
  }

  lemma RepeatedCode(routes: seq<Route>, codes: set<nat>, route: Route)
    requires CodesOf(routes, codes) && route.nativeCode in codes
    ensures !CodesApart(routes + [route])
  {
    var k :| 0 <= k < |routes| && routes[k].nativeCode == route.nativeCode;
    var all := routes + [route];
    assert all[k].nativeCode == all[|routes|].nativeCode;
  }

  /** A catalogue route is the record at its own position. */
  lemma CatalogueRecord(data: seq<byte>, route: Route)
    requires Catalogue(data).Ok? && route in Catalogue(data).value
    ensures var table := TableOf(data).value;
            && At(table, route.index) + RECORD_SIZE <= |data|
            && RecordOf(Record(data, table, route.index), |data|, route.index) == Ok(route)
  {
    var table, routes := TableOf(data).value, Catalogue(data).value;
    var k :| 0 <= k < |routes| && routes[k] == route;
    assert CatalogueAt(data, table, k, route);
  }

  // ------------------------------------------------------------------
  // The relocation counts.

  function Quantities(data: seq<byte>): nat
    requires |data| >= QUANTITIES_POINTER + 4
  {
    Long(data, QUANTITIES_POINTER)
  }

  predicate CountsPlaced(data: seq<byte>) {
    && |data| >= QUANTITIES_POINTER + 4 && Quantities(data) >= 0x20
    && Quantities(data) + COUNTS + BANK_COUNT * 2 <= |data|
    && Word(data, Quantities(data) + COUNTS - 2) == BANK_COUNT
  }

  /** Every bank's count word is the number of its records. */
  predicate CountsMatch(data: seq<byte>, routes: seq<Route>) {
    CountsPlaced(data) && forall star :: 0 <= star < BANK_COUNT ==>
                                           Word(data, Quantities(data) + COUNTS + star * 2) == CountOf(routes, star)
  }

  method CheckCounts(data: seq<byte>, active: seq<Route>) returns (ok: bool)
    requires |data| >= QUANTITIES_POINTER + 4 && forall r :: r in active ==> r.star < BANK_COUNT
    ensures ok <==> CountsMatch(data, active)
  {
    var quantities := Long(data, QUANTITIES_POINTER);
    if quantities < 0x20 || quantities + COUNTS + BANK_COUNT * 2 > |data| || Word(data, quantities + 0x370) != BANK_COUNT {
      return false;
    }
    var counts := new nat[BANK_COUNT](star => 0);
    for i := 0 to |active|
      invariant forall star :: 0 <= star < BANK_COUNT ==> counts[star] == CountOf(active[..i], star)
    {
      CountNext(active, i);
      counts[active[i].star] := counts[active[i].star] + 1;
    }
    assert active[..|active|] == active;
    for star := 0 to BANK_COUNT
      invariant forall k :: 0 <= k < star ==> Word(data, quantities + COUNTS + k * 2) == CountOf(active, k)
    {
      if Word(data, quantities + COUNTS + star * 2) != counts[star] {
        return false;
      }
    }
    ok := true;
  }

  lemma CountNext(routes: seq<Route>, n: nat)
    requires n < |routes|
    ensures forall star :: CountOf(routes[..n + 1], star) == CountOf(routes[..n], star) + if routes[n].star == star then 1 else 0
  {
    assert routes[..n + 1] == routes[..n] + [routes[n]];
    forall star: nat
      ensures CountOf(routes[..n + 1], star) == CountOf(routes[..n], star) + if routes[n].star == star then 1 else 0
    {
      CountJoined(routes[..n], [routes[n]], star);
    }
  }

  // ------------------------------------------------------------------
  // What the draft is made from.

  /** The source and the positions the draft depends on. */
  datatype Plan = Plan(dat: seq<byte>, star: nat, pointers: nat, oldBank: nat, ordinal: nat, record: nat, countWord: nat)
  {
    predicate Fits() {
      && BANKS_HEADER + 4 <= |dat| && star < BANK_COUNT && pointers + BANK_COUNT * 4 <= |dat|
      && oldBank + ordinal * 0x10c <= |dat| && record + RECORD_SIZE <= |dat| && countWord + 2 <= |dat|
    }

    /** The parts of the draft after the source. */
    function BankBytes(): seq<byte>
      requires Fits()
    {
      dat[oldBank..oldBank + ordinal * 0x10c]
    }

    function RecordBytes(): seq<byte>
      requires Fits()
    {
      dat[record..record + RECORD_SIZE]
    }

    function TableBytes(): seq<byte>
      requires Fits()
    {
      dat[pointers..pointers + BANK_COUNT * 4]
    }

    /** Where the new bank and the new pointer table begin. */
    function NewBank(): nat { |Aligned(dat)| }

    function NewTable(): nat { NewBank() + (ordinal + 2) * 0x10c }

    /** The source, the longer bank, an empty record, the pointer table; three words rewritten. */
    function Drafted(): (b: seq<byte>)
      requires Fits()
      ensures |b| == NewTable() + BANK_COUNT * 4
    {
      Assembled(Aligned(dat), BankBytes(), RecordBytes(), TableBytes(), star, countWord, ordinal + 1)
    }
  }

  // ------------------------------------------------------------------
  // Putting the draft together.

  /** The parts one after the other, before the three words are rewritten. */
  function Joint(base: seq<byte>, bank: seq<byte>, record: seq<byte>, table: seq<byte>): seq<byte> {
    base + bank + record + Zeros(RECORD_SIZE) + table
  }

  function TableAt(base: seq<byte>, bank: seq<byte>): nat { |base| + |bank| + 2 * 0x10c }

  predicate Fitting(base: seq<byte>, bank: seq<byte>, record: seq<byte>, table: seq<byte>, star: nat, countWord: nat) {
    && |record| == RECORD_SIZE && |table| == BANK_COUNT * 4 && star < BANK_COUNT
    && BANKS_HEADER + 4 <= |base| && countWord + 2 <= |base|
  }

  /** The new bank's pointer, then the new table's, then the record count. */
  function Assembled(base: seq<byte>, bank: seq<byte>, record: seq<byte>, table: seq<byte>,
                     star: nat, countWord: nat, count: nat): (b: seq<byte>)
    requires Fitting(base, bank, record, table, star, countWord)
    ensures |b| == TableAt(base, bank) + BANK_COUNT * 4
  {
    var b0 := Joint(base, bank, record, table);
    var b1 := Patched(b0, TableAt(base, bank) + star * 4, LongBytes(|base|));
    var b2 := Patched(b1, BANKS_HEADER, LongBytes(TableAt(base, bank)));
    Patched(b2, countWord, WordBytes(count))
  }

  /** A stretch the patch does not reach keeps its bytes. */
  lemma PatchElsewhere(d: seq<byte>, q: nat, bs: seq<byte>, p: nat, n: nat)
    requires q + |bs| <= |d| && p + n <= |d| && (p + n <= q || q + |bs| <= p)
    ensures Patched(d, q, bs)[p..p + n] == d[p..p + n]
  {
  }

  /** Between the old data and the pointer table nothing is rewritten. */
  lemma PartsKept(base: seq<byte>, bank: seq<byte>, record: seq<byte>, table: seq<byte>,
                  star: nat, countWord: nat, count: nat, p: nat, n: nat)
    requires Fitting(base, bank, record, table, star, countWord) && |base| <= p && p + n <= TableAt(base, bank)
    ensures Assembled(base, bank, record, table, star, countWord, count)[p..p + n] == Joint(base, bank, record, table)[p..p + n]
  {
    var b0 := Joint(base, bank, record, table);
    var b1 := Patched(b0, TableAt(base, bank) + star * 4, LongBytes(|base|));
    var b2 := Patched(b1, BANKS_HEADER, LongBytes(TableAt(base, bank)));
    PatchElsewhere(b0, TableAt(base, bank) + star * 4, LongBytes(|base|), p, n);
    PatchElsewhere(b1, BANKS_HEADER, LongBytes(TableAt(base, bank)), p, n);
    PatchElsewhere(b2, countWord, WordBytes(count), p, n);
  }

  /** The old data keeps every byte but the six rewritten ones. */
  lemma OldKept(base: seq<byte>, bank: seq<byte>, record: seq<byte>, table: seq<byte>,
                star: nat, countWord: nat, count: nat, i: nat)
    requires Fitting(base, bank, record, table, star, countWord) && i < |base|
    requires !(BANKS_HEADER <= i < BANKS_HEADER + 4) && !(countWord <= i < countWord + 2)
    ensures Assembled(base, bank, record, table, star, countWord, count)[i] == base[i]
  {
    assert Joint(base, bank, record, table)[i] == base[i];
  }

  lemma LongElsewhere(d: seq<byte>, q: nat, bs: seq<byte>, p: nat)
    requires q + |bs| <= |d| && p + 4 <= |d| && (p + 4 <= q || q + |bs| <= p)
    ensures Long(Patched(d, q, bs), p) == Long(d, p)
  {
    PatchElsewhere(d, q, bs, p, 4);
    LongSame(Patched(d, q, bs), p, d, p);
  }

  lemma JointTable(base: seq<byte>, bank: seq<byte>, record: seq<byte>, table: seq<byte>, k: nat)
    requires |record| == RECORD_SIZE && |table| == BANK_COUNT * 4 && k < BANK_COUNT
    ensures |Joint(base, bank, record, table)| == TableAt(base, bank) + |table|
    ensures Long(Joint(base, bank, record, table), TableAt(base, bank) + k * 4) == Long(table, k * 4)
  {
    var b, at := Joint(base, bank, record, table), TableAt(base, bank);
    PartOf(b, at, BANK_COUNT * 4, k * 4, 4);
    assert b[at..at + BANK_COUNT * 4] == table;
    LongSame(b, at + k * 4, table, k * 4);
  }

  /** Beyond the old data only the new bank's pointer is rewritten. */
  lemma LaterWords(base: seq<byte>, bank: seq<byte>, record: seq<byte>, table: seq<byte>,
                   star: nat, countWord: nat, count: nat, p: nat)
    requires Fitting(base, bank, record, table, star, countWord) && |base| <= p && p + 4 <= |Joint(base, bank, record, table)|
    ensures Long(Assembled(base, bank, record, table, star, countWord, count), p)
            == Long(Patched(Joint(base, bank, record, table), TableAt(base, bank) + star * 4, LongBytes(|base|)), p)
  {
    var b1 := Patched(Joint(base, bank, record, table), TableAt(base, bank) + star * 4, LongBytes(|base|));
    var b2 := Patched(b1, BANKS_HEADER, LongBytes(TableAt(base, bank)));
    LongElsewhere(b1, BANKS_HEADER, LongBytes(TableAt(base, bank)), p);
    LongElsewhere(b2, countWord, WordBytes(count), p);
  }

  /** The new pointer table is the old one but for the selected bank's pointer. */
  lemma TableRewritten(base: seq<byte>, bank: seq<byte>, record: seq<byte>, table: seq<byte>,
                       star: nat, countWord: nat, count: nat, k: nat)
    requires Fitting(base, bank, record, table, star, countWord) && k < BANK_COUNT && TableAt(base, bank) < LONG_LIMIT
    ensures Long(Assembled(base, bank, record, table, star, countWord, count), TableAt(base, bank) + k * 4)
            == if k == star then |base| else Long(table, k * 4)
  {
    var b0, at := Joint(base, bank, record, table), TableAt(base, bank);
    LaterWords(base, bank, record, table, star, countWord, count, at + k * 4);
    if k == star {
      LongPut(b0, at + star * 4, |base|);
    } else {
      LongElsewhere(b0, at + star * 4, LongBytes(|base|), at + k * 4);
      JointTable(base, bank, record, table, k);
    }
  }

  /** The header leads to the new pointer table, unless the record count was written over it. */
  lemma HeaderRewritten(base: seq<byte>, bank: seq<byte>, record: seq<byte>, table: seq<byte>,
                        star: nat, countWord: nat, count: nat)
    requires Fitting(base, bank, record, table, star, countWord) && TableAt(base, bank) < LONG_LIMIT
    requires countWord + 2 <= BANKS_HEADER || BANKS_HEADER + 4 <= countWord
    ensures Long(Assembled(base, bank, record, table, star, countWord, count), BANKS_HEADER) == TableAt(base, bank)
  {
    var b0, at := Joint(base, bank, record, table), TableAt(base, bank);
    var b1 := Patched(b0, at + star * 4, LongBytes(|base|));
    var b2 := Patched(b1, BANKS_HEADER, LongBytes(at));
    LongPut(b1, BANKS_HEADER, at);
    LongElsewhere(b2, countWord, WordBytes(count), BANKS_HEADER);
  }

  /** Raising a small count by one changes its low byte only. */
  lemma CountRaised(base: seq<byte>, bank: seq<byte>, record: seq<byte>, table: seq<byte>,
                    star: nat, countWord: nat, count: nat, i: nat)
    requires Fitting(base, bank, record, table, star, countWord) && i < |base|
    requires Word(base, countWord) == count < 0xff && i != countWord && !(BANKS_HEADER <= i < BANKS_HEADER + 4)
    ensures Assembled(base, bank, record, table, star, countWord, count + 1)[i] == base[i]
  {
    if i == countWord + 1 {
      assert base[countWord + 1] == 0 && WordBytes(count + 1)[1] == 0;
    } else {
      OldKept(base, bank, record, table, star, countWord, count + 1, i);
    }
  }

  lemma AssembledBank(base: seq<byte>, bank: seq<byte>, record: seq<byte>, table: seq<byte>,
                      star: nat, countWord: nat, count: nat)
    requires Fitting(base, bank, record, table, star, countWord)
    ensures Assembled(base, bank, record, table, star, countWord, count)[|base|..|base| + |bank|] == bank
  {
    PartsKept(base, bank, record, table, star, countWord, count, |base|, |bank|);
  }

  lemma AssembledRecord(base: seq<byte>, bank: seq<byte>, record: seq<byte>, table: seq<byte>,
                        star: nat, countWord: nat, count: nat)
    requires Fitting(base, bank, record, table, star, countWord)
    ensures var at := |base| + |bank|;
            Assembled(base, bank, record, table, star, countWord, count)[at..at + RECORD_SIZE] == record
  {
    PartsKept(base, bank, record, table, star, countWord, count, |base| + |bank|, RECORD_SIZE);
  }

  lemma AssembledEnd(base: seq<byte>, bank: seq<byte>, record: seq<byte>, table: seq<byte>,
                     star: nat, countWord: nat, count: nat)
    requires Fitting(base, bank, record, table, star, countWord)
    ensures Word(Assembled(base, bank, record, table, star, countWord, count), |base| + |bank| + RECORD_SIZE + 14) == 0
  {
    var at := |base| + |bank| + RECORD_SIZE;
    PartsKept(base, bank, record, table, star, countWord, count, at, RECORD_SIZE);
    ZeroWord(Assembled(base, bank, record, table, star, countWord, count), at, 14);
  }

  lemma ZeroWord(d: seq<byte>, p: nat, at: nat)
    requires p + RECORD_SIZE <= |d| && d[p..p + RECORD_SIZE] == Zeros(RECORD_SIZE) && at + 2 <= RECORD_SIZE
    ensures Word(d, p + at) == 0
  {
    assert d[p + at] == d[p..p + RECORD_SIZE][at] && d[p + (at + 1)] == d[p..p + RECORD_SIZE][at + 1];
  }

  // ------------------------------------------------------------------
  // What the parser finds in the draft.

  /** A bank whose records and end are untouched parses as before. */
  lemma OtherBank(dat: seq<byte>, pointers: nat, b: seq<byte>, pointers': nat, star: nat, bank: seq<Route>)
    requires star < BANK_COUNT && pointers + BANK_COUNT * 4 <= |dat| <= |b| && pointers' + BANK_COUNT * 4 <= |b|
    requires BankOf(dat, pointers, star) == Ok(bank) && Long(b, pointers' + star * 4) == Long(dat, pointers + star * 4)
    requires var table := Long(dat, pointers + star * 4); Same(b, table, dat, table, |bank| * 0x10c + 16)
    ensures BankOf(b, pointers', star) == Ok(bank)
  {
    var table := Long(dat, pointers + star * 4);
    BankHolds(dat, star, table, bank);
    HoldsSame(dat, b, star, table, bank);
    BankHolds(b, star, table, bank);
  }

  lemma HoldsSame(dat: seq<byte>, b: seq<byte>, star: nat, table: nat, bank: seq<Route>)
    requires Holds(dat, star, table, bank) && |dat| <= |b| && Same(b, table, dat, table, |bank| * 0x10c + 16)
    ensures Holds(b, star, table, bank)
  {
    var n := |bank| * 0x10c;
    SamePart(b, table, dat, table, n + 16, 0, n);
    CopiedRecords(dat, table, b, table, |bank|);
    forall k | 0 <= k < |bank|
      ensures HoldsAt(b, star, table, k, bank[k])
    {
      assert HoldsAt(dat, star, table, k, bank[k]);
    }
    SamePart(b, table, dat, table, n + 16, n + 14, 2);
    WordSame(b, table + n + 14, dat, table + n + 14);
  }

  /** Copied records, one more record of the same star, and a zero header are a bank with one more route. */
  lemma LongerBank(dat: seq<byte>, from: nat, b: seq<byte>, at: nat, star: nat, bank: seq<Route>, record: seq<byte>, route: Route)
    requires Holds(dat, star, from, bank) && |bank| < MAX_ROUTES
    requires Copied(dat, from, b, at, |bank|) && At(at, |bank| + 1) + 16 <= |b|
    requires |record| == RECORD_SIZE && Record(b, at, |bank|) == record
    requires RecordOf(record, |dat|, route.index) == Ok(route) && route.star == star
    requires Word(b, At(at, |bank| + 1) + 14) == 0
    ensures Bank(b, star, at) == Ok(bank + [route.(index := |bank|)])
  {
    var longer := bank + [route.(index := |bank|)];
    forall k | 0 <= k < |longer|
      ensures HoldsAt(b, star, at, k, longer[k])
    {
      if k < |bank| {
        assert HoldsAt(dat, star, from, k, bank[k]);
      } else {
        RecordKept(record, |dat|, route.index, |b|, k);
      }
    }
    BankHolds(b, star, at, longer);
  }

  /** One bank has one more route, the others are as before: the route is inserted in the list. */
  lemma OneBankLonger(dat: seq<byte>, pointers: nat, b: seq<byte>, pointers': nat, active: seq<Route>, star: nat,
                      bank: seq<Route>, route: Route)
    requires star < BANK_COUNT && pointers + BANK_COUNT * 4 <= |dat| && pointers' + BANK_COUNT * 4 <= |b|
    requires Joined(BanksOf(dat, pointers)) == Ok(active) && BankOf(dat, pointers, star) == Ok(bank) && route.star == star
    requires BankOf(b, pointers', star) == Ok(bank + [route])
    requires forall s :: 0 <= s < BANK_COUNT && s != star ==> BankOf(b, pointers', s) == BankOf(dat, pointers, s)
    ensures Joined(BanksOf(b, pointers')) == Ok(Inserted(active, route))
    ensures |bank| == CountOf(active, star)
  {
    var banks := BanksOf(dat, pointers);
    JoinedInserts(banks, 0, star, route);
    assert BanksOf(b, pointers') == banks[star := Ok(bank + [route])];
  }

  // ------------------------------------------------------------------
  // The draft of a plan.

  lemma AlignedKeeps(d: seq<byte>, i: nat)
    requires i < |d|
    ensures Aligned(d)[i] == d[i]
  {
    assert Aligned(d)[..|d|][i] == d[i];
  }

  /** Old bytes stay, but for the header word and the low byte of the count. */
  lemma DraftOld(p: Plan, i: nat)
    requires p.Fits() && Word(p.dat, p.countWord) == p.ordinal < 0xff
    requires i < |p.dat| && i != p.countWord && !(BANKS_HEADER <= i < BANKS_HEADER + 4)
    ensures p.Drafted()[i] == p.dat[i]
  {
    AlignedKeeps(p.dat, i);
    AlignedKeeps(p.dat, p.countWord);
    AlignedKeeps(p.dat, p.countWord + 1);
    CountRaised(Aligned(p.dat), p.BankBytes(), p.RecordBytes(), p.TableBytes(), p.star, p.countWord, p.ordinal, i);
  }

  lemma DraftCopies(p: Plan)
    requires p.Fits()
    ensures Same(p.Drafted(), p.NewBank(), p.dat, p.oldBank, p.ordinal * 0x10c)
  {
    AssembledBank(Aligned(p.dat), p.BankBytes(), p.RecordBytes(), p.TableBytes(), p.star, p.countWord, p.ordinal + 1);
  }

  lemma DraftRecord(p: Plan)
    requires p.Fits()
    ensures Record(p.Drafted(), p.NewBank(), p.ordinal) == p.RecordBytes()
  {
    AssembledRecord(Aligned(p.dat), p.BankBytes(), p.RecordBytes(), p.TableBytes(), p.star, p.countWord, p.ordinal + 1);
  }

  lemma DraftEnd(p: Plan)
    requires p.Fits()
    ensures Word(p.Drafted(), At(p.NewBank(), p.ordinal + 1) + 14) == 0
  {
    AssembledEnd(Aligned(p.dat), p.BankBytes(), p.RecordBytes(), p.TableBytes(), p.star, p.countWord, p.ordinal + 1);
  }

  lemma CopiedRecords(d: seq<byte>, p: nat, d': seq<byte>, p': nat, n: nat)
    requires Same(d', p', d, p, n * 0x10c) && |d| <= |d'|
    ensures Copied(d, p, d', p', n)
  {
    forall k | 0 <= k < n
      ensures At(p, k) + RECORD_SIZE <= |d| && At(p', k) + RECORD_SIZE <= |d'| && Record(d, p, k) == Record(d', p', k)
    {
      SamePart(d', p', d, p, n * 0x10c, k * 0x10c, RECORD_SIZE);
    }
  }

  /** The new bank is the old one and the selected route. */
  lemma DraftBank(p: Plan, bank: seq<Route>, route: Route)
    requires p.Fits() && |bank| == p.ordinal < MAX_ROUTES && Holds(p.dat, p.star, p.oldBank, bank)
    requires RecordOf(p.RecordBytes(), |p.dat|, route.index) == Ok(route) && route.star == p.star
    ensures Bank(p.Drafted(), p.star, p.NewBank()) == Ok(bank + [route.(index := |bank|)])
  {
    DraftCopies(p);
    DraftRecord(p);
    DraftEnd(p);
    CopiedRecords(p.dat, p.oldBank, p.Drafted(), p.NewBank(), |bank|);
    LongerBank(p.dat, p.oldBank, p.Drafted(), p.NewBank(), p.star, bank, p.RecordBytes(), route);
  }

  /** The plan is the one for the selected route of the catalogue, and what precedes the draft has been checked. */
  ghost predicate Planned(p: Plan, active: seq<Route>, selected: Route) {
    && RoutesOf(p.dat) == Ok(active) && Pointers(p.dat) == Ok(p.pointers) && CountsMatch(p.dat, active)
    && TableOf(p.dat).Ok? && Catalogue(p.dat).Ok? && selected in Catalogue(p.dat).value
    && p.star == selected.star < BANK_COUNT && p.oldBank == Long(p.dat, p.pointers + p.star * 4)
    && p.ordinal == CountOf(active, p.star) && 0 < p.ordinal < MAX_ROUTES
    && p.record == At(TableOf(p.dat).value, selected.index)
    && p.countWord == Quantities(p.dat) + COUNTS + p.star * 2
  }

  lemma BanksCounted(banks: seq<Result<seq<Route>>>, active: seq<Route>, star: nat) returns (bank: seq<Route>)
    requires Starred(banks, 0) && Joined(banks) == Ok(active) && star < |banks|
    ensures banks[star] == Ok(bank) && |bank| == CountOf(active, star)
  {
    if !banks[star].Ok? {
      JoinedBroken(banks, star);
    }
    bank := banks[star].value;
    JoinedInserts(banks, 0, star, Route(0, star, 0, 0, []));
  }

  /** The bank of one star, and its length. */
  lemma BankNumbered(dat: seq<byte>, pointers: nat, active: seq<Route>, star: nat) returns (bank: seq<Route>)
    requires pointers + BANK_COUNT * 4 <= |dat| && Joined(BanksOf(dat, pointers)) == Ok(active) && star < BANK_COUNT
    ensures BankOf(dat, pointers, star) == Ok(bank) && |bank| == CountOf(active, star)
    ensures Holds(dat, star, Long(dat, pointers + star * 4), bank)
  {
    bank := BanksCounted(BanksOf(dat, pointers), active, star);
    BankHolds(dat, star, Long(dat, pointers + star * 4), bank);
  }

  lemma RecordPlaced(dat: seq<byte>, selected: Route, at: nat)
    requires Catalogue(dat).Ok? && selected in Catalogue(dat).value && TableOf(dat).Ok?
    requires at == At(TableOf(dat).value, selected.index)
    ensures at + RECORD_SIZE <= |dat| && RecordOf(dat[at..at + RECORD_SIZE], |dat|, selected.index) == Ok(selected)
  {
    CatalogueRecord(dat, selected);
  }

  /** The selected bank as the plan has it. */
  lemma {:induction false} PlanBank(p: Plan, active: seq<Route>, selected: Route) returns (bank: seq<Route>)
    requires Planned(p, active, selected)
    ensures BankOf(p.dat, p.pointers, p.star) == Ok(bank) && |bank| == p.ordinal
    ensures Holds(p.dat, p.star, p.oldBank, bank)
  {
    bank := BankNumbered(p.dat, p.pointers, active, p.star);
  }

  lemma {:induction false} PlanRecord(p: Plan, active: seq<Route>, selected: Route)
    requires Planned(p, active, selected)
    ensures p.record + RECORD_SIZE <= |p.dat|
    ensures RecordOf(p.dat[p.record..p.record + RECORD_SIZE], |p.dat|, selected.index) == Ok(selected)
  {
    RecordPlaced(p.dat, selected, p.record);
  }

  /** Everything the draft copies is inside the source. */
  lemma {:induction false} PlanFits(p: Plan, active: seq<Route>, selected: Route)
    requires Planned(p, active, selected)
    ensures p.Fits() && Word(p.dat, p.countWord) == p.ordinal
  {
    var bank := PlanBank(p, active, selected);
    PlanRecord(p, active, selected);
  }

  /**
   * The counts do not lie on the header word that leads to the pointer table, and the byte of the count that
   * changes does not belong to a bank that is still read.
   */
  ghost predicate Apart(p: Plan, active: seq<Route>) {
    && p.Fits() && CountsPlaced(p.dat)
    && (Quantities(p.dat) + COUNTS + BANK_COUNT * 2 <= BANKS_HEADER || BANKS_HEADER + 4 <= Quantities(p.dat) + COUNTS - 2)
    && forall s :: 0 <= s < BANK_COUNT && s != p.star ==> !CountRead(p, s, Sizes(active)[s])
  }

  /** The bytes of a bank apart from the rewritten words are kept. */
  lemma DraftBankKept(p: Plan, table: nat, n: nat)
    requires p.Fits() && Word(p.dat, p.countWord) == p.ordinal < 0xff
    requires BANKS_HEADER + 4 <= table && table + n <= |p.dat| && !(table <= p.countWord < table + n)
    ensures Same(p.Drafted(), table, p.dat, table, n)
  {
    forall i | table <= i < table + n
      ensures p.Drafted()[i] == p.dat[i]
    {
      DraftOld(p, i);
    }
  }

  lemma BankPlaced(dat: seq<byte>, pointers: nat, star: nat, bank: seq<Route>)
    requires star < BANK_COUNT && pointers + BANK_COUNT * 4 <= |dat| && BankOf(dat, pointers, star) == Ok(bank)
    ensures BANKS_HEADER + 4 <= Long(dat, pointers + star * 4)
    ensures At(Long(dat, pointers + star * 4), |bank|) + 16 <= |dat|
  {
    BankHolds(dat, star, Long(dat, pointers + star * 4), bank);
  }

  /** The pointer of a bank leads to the table, and n bytes there are as they were. */
  predicate StillThere(dat: seq<byte>, b: seq<byte>, pointer: nat, table: nat, n: nat) {
    pointer + 4 <= |b| && Long(b, pointer) == table && Same(b, table, dat, table, n)
  }

  /** Where the draft's pointer of another bank leads, the bytes are the old ones. */
  lemma {:induction false} DraftOther(p: Plan, star: nat, table: nat, n: nat)
    requires p.Fits() && Word(p.dat, p.countWord) == p.ordinal < 0xff && p.NewTable() < LONG_LIMIT
    requires star < BANK_COUNT && star != p.star && table == Long(p.dat, p.pointers + star * 4)
    requires BANKS_HEADER + 4 <= table && table + n <= |p.dat| && !(table <= p.countWord < table + n)
    ensures StillThere(p.dat, p.Drafted(), p.NewTable() + star * 4, table, n)
  {
    DraftPointer(p, star);
    DraftBankKept(p, table, n);
  }

  lemma {:induction false} OtherSame(dat: seq<byte>, pointers: nat, b: seq<byte>, pointers': nat, active: seq<Route>, star: nat, n: nat)
    requires star < BANK_COUNT && pointers + BANK_COUNT * 4 <= |dat| <= |b| && pointers' + BANK_COUNT * 4 <= |b|
    requires Joined(BanksOf(dat, pointers)) == Ok(active) && n == BankBytes(CountOf(active, star))
    requires StillThere(dat, b, pointers' + star * 4, Long(dat, pointers + star * 4), n)
    ensures BankOf(b, pointers', star) == BankOf(dat, pointers, star)
  {
    var other := BankNumbered(dat, pointers, active, star);
    OtherBank(dat, pointers, b, pointers', star, other);
  }

  /** The bytes each bank's reader reads: its records and the header that ends it. */
  function Sizes(active: seq<Route>): seq<nat> {
    seq(BANK_COUNT, s requires 0 <= s < BANK_COUNT => BankBytes(CountOf(active, s)))
  }

  function BankBytes(count: nat): nat { count * 0x10c + 16 }

  /** The selected bank is longer, the others are still there: the route is inserted in the list. */
  lemma {:induction false} StillInserted(dat: seq<byte>, pointers: nat, b: seq<byte>, pointers': nat, active: seq<Route>, star: nat,
                                         bank: seq<Route>, route: Route)
    requires star < BANK_COUNT && pointers + BANK_COUNT * 4 <= |dat| <= |b| && pointers' + BANK_COUNT * 4 <= |b|
    requires Joined(BanksOf(dat, pointers)) == Ok(active) && BankOf(dat, pointers, star) == Ok(bank) && route.star == star
    requires BankOf(b, pointers', star) == Ok(bank + [route])
    requires forall s :: 0 <= s < BANK_COUNT && s != star ==>
                           StillThere(dat, b, pointers' + s * 4, Long(dat, pointers + s * 4), Sizes(active)[s])
    ensures Joined(BanksOf(b, pointers')) == Ok(Inserted(active, route))
  {
    forall s | 0 <= s < BANK_COUNT && s != star
      ensures BankOf(b, pointers', s) == BankOf(dat, pointers, s)
    {
      OtherSame(dat, pointers, b, pointers', active, s, Sizes(active)[s]);
    }
    OneBankLonger(dat, pointers, b, pointers', active, star, bank, route);
  }

  lemma TableWord(d: seq<byte>, p: nat, k: nat)
    requires p + BANK_COUNT * 4 <= |d| && k < BANK_COUNT
    ensures Long(d[p..p + BANK_COUNT * 4], k * 4) == Long(d, p + k * 4)
  {
    PartOf(d, p, BANK_COUNT * 4, k * 4, 4);
    LongSame(d[p..p + BANK_COUNT * 4], k * 4, d, p + k * 4);
  }

  lemma DraftPointer(p: Plan, star: nat)
    requires p.Fits() && p.NewTable() < LONG_LIMIT && star < BANK_COUNT
    ensures Long(p.Drafted(), p.NewTable() + star * 4)
            == if star == p.star then p.NewBank() else Long(p.dat, p.pointers + star * 4)
  {
    TableRewritten(Aligned(p.dat), p.BankBytes(), p.RecordBytes(), p.TableBytes(), p.star, p.countWord, p.ordinal + 1, star);
    TableWord(p.dat, p.pointers, star);
  }

  /** The draft's header leads to the new pointer table. */
  lemma {:induction false} DraftPointers(p: Plan, active: seq<Route>)
    requires p.Fits() && Apart(p, active) && Pointers(p.dat).Ok? && p.NewTable() < LONG_LIMIT
    requires p.countWord == Quantities(p.dat) + COUNTS + p.star * 2 && Word(p.dat, p.countWord) == p.ordinal < 0xff
    ensures Pointers(p.Drafted()) == Ok(p.NewTable())
  {
    HeaderMoved(p);
  }

  lemma HeaderMoved(p: Plan)
    requires p.Fits() && Pointers(p.dat).Ok? && p.NewTable() < LONG_LIMIT && Word(p.dat, p.countWord) == p.ordinal < 0xff
    requires p.countWord >= 0x20 && (p.countWord + 2 <= BANKS_HEADER || BANKS_HEADER + 4 <= p.countWord)
    ensures Pointers(p.Drafted()) == Ok(p.NewTable())
  {
    HeaderRewritten(Aligned(p.dat), p.BankBytes(), p.RecordBytes(), p.TableBytes(), p.star, p.countWord, p.ordinal + 1);
    DraftMagic(p);
  }

  lemma DraftMagic(p: Plan)
    requires p.Fits() && Word(p.dat, p.countWord) == p.ordinal < 0xff && p.countWord >= 0x20
    ensures |p.dat| <= |p.Drafted()| && Long(p.Drafted(), 0) == Long(p.dat, 0)
  {
    DraftOld(p, 0);
    DraftOld(p, 1);
    DraftOld(p, 2);
    DraftOld(p, 3);
  }

  /** The n bytes a bank's reader reads lie inside the data, behind the header. */
  predicate RangeOk(dat: seq<byte>, pointer: nat, n: nat) {
    pointer + 4 <= |dat| && BANKS_HEADER + 4 <= Long(dat, pointer) && Long(dat, pointer) + n <= |dat|
  }

  lemma {:induction false} BankRange(dat: seq<byte>, pointers: nat, active: seq<Route>, star: nat, n: nat)
    requires pointers + BANK_COUNT * 4 <= |dat| && Joined(BanksOf(dat, pointers)) == Ok(active) && star < BANK_COUNT
    requires n == BankBytes(CountOf(active, star))
    ensures RangeOk(dat, pointers + star * 4, n)
  {
    var bank := BankNumbered(dat, pointers, active, star);
    BankPlaced(dat, pointers, star, bank);
  }

  lemma {:induction false} OtherStill(p: Plan, star: nat, n: nat)
    requires p.Fits() && Word(p.dat, p.countWord) == p.ordinal < 0xff && p.NewTable() < LONG_LIMIT
    requires star < BANK_COUNT && star != p.star && RangeOk(p.dat, p.pointers + star * 4, n)
    requires !(Long(p.dat, p.pointers + star * 4) <= p.countWord < Long(p.dat, p.pointers + star * 4) + n)
    ensures StillThere(p.dat, p.Drafted(), p.NewTable() + star * 4, Long(p.dat, p.pointers + star * 4), n)
  {
    DraftOther(p, star, Long(p.dat, p.pointers + star * 4), n);
  }

  /** The draft's bank of the selected star. */
  lemma {:induction false} DraftSelected(p: Plan, bank: seq<Route>, selected: Route)
    requires p.Fits() && |p.Drafted()| <= MAX_DATA && p.oldBank == Long(p.dat, p.pointers + p.star * 4)
    requires |bank| == p.ordinal < MAX_ROUTES && Holds(p.dat, p.star, p.oldBank, bank)
    requires RecordOf(p.RecordBytes(), |p.dat|, selected.index) == Ok(selected) && selected.star == p.star
    ensures BankOf(p.Drafted(), p.NewTable(), p.star) == Ok(bank + [selected.(index := p.ordinal)])
  {
    DraftPointer(p, p.star);
    DraftBank(p, bank, selected);
  }

  /** What has to be known of the source for the draft to parse; sizes are those of the banks. */
  ghost predicate Known(p: Plan, sizes: seq<nat>, selected: Route, bank: seq<Route>) {
    && p.Fits() && Pointers(p.dat) == Ok(p.pointers) && p.oldBank == Long(p.dat, p.pointers + p.star * 4)
    && |bank| == p.ordinal < MAX_ROUTES && Holds(p.dat, p.star, p.oldBank, bank)
    && RecordOf(p.RecordBytes(), |p.dat|, selected.index) == Ok(selected) && selected.star == p.star
    && CountsPlaced(p.dat) && p.countWord == Quantities(p.dat) + COUNTS + p.star * 2
    && Word(p.dat, p.countWord) == p.ordinal
    && |sizes| == BANK_COUNT && forall s :: 0 <= s < BANK_COUNT ==> RangeOk(p.dat, p.pointers + s * 4, sizes[s])
  }

  lemma {:induction false} PlanKnown(p: Plan, active: seq<Route>, selected: Route) returns (bank: seq<Route>)
    requires Planned(p, active, selected)
    ensures Known(p, Sizes(active), selected, bank) && BankOf(p.dat, p.pointers, p.star) == Ok(bank)
  {
    PlanFits(p, active, selected);
    PlanRecord(p, active, selected);
    bank := PlanBank(p, active, selected);
    PlanRanges(p, active);
  }

  lemma PlanRanges(p: Plan, active: seq<Route>)
    requires RoutesOf(p.dat) == Ok(active) && Pointers(p.dat) == Ok(p.pointers)
    ensures forall s :: 0 <= s < BANK_COUNT ==> RangeOk(p.dat, p.pointers + s * 4, Sizes(active)[s])
  {
    forall s | 0 <= s < BANK_COUNT
      ensures RangeOk(p.dat, p.pointers + s * 4, Sizes(active)[s])
    {
      BankRange(p.dat, p.pointers, active, s, Sizes(active)[s]);
    }
  }

  /** The other banks are inside the source, and apart from the byte that changes. */
  ghost predicate OthersClear(p: Plan, sizes: seq<nat>) {
    && p.Fits() && Word(p.dat, p.countWord) == p.ordinal < 0xff && p.NewTable() < LONG_LIMIT && |sizes| == BANK_COUNT
    && forall s :: 0 <= s < BANK_COUNT && s != p.star ==> OtherClear(p, s, sizes[s])
  }

  predicate OtherClear(p: Plan, s: nat, n: nat) {
    RangeOk(p.dat, p.pointers + s * 4, n) && s < BANK_COUNT && p.Fits() && !CountRead(p, s, n)
  }

  /** The byte of the count that changes is among the n bytes of the bank. */
  predicate CountRead(p: Plan, s: nat, n: nat)
    requires p.Fits() && s < BANK_COUNT
  {
    Long(p.dat, p.pointers + s * 4) <= p.countWord < Long(p.dat, p.pointers + s * 4) + n
  }

  lemma {:induction false} KnownClear(p: Plan, active: seq<Route>, selected: Route, bank: seq<Route>)
    requires Known(p, Sizes(active), selected, bank) && Apart(p, active) && |p.Drafted()| <= MAX_DATA
    ensures OthersClear(p, Sizes(active))
  {
    forall s | 0 <= s < BANK_COUNT && s != p.star
      ensures OtherClear(p, s, Sizes(active)[s])
    {
      assert !CountRead(p, s, Sizes(active)[s]);
    }
  }

  lemma AllStill(p: Plan, sizes: seq<nat>)
    requires OthersClear(p, sizes)
    ensures forall s :: 0 <= s < BANK_COUNT && s != p.star ==>
                          StillThere(p.dat, p.Drafted(), p.NewTable() + s * 4, Long(p.dat, p.pointers + s * 4), sizes[s])
  {
    forall s | 0 <= s < BANK_COUNT && s != p.star
      ensures StillThere(p.dat, p.Drafted(), p.NewTable() + s * 4, Long(p.dat, p.pointers + s * 4), sizes[s])
    {
      OtherStill(p, s, sizes[s]);
    }
  }

  /** The draft as the parser meets it: a new pointer table, the longer bank, the other banks as they were. */
  ghost predicate Readable(p: Plan, sizes: seq<nat>, selected: Route, bank: seq<Route>, b: seq<byte>, at: nat) {
    && p.Fits() && |sizes| == BANK_COUNT && at + BANK_COUNT * 4 <= |b| && |p.dat| <= |b| && Pointers(b) == Ok(at)
    && p.star < BANK_COUNT && BankOf(b, at, p.star) == Ok(bank + [selected.(index := p.ordinal)])
    && forall s :: 0 <= s < BANK_COUNT && s != p.star ==>
                     StillThere(p.dat, b, at + s * 4, Long(p.dat, p.pointers + s * 4), sizes[s])
  }

  lemma {:induction false} DraftReadable(p: Plan, active: seq<Route>, selected: Route, bank: seq<Route>)
    requires Known(p, Sizes(active), selected, bank) && Apart(p, active) && |p.Drafted()| <= MAX_DATA
    ensures Readable(p, Sizes(active), selected, bank, p.Drafted(), p.NewTable())
  {
    KnownClear(p, active, selected, bank);
    AllStill(p, Sizes(active));
    DraftPointers(p, active);
    DraftSelected(p, bank, selected);
  }

  lemma {:induction false} ReadableInserted(p: Plan, active: seq<Route>, selected: Route, bank: seq<Route>, b: seq<byte>, at: nat)
    requires Readable(p, Sizes(active), selected, bank, b, at) && selected.star == p.star
    requires Joined(BanksOf(p.dat, p.pointers)) == Ok(active) && BankOf(p.dat, p.pointers, p.star) == Ok(bank)
    ensures RoutesOf(b) == Ok(Inserted(active, selected.(index := p.ordinal)))
  {
    StillInserted(p.dat, p.pointers, b, at, active, p.star, bank, selected.(index := p.ordinal));
  }

  /**
   * The parser finds in the draft the old routes and, behind the last one of its star, the selected route,
   * under the ordinal that was reported.
   */
  lemma {:induction false} DraftInserts(p: Plan, active: seq<Route>, selected: Route)
    requires Planned(p, active, selected) && p.Fits() && Apart(p, active) && |p.Drafted()| <= MAX_DATA
    ensures RoutesOf(p.Drafted()) == Ok(Inserted(active, selected.(index := p.ordinal)))
  {
    var bank := PlanKnown(p, active, selected);
    DraftReadable(p, active, selected, bank);
    ReadableInserted(p, active, selected, bank, p.Drafted(), p.NewTable());
  }

  // ------------------------------------------------------------------
  // The relocation counts of the draft.

  lemma {:induction false} InsertedCounts(routes: seq<Route>, r: Route, star: nat)
    ensures CountOf(Inserted(routes, r), star) == CountOf(routes, star) + if r.star == star then 1 else 0
  {
    if routes == [] || routes[0].star > r.star {
      assert ([r] + routes)[1..] == routes;
    } else {
      InsertedCounts(routes[1..], r, star);
      assert ([routes[0]] + Inserted(routes[1..], r))[1..] == Inserted(routes[1..], r);
    }
  }

  /** A word of the old data that the draft does not rewrite. */
  lemma DraftWord(p: Plan, at: nat)
    requires p.Fits() && Word(p.dat, p.countWord) == p.ordinal < 0xff && at + 2 <= |p.dat|
    requires at + 2 <= p.countWord || p.countWord + 1 <= at
    requires at + 2 <= BANKS_HEADER || BANKS_HEADER + 4 <= at
    ensures Word(p.Drafted(), at) == Word(p.dat, at)
  {
    DraftOld(p, at);
    DraftOld(p, at + 1);
  }

  lemma DraftCount(p: Plan)
    requires p.Fits() && p.ordinal < 0xff
    ensures Word(p.Drafted(), p.countWord) == p.ordinal + 1
  {
    var b0 := Joint(Aligned(p.dat), p.BankBytes(), p.RecordBytes(), p.TableBytes());
    var b1 := Patched(b0, p.NewTable() + p.star * 4, LongBytes(p.NewBank()));
    var b2 := Patched(b1, BANKS_HEADER, LongBytes(p.NewTable()));
    WordPut(b2, p.countWord, p.ordinal + 1);
  }

  lemma {:induction false} DraftCountAt(p: Plan, active: seq<Route>, route: Route, q: nat, s: nat)
    requires p.Fits() && q + COUNTS + BANK_COUNT * 2 <= |p.dat| && s < BANK_COUNT && p.countWord == q + COUNTS + p.star * 2
    requires q + COUNTS + BANK_COUNT * 2 <= BANKS_HEADER || BANKS_HEADER + 4 <= q + COUNTS - 2
    requires Word(p.dat, p.countWord) == p.ordinal < 0xff && Word(p.dat, q + COUNTS + s * 2) == CountOf(active, s)
    requires route.star == p.star
    ensures Word(p.Drafted(), q + COUNTS + s * 2) == CountOf(Inserted(active, route), s)
  {
    InsertedCounts(active, route, s);
    if s == p.star {
      DraftCount(p);
    } else {
      DraftWord(p, q + COUNTS + s * 2);
    }
  }

  /** The draft's counts are those of the routes the parser finds in it. */
  lemma {:induction false} DraftCounts(p: Plan, active: seq<Route>, route: Route)
    requires p.Fits() && Apart(p, active) && CountsMatch(p.dat, active) && route.star == p.star
    requires p.countWord == Quantities(p.dat) + COUNTS + p.star * 2 && CountOf(active, p.star) == p.ordinal < 0xff
    ensures CountsMatch(p.Drafted(), Inserted(active, route))
  {
    var q := Quantities(p.dat);
    assert Word(p.dat, p.countWord) == p.ordinal;
    DraftPlaced(p);
    forall s | 0 <= s < BANK_COUNT
      ensures Word(p.Drafted(), q + COUNTS + s * 2) == CountOf(Inserted(active, route), s)
    {
      DraftCountAt(p, active, route, q, s);
    }
  }

  lemma {:induction false} DraftPlaced(p: Plan)
    requires p.Fits() && CountsPlaced(p.dat) && p.countWord == Quantities(p.dat) + COUNTS + p.star * 2
    requires Quantities(p.dat) + COUNTS + BANK_COUNT * 2 <= BANKS_HEADER || BANKS_HEADER + 4 <= Quantities(p.dat) + COUNTS - 2
    requires Word(p.dat, p.countWord) == p.ordinal < 0xff
    ensures CountsPlaced(p.Drafted()) && Quantities(p.Drafted()) == Quantities(p.dat)
  {
    DraftQuantities(p);
    DraftWord(p, Quantities(p.dat) + COUNTS - 2);
  }

  lemma DraftQuantities(p: Plan)
    requires p.Fits() && CountsPlaced(p.dat) && p.countWord == Quantities(p.dat) + COUNTS + p.star * 2
    requires Word(p.dat, p.countWord) == p.ordinal < 0xff
    ensures |p.dat| <= |p.Drafted()| && Quantities(p.Drafted()) == Quantities(p.dat)
  {
    DraftWord(p, QUANTITIES_POINTER);
    DraftWord(p, QUANTITIES_POINTER + 2);
  }

  /**
   * A bank that is still read keeps all bytes of its records and its end exactly when the changed byte of the
   * count is none of them.
   */
  lemma OthersKept(p: Plan, table: nat, count: nat)
    requires p.Fits() && Word(p.dat, p.countWord) == p.ordinal < 0xff && BANKS_HEADER + 4 <= table
    ensures (forall i :: table <= i < At(table, count) + 16 && i < |p.dat| ==> p.Drafted()[i] == p.dat[i])
            <==> !(table <= p.countWord < At(table, count) + 16)
  {
    forall i | table <= i < At(table, count) + 16 && i < |p.dat| && i != p.countWord
      ensures p.Drafted()[i] == p.dat[i]
    {
      DraftOld(p, i);
    }
    DraftCount(p);
    assert p.dat[p.countWord] == p.ordinal != p.Drafted()[p.countWord];
  }

  // ------------------------------------------------------------------
  // Building the draft.

  datatype ClientDraft = ClientDraft(data: seq<byte>, info: seq<byte>, route: Route, bankOrdinal: nat)

  /** The last route with the number. */
  function LastOf(routes: seq<Route>, number: nat): (r: Result<Route>)
    ensures r.Ok? <==> exists k :: 0 <= k < |routes| && routes[k].number == number
    ensures r.Ok? ==> exists k :: 0 <= k < |routes| && routes[k] == r.value && r.value.number == number
                                  && forall j :: k < j < |routes| ==> routes[j].number != number
  {
    if routes == [] then Failed
    else
      var init, last := routes[..|routes| - 1], routes[|routes| - 1];
      if last.number == number then Ok(last) else LastOf(init, number)
  }

  method Select(routes: seq<Route>, number: nat) returns (r: Result<Route>)
    ensures r == LastOf(routes, number)
  {
    r := Failed;
    for i := 0 to |routes|
      invariant r == LastOf(routes[..i], number)
    {
      assert routes[..i + 1][..i] == routes[..i];
      if routes[i].number == number {
        r := Ok(routes[i]);
      }
    }
    assert routes[..|routes|] == routes;
  }

  /** The bodies are exactly those of the route's stages, which are distinct and in the supported range. */
  predicate StagesGiven(stages: seq<nat>, given: set<nat>) {
    && |given| == |stages| && Distinct(stages) && forall id :: id in stages ==> 27001 <= id <= 27523 && id in given
  }

  method CheckStages(stages: seq<nat>, given: set<nat>) returns (ok: bool)
    ensures ok <==> StagesGiven(stages, given)
  {
    if |given| != |stages| {
      return false;
    }
    var seen: set<nat> := {};
    for i := 0 to |stages|
      invariant seen == (set x | x in stages[..i]) && Distinct(stages[..i])
      invariant forall k :: 0 <= k < i ==> 27001 <= stages[k] <= 27523 && stages[k] in given
    {
      var id := stages[i];
      assert id in stages;
      if id < 27001 || id > 27523 || id in seen || id !in given {
        return false;
      }
      seen := seen + {id};
    }
    assert stages[..|stages|] == stages;
    ok := true;
  }

  /** The routes of the data, its counts, and one route of the catalogue. */
  ghost predicate Chosen(dat: seq<byte>, active: seq<Route>, selected: Route) {
    RoutesOf(dat) == Ok(active) && CountsMatch(dat, active) && Catalogue(dat).Ok? && selected in Catalogue(dat).value
  }

  /** The active routes and the selected one, if everything that can be checked before the draft is as it should. */
  ghost function Selection(dat: seq<byte>, number: nat, given: set<nat>): Result<(seq<Route>, Route)> {
    var active, routes := RoutesOf(dat), Catalogue(dat);
    if !active.Ok? || !routes.Ok? || !CountsMatch(dat, active.value) then Failed
    else
      var selected := LastOf(routes.value, number);
      if selected.Ok? && StagesGiven(selected.value.stages, given) then Ok((active.value, selected.value)) else Failed
  }

  method Choose(dat: seq<byte>, number: nat, given: set<nat>)
      returns (ok: bool, active: seq<Route>, selected: Route)
    ensures ok <==> Selection(dat, number, given).Ok?
    ensures ok ==> Selection(dat, number, given) == Ok((active, selected)) && Chosen(dat, active, selected)
  {
    ok, active, selected := false, [], Route(0, 0, 0, 0, []);
    var routes := ParseCatalogue(dat);
    if !routes.Ok? {
      return;
    }
    var banks := ParseRouteBanks(dat);
    if !banks.Ok? {
      return;
    }
    active := banks.value;
    ActiveStars(dat, active);
    var matching := CheckCounts(dat, active);
    if !matching {
      return;
    }
    var chosen := Select(routes.value, number);
    if !chosen.Ok? {
      return;
    }
    selected := chosen.value;
    ok := CheckStages(selected.stages, given);
  }

  /** The positions of the draft. */
  ghost function PlanOf(dat: seq<byte>, active: seq<Route>, selected: Route): (p: Plan)
    requires Chosen(dat, active, selected)
    ensures p.dat == dat && p.star == selected.star && p.ordinal == CountOf(active, selected.star)
  {
    SelectedStar(dat, selected);
    var pointers := Pointers(dat).value;
    Plan(dat, selected.star, pointers, Long(dat, pointers + selected.star * 4), CountOf(active, selected.star),
         At(TableOf(dat).value, selected.index), Quantities(dat) + COUNTS + selected.star * 2)
  }

  lemma PlanPlanned(dat: seq<byte>, active: seq<Route>, selected: Route)
    requires Chosen(dat, active, selected) && 0 < CountOf(active, selected.star) < MAX_ROUTES
    ensures Planned(PlanOf(dat, active, selected), active, selected)
  {
    SelectedStar(dat, selected);
  }

  method PlanDraft(dat: seq<byte>, ghost active: seq<Route>, selected: Route, ordinal: nat) returns (p: Plan)
    requires Chosen(dat, active, selected) && ordinal == CountOf(active, selected.star)
    ensures p == PlanOf(dat, active, selected)
  {
    SelectedStar(dat, selected);
    var pointers := Long(dat, BANKS_HEADER);
    p := Plan(dat, selected.star, pointers, Long(dat, pointers + selected.star * 4), ordinal,
              Long(dat, CATALOGUE_HEADER) + selected.index * 0x10c, Quantities(dat) + COUNTS + selected.star * 2);
  }

  lemma SelectedStar(dat: seq<byte>, route: Route)
    requires Catalogue(dat).Ok? && route in Catalogue(dat).value
    ensures route.star < BANK_COUNT && TableOf(dat).Ok?
  {
    CatalogueRecord(dat, route);
  }

  /** There is room for the draft, and its banks can be read. */
  ghost predicate DraftParses(p: Plan) {
    0 < p.ordinal < MAX_ROUTES && p.Fits() && |p.Drafted()| <= MAX_DATA && RoutesOf(p.Drafted()).Ok?
  }

  /** The plan of the draft, if everything that can be checked before it is as it should. */
  ghost function Planning(dat: seq<byte>, number: nat, given: set<nat>): Result<Plan> {
    var chosen := Selection(dat, number, given);
    if chosen.Ok? then Ok(PlanOf(dat, chosen.value.0, chosen.value.1)) else Failed
  }

  ghost predicate Draftable(dat: seq<byte>, inf: seq<byte>, number: nat, bodies: map<nat, StageBodies.Body>) {
    && Planning(dat, number, bodies.Keys).Ok? && DraftParses(Planning(dat, number, bodies.Keys).value)
    && QuestDrafts.Restorable(inf, bodies)
  }

  ghost function DraftOf(dat: seq<byte>, inf: seq<byte>, number: nat, bodies: map<nat, StageBodies.Body>): ClientDraft
    requires Draftable(dat, inf, number, bodies)
  {
    var p := Planning(dat, number, bodies.Keys).value;
    ClientDraft(p.Drafted(), QuestDrafts.Restoration(inf, bodies), Selection(dat, number, bodies.Keys).value.1.(index := p.ordinal), p.ordinal)
  }

  /** The draft of a route, made exactly when everything checked is in order. */
  method BuildClientDraft(dat: seq<byte>, inf: seq<byte>, number: nat, stages: map<nat, seq<byte>>)
      returns (r: Result<ClientDraft>)
    requires forall id :: id in stages ==> id < QuestDrafts.IDS
    ensures var bodies := QuestDrafts.Bodies(stages);
            r == if Draftable(dat, inf, number, bodies) then Ok(DraftOf(dat, inf, number, bodies)) else Failed
  {
    var ok, active, selected := Choose(dat, number, stages.Keys);
    if !ok {
      return Failed;
    }
    DraftableIs(dat, inf, number, QuestDrafts.Bodies(stages), active, selected);
    var info := QuestDrafts.AppendClientQuestInfo(inf, stages);
    if !info.Ok? {
      return Failed;
    }
    var ordinal := Ordinal(active, selected.star);
    var data := DraftRoute(dat, active, selected, ordinal);
    if !data.Ok? {
      return Failed;
    }
    return Ok(ClientDraft(data.value, info.value, selected.(index := ordinal), ordinal));
  }

  lemma DraftableIs(dat: seq<byte>, inf: seq<byte>, number: nat, bodies: map<nat, StageBodies.Body>, active: seq<Route>, selected: Route)
    requires Selection(dat, number, bodies.Keys) == Ok((active, selected)) && Chosen(dat, active, selected)
    ensures Draftable(dat, inf, number, bodies) <==> DraftParses(PlanOf(dat, active, selected)) && QuestDrafts.Restorable(inf, bodies)
    ensures Draftable(dat, inf, number, bodies) ==>
              var p := PlanOf(dat, active, selected);
              DraftOf(dat, inf, number, bodies)
              == ClientDraft(p.Drafted(), QuestDrafts.Restoration(inf, bodies), selected.(index := p.ordinal), p.ordinal)
  {
  }

  /** The next free ordinal of a star's bank. */
  method Ordinal(active: seq<Route>, star: nat) returns (ordinal: nat)
    ensures ordinal == CountOf(active, star)
  {
    ordinal := 0;
    for i := 0 to |active|
      invariant ordinal == CountOf(active[..i], star)
    {
      CountNext(active, i);
      if active[i].star == star {
        ordinal := ordinal + 1;
      }
    }
    assert active[..|active|] == active;
  }

  method DraftRoute(dat: seq<byte>, ghost active: seq<Route>, selected: Route, ordinal: nat) returns (r: Result<seq<byte>>)
    requires Chosen(dat, active, selected) && ordinal == CountOf(active, selected.star)
    ensures r == if DraftParses(PlanOf(dat, active, selected)) then Ok(PlanOf(dat, active, selected).Drafted()) else Failed
  {
    if ordinal == 0 || ordinal >= MAX_ROUTES {
      return Failed;
    }
    var p := PlanDraft(dat, active, selected, ordinal);
    PlanPlanned(dat, active, selected);
    PlanFits(p, active, selected);
    r := WriteDraft(p);
  }

  /**
   * Whenever the rewritten count is apart from what is still read, parsing the draft gives the old routes with the
   * selected one inserted behind the last route of its star, at the reported ordinal, and the relocation counts are
   * those of the new list.
   */
  lemma DraftInsertsRoute(dat: seq<byte>, inf: seq<byte>, number: nat, bodies: map<nat, StageBodies.Body>)
    requires Draftable(dat, inf, number, bodies) && Apart(Planning(dat, number, bodies.Keys).value, RoutesOf(dat).value)
    ensures var draft := DraftOf(dat, inf, number, bodies);
            && RoutesOf(draft.data) == Ok(Inserted(RoutesOf(dat).value, draft.route))
            && CountsMatch(draft.data, Inserted(RoutesOf(dat).value, draft.route))
            && draft.route.number == number && draft.route.index == draft.bankOrdinal == CountOf(RoutesOf(dat).value, draft.route.star)
  {
    var (active, selected) := Selection(dat, number, bodies.Keys).value;
    var p := PlanOf(dat, active, selected);
    PlanPlanned(dat, active, selected);
    PlanFits(p, active, selected);
    DraftInserts(p, active, selected);
    DraftCounts(p, active, selected.(index := p.ordinal));
  }

  /** Then the draft can be read whenever there is room for it: parsing it again never refuses it. */
  lemma ApartParses(dat: seq<byte>, active: seq<Route>, selected: Route)
    requires Chosen(dat, active, selected) && Apart(PlanOf(dat, active, selected), active)
    ensures var p := PlanOf(dat, active, selected);
            DraftParses(p) <==> 0 < p.ordinal < MAX_ROUTES && |p.Drafted()| <= MAX_DATA
  {
    var p := PlanOf(dat, active, selected);
    if 0 < p.ordinal < MAX_ROUTES {
      PlanPlanned(dat, active, selected);
      PlanFits(p, active, selected);
    }
    if 0 < p.ordinal < MAX_ROUTES && |p.Drafted()| <= MAX_DATA {
      DraftInserts(p, active, selected);
    }
  }

  /** The draft's bytes, if they are not too many and parse. */
  method WriteDraft(p: Plan) returns (r: Result<seq<byte>>)
    requires p.Fits()
    ensures r == if |p.Drafted()| <= MAX_DATA && RoutesOf(p.Drafted()).Ok? then Ok(p.Drafted()) else Failed
  {
    var data := AssembleDraft(p.dat, p.BankBytes(), p.RecordBytes(), p.TableBytes(), p.star, p.countWord, p.ordinal + 1);
    assert data == p.Drafted();
    if |data| > MAX_DATA {
      return Failed;
    }
    var again := ParseRouteBanks(data);
    if !again.Ok? {
      return Failed;
    }
    r := Ok(data);
  }

  lemma ActiveStars(dat: seq<byte>, active: seq<Route>)
    requires RoutesOf(dat) == Ok(active)
    ensures forall r :: r in active ==> r.star < BANK_COUNT
  {
    var banks := BanksOf(dat, Pointers(dat).value);
    JoinedStars(banks, 0, active);
  }

  lemma {:induction false} JoinedStars(banks: seq<Result<seq<Route>>>, first: nat, routes: seq<Route>)
    requires Starred(banks, first) && Joined(banks) == Ok(routes)
    ensures forall r :: r in routes ==> r.star < first + |banks|
  {
    if banks != [] {
      JoinedStars(banks[1..], first + 1, Joined(banks[1..]).value);
    }
  }

  /** The appends and the three patches. */
  method AssembleDraft(source: seq<byte>, bank: seq<byte>, record: seq<byte>, table: seq<byte>, star: nat, countWord: nat, count: nat)
      returns (data: seq<byte>)
    requires Fitting(Aligned(source), bank, record, table, star, countWord)
    ensures data == Assembled(Aligned(source), bank, record, table, star, countWord, count)
  {
    var draft := new Draft(source);
    draft.Align();
    var newBank := |draft.bytes|;
    draft.Append(bank);
    draft.Append(record);
    draft.Append(Zeros(RECORD_SIZE));
    var newPointers := |draft.bytes|;
    draft.Append(table);
    draft.PutLong(newPointers + star * 4, newBank);
    draft.PutLong(BANKS_HEADER, newPointers);
    draft.PutWord(countWord, count);
    data := draft.bytes;
  }
}
