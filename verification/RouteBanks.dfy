/** Route records in decoded client data: the retained catalogue and the eleven active banks. */
module RouteBanks {
  import opened Bytes
  import opened Layout

  const CATALOGUE_HEADER := 0x878
  const BANKS_HEADER := 0x91c
  const BANK_COUNT := 11
  const RECORD_SIZE := 0x10c
  const MAX_ROUTES := 200
  const STAGE_OFFSET := 0x4c
  const STAGE_STRIDE := 0x10
  const STAGE_SLOTS := 12
  const MAGIC := 0x1a66686d

  datatype Route = Route(index: nat, star: nat, number: nat, nativeCode: nat, stages: seq<nat>)

  function Prepend<T>(front: seq<T>, rest: Result<seq<T>>): Result<seq<T>> {
    if rest.Ok? then Ok(front + rest.value) else rest
  }

  // ------------------------------------------------------------------
  // One record.

  function Slots(record: seq<byte>): seq<nat>
    requires |record| == RECORD_SIZE
  {
    seq(STAGE_SLOTS, j requires 0 <= j < STAGE_SLOTS => Long(record, STAGE_OFFSET + j * STAGE_STRIDE))
  }

  /** The stage IDs: nonzero ones, then only zeros, with at least one zero slot. */
  function Stages(slots: seq<nat>, ended: bool): Result<seq<nat>> {
    if slots == [] then if ended then Ok([]) else Failed
    else if slots[0] == 0 then Stages(slots[1..], true)
    else if ended || slots[0] > 65535 then Failed
    else Prepend([slots[0]], Stages(slots[1..], false))
  }

  /** A record, in a file of the given size. */
  function RecordOf(record: seq<byte>, size: nat, index: nat): (r: Result<Route>)
    requires |record| == RECORD_SIZE
    ensures r.Ok? ==> r.value.star + 1 == Word(record, 14) && r.value.index == index
  {
    var title, star, code := Long(record, 0), Word(record, 14) - 1, Word(record, 12);
    var number := code - 10000 - star * 1000;
    if title == 0 || title >= size || star < 0 || star > 10 || number < 1 || number > 99 then Failed
    else
      var stages := Stages(Slots(record), false);
      if stages.Ok? && stages.value != [] then Ok(Route(index, star, star * 100 + number, code, stages.value)) else Failed
  }

  method ParseRouteRecord(data: seq<byte>, pos: nat, index: nat) returns (r: Result<Route>)
    requires pos + RECORD_SIZE <= |data|
    ensures r == RecordOf(data[pos..pos + RECORD_SIZE], |data|, index)
  {
    var record := data[pos..pos + RECORD_SIZE];
    var title, code := Long(record, 0), Long(record, 0xc);
    var high: int, nativeCode: int := code / 0x1_0000, code % 0x1_0000;
    var star := high - 1;
    var number: int := nativeCode - 10000 - star * 1000;
    if title == 0 || title >= |data| || star < 0 || star > 10 || number < 1 || number > 99 {
      return Failed;
    }
    var stages: seq<nat> := [];
    var ended := false;
    ghost var slots := Slots(record);
    ghost var goal := Stages(slots, false);
    assert slots[0..] == slots;
    PrependNone(goal);
    for j := 0 to STAGE_SLOTS
      invariant goal == Prepend(stages, Stages(slots[j..], ended))
    {
      var id := Long(record, STAGE_OFFSET + j * STAGE_STRIDE);
      if id == 0 {
        ended := true;
        continue;
      }
      if ended || id > 65535 {
        return Failed;
      }
      PrependTwice(stages, [id], Stages(slots[j + 1..], false));
      stages := stages + [id];
    }
    if !ended || |stages| == 0 {
      return Failed;
    }
    assert stages + [] == stages;
    return Ok(Route(index, star, star * 100 + number, nativeCode, stages));
  }

  lemma PrependNone<T>(rest: Result<seq<T>>)
    ensures Prepend([], rest) == rest
  {
    if rest.Ok? {
      assert [] + rest.value == rest.value;
    }
  }

  lemma PrependTwice<T>(a: seq<T>, b: seq<T>, rest: Result<seq<T>>)
    ensures Prepend(a, Prepend(b, rest)) == Prepend(a + b, rest)
  {
    if rest.Ok? {
      assert a + (b + rest.value) == a + b + rest.value;
    }
  }

  // ------------------------------------------------------------------
  // What a record says, in its own bytes.

  /** The word of slot j. */
  function SlotWord(record: seq<byte>, j: nat): nat
    requires |record| == RECORD_SIZE && j < STAGE_SLOTS
  {
    Long(record, 0x4c + 0x10 * j)
  }

  /** The stage IDs stand in the first slots, one in each, and all others are zero; at least one is. */
  predicate StagesStand(record: seq<byte>, stages: seq<nat>)
    requires |record| == RECORD_SIZE
  {
    && 1 <= |stages| < STAGE_SLOTS
    && (forall j :: 0 <= j < |stages| ==> SlotWord(record, j) == stages[j] && 0 < stages[j] <= 65535)
    && forall j :: |stages| <= j < STAGE_SLOTS ==> SlotWord(record, j) == 0
  }

  /** The title lies in the file, and bytes 12 to 15 hold a code of ten thousand and a star of 0 to 10, with a number of 1 to 99. */
  predicate HeadStands(record: seq<byte>, size: nat, star: nat, number: int, code: nat)
    requires |record| == RECORD_SIZE
  {
    var low, high: nat := record[12], record[13];
    && 0 < Long(record, 0) < size && star <= 10 && 1 <= number <= 99
    && record[14] as int == star + 1 && record[15] == 0
    && low + 0x100 * high == code == 10000 + star * 1000 + number
  }

  lemma HeadIff(record: seq<byte>, size: nat, star: nat, number: int, code: nat)
    requires |record| == RECORD_SIZE
    ensures HeadStands(record, size, star, number, code) <==>
            && 0 < Long(record, 0) < size && Word(record, 14) == star + 1 && star <= 10
            && Word(record, 12) == code && number == code - 10000 - star * 1000 && 1 <= number <= 99
  {
  }

  /** What the slots from the first on hold, when none before was zero. */
  lemma {:induction false} StagesAre(slots: seq<nat>, ended: bool, stages: seq<nat>)
    ensures Stages(slots, ended) == Ok(stages) <==>
            && |stages| <= |slots| && (ended ==> stages == []) && (ended || |stages| < |slots|)
            && (forall j :: 0 <= j < |stages| ==> slots[j] == stages[j] && 0 < stages[j] <= 65535)
            && forall j :: |stages| <= j < |slots| ==> slots[j] == 0
  {
    if slots != [] {
      if slots[0] == 0 {
        StagesAre(slots[1..], true, stages);
        assert forall j :: 0 < j < |slots| ==> slots[j] == slots[1..][j - 1];
      } else if stages != [] {
        StagesAre(slots[1..], false, stages[1..]);
        assert stages == [stages[0]] + stages[1..];
        assert forall j :: 0 < j < |slots| ==> slots[j] == slots[1..][j - 1];
        assert forall j :: 0 < j < |stages| ==> stages[j] == stages[1..][j - 1];
      }
    }
  }

  /**
   * A record is a route exactly when its head and its slots hold one, and then it is that route: the star, the number
   * within it, the code, and the stage IDs in the order of their slots.
   */
  lemma RecordIff(record: seq<byte>, size: nat, index: nat, route: Route)
    requires |record| == RECORD_SIZE
    ensures RecordOf(record, size, index) == Ok(route) <==>
            && route.index == index && StagesStand(record, route.stages)
            && HeadStands(record, size, route.star, route.number - route.star * 100, route.nativeCode)
  {
    HeadIff(record, size, route.star, route.number - route.star * 100, route.nativeCode);
    StagesAre(Slots(record), false, route.stages);
    assert forall j :: 0 <= j < STAGE_SLOTS ==> Slots(record)[j] == SlotWord(record, j);
  }

  /** A record parses the same in a larger file, under any ordinal. */
  lemma RecordKept(record: seq<byte>, size: nat, index: nat, size': nat, index': nat)
    requires |record| == RECORD_SIZE && RecordOf(record, size, index).Ok? && size <= size'
    ensures RecordOf(record, size', index') == Ok(RecordOf(record, size, index).value.(index := index'))
  {
  }

  // ------------------------------------------------------------------
  // A bank: records until the encoded star changes.

  /** Where record i of a table begins; the record size is written out, to keep the product linear. */
  function At(table: nat, i: nat): nat { table + i * 0x10c }

  function Record(data: seq<byte>, table: nat, i: nat): seq<byte>
    requires At(table, i) + RECORD_SIZE <= |data|
  {
    data[At(table, i)..At(table, i) + RECORD_SIZE]
  }

  predicate HoldsAt(data: seq<byte>, star: nat, table: nat, k: nat, route: Route) {
    && k < MAX_ROUTES && At(table, k) + RECORD_SIZE <= |data|
    && Word(Record(data, table, k), 14) == star + 1
    && RecordOf(Record(data, table, k), |data|, k) == Ok(route)
  }

  /** The table holds these routes: record by record, then a header of another star. */
  ghost predicate Holds(data: seq<byte>, star: nat, table: nat, bank: seq<Route>) {
    && |bank| <= MAX_ROUTES && At(table, |bank|) + 16 <= |data| && Word(data, At(table, |bank|) + 14) != star + 1
    && forall k :: 0 <= k < |bank| ==> HoldsAt(data, star, table, k, bank[k])
  }

  lemma HoldsStar(data: seq<byte>, star: nat, table: nat, k: nat, route: Route)
    requires HoldsAt(data, star, table, k, route)
    ensures Word(data, At(table, k) + 14) == star + 1
  {
    assert Word(Record(data, table, k), 14) == Word(data, At(table, k) + 14);
  }

  /** Where one list goes on, no other ends. */
  lemma HoldsNoShorter(data: seq<byte>, star: nat, table: nat, a: seq<Route>, b: seq<Route>)
    requires Holds(data, star, table, a) && Holds(data, star, table, b)
    ensures |a| >= |b|
  {
    if |a| < |b| {
      HoldsStar(data, star, table, |a|, b[|a|]);
      assert false;
    }
  }

  /** A table holds at most one list of routes. */
  lemma HoldsUnique(data: seq<byte>, star: nat, table: nat, a: seq<Route>, b: seq<Route>)
    requires Holds(data, star, table, a) && Holds(data, star, table, b)
    ensures a == b
  {
    HoldsNoShorter(data, star, table, a, b);
    HoldsNoShorter(data, star, table, b, a);
    forall k | 0 <= k < |a|
      ensures a[k] == b[k]
    {
      assert HoldsAt(data, star, table, k, a[k]) && HoldsAt(data, star, table, k, b[k]);
    }
  }

  ghost function Bank(data: seq<byte>, star: nat, table: nat): Result<seq<Route>> {
    if exists bank :: Holds(data, star, table, bank) then
      var bank :| Holds(data, star, table, bank); Ok(bank)
    else Failed
  }

  lemma BankHolds(data: seq<byte>, star: nat, table: nat, bank: seq<Route>)
    ensures Bank(data, star, table) == Ok(bank) <==> Holds(data, star, table, bank)
  {
    if Holds(data, star, table, bank) {
      HoldsUnique(data, star, table, bank, Bank(data, star, table).value);
    }
  }

  lemma GoesOn(data: seq<byte>, star: nat, table: nat, bank: seq<Route>, n: nat)
    requires Holds(data, star, table, bank) && n < |bank|
    ensures exists route :: HoldsAt(data, star, table, n, route)
  {
    assert HoldsAt(data, star, table, n, bank[n]);
  }

  /** When the records read so far are followed by neither a record nor an end, there is no list. */
  lemma BankBroken(data: seq<byte>, star: nat, table: nat, routes: seq<Route>)
    requires forall k :: 0 <= k < |routes| ==> HoldsAt(data, star, table, k, routes[k])
    requires At(table, |routes|) + 16 > |data| || Word(data, At(table, |routes|) + 14) == star + 1
    requires !(exists route :: HoldsAt(data, star, table, |routes|, route))
    ensures Bank(data, star, table) == Failed
  {
    if bank :| Holds(data, star, table, bank) {
      if |bank| < |routes| {
        HoldsStar(data, star, table, |bank|, routes[|bank|]);
      } else if |routes| < |bank| {
        GoesOn(data, star, table, bank, |routes|);
      }
      assert false;
    }
  }

  lemma RecordWord(data: seq<byte>, table: nat, i: nat)
    requires At(table, i) + RECORD_SIZE <= |data|
    ensures Word(Record(data, table, i), 14) == Word(data, At(table, i) + 14)
  {
    PartOf(data, At(table, i), RECORD_SIZE, 14, 2);
    WordSame(Record(data, table, i), 14, data, At(table, i) + 14);
  }

  method ParseBank(data: seq<byte>, star: nat, table: nat) returns (r: Result<seq<Route>>)
    ensures r == Bank(data, star, table)
  {
    var routes: seq<Route> := [];
    for i := 0 to MAX_ROUTES + 1
      invariant |routes| == i <= MAX_ROUTES
      invariant forall k :: 0 <= k < i ==> HoldsAt(data, star, table, k, routes[k])
    {
      var pos := table + i * 0x10c;
      if pos + 16 > |data| {
        BankBroken(data, star, table, routes);
        return Failed;
      }
      if Long(data, pos + 12) / 0x1_0000 != star + 1 {
        BankHolds(data, star, table, routes);
        return Ok(routes);
      }
      if i == MAX_ROUTES || pos + RECORD_SIZE > |data| {
        BankBroken(data, star, table, routes);
        return Failed;
      }
      var route := ParseRouteRecord(data, pos, i);
      if !route.Ok? {
        BankBroken(data, star, table, routes);
        return Failed;
      }
      RecordWord(data, table, i);
      routes := routes + [route.value];
    }
    assert false;
  }

  /** One bank, found through the pointer table; it may not be empty. */
  ghost function BankOf(data: seq<byte>, pointers: nat, star: nat): Result<seq<Route>>
    requires pointers + BANK_COUNT * 4 <= |data| && star < BANK_COUNT
  {
    var table := Long(data, pointers + star * 4);
    if table < BANKS_HEADER + 4 || table + 16 > |data| then Failed
    else
      var bank := Bank(data, star, table);
      if bank.Ok? && bank.value == [] then Failed else bank
  }

  ghost function BanksOf(data: seq<byte>, pointers: nat): seq<Result<seq<Route>>>
    requires pointers + BANK_COUNT * 4 <= |data|
  {
    seq(BANK_COUNT, star requires 0 <= star < BANK_COUNT => BankOf(data, pointers, star))
  }

  /** All banks one after the other, if none failed. */
  function Joined(banks: seq<Result<seq<Route>>>): Result<seq<Route>> {
    if banks == [] then Ok([])
    else if banks[0].Ok? then Prepend(banks[0].value, Joined(banks[1..]))
    else Failed
  }

  /** Where the pointer table of the banks is. */
  function Pointers(data: seq<byte>): Result<nat> {
    if |data| < BANKS_HEADER + 4 || Long(data, 0) != MAGIC then Failed
    else
      var pointers := Long(data, BANKS_HEADER);
      if pointers < BANKS_HEADER + 4 || pointers + BANK_COUNT * 4 > |data| then Failed else Ok(pointers)
  }

  ghost function RoutesOf(data: seq<byte>): Result<seq<Route>> {
    var pointers := Pointers(data);
    if pointers.Ok? then Joined(BanksOf(data, pointers.value)) else Failed
  }

  lemma {:induction false} JoinedBroken(banks: seq<Result<seq<Route>>>, n: nat)
    requires n < |banks| && !banks[n].Ok?
    ensures Joined(banks) == Failed
  {
    if n > 0 {
      JoinedBroken(banks[1..], n - 1);
    }
  }

  lemma JoinedNext(banks: seq<Result<seq<Route>>>, routes: seq<Route>, n: nat)
    requires n < |banks| && banks[n].Ok?
    ensures Prepend(routes, Joined(banks[n..])) == Prepend(routes + banks[n].value, Joined(banks[n + 1..]))
  {
    assert banks[n..][0] == banks[n] && banks[n..][1..] == banks[n + 1..];
    PrependTwice(routes, banks[n].value, Joined(banks[n + 1..]));
  }

  method ParseRouteBanks(data: seq<byte>) returns (r: Result<seq<Route>>)
    ensures r == RoutesOf(data)
  {
    if |data| < BANKS_HEADER + 4 || Long(data, 0) != MAGIC {
      return Failed;
    }
    var pointers := Long(data, BANKS_HEADER);
    if pointers < BANKS_HEADER + 4 || pointers + BANK_COUNT * 4 > |data| {
      return Failed;
    }
    r := ParseAllBanks(data, pointers);
  }

  method ParseAllBanks(data: seq<byte>, pointers: nat) returns (r: Result<seq<Route>>)
    requires pointers + BANK_COUNT * 4 <= |data|
    ensures r == Joined(BanksOf(data, pointers))
  {
    var routes: seq<Route> := [];
    ghost var banks := BanksOf(data, pointers);
    PrependNone(Joined(banks));
    assert banks[0..] == banks;
    for star := 0 to BANK_COUNT
      invariant Joined(banks) == Prepend(routes, Joined(banks[star..]))
    {
      assert banks[star] == BankOf(data, pointers, star);
      var bank := ParseBankOf(data, pointers, star);
      if !bank.Ok? {
        JoinedBroken(banks, star);
        return Failed;
      }
      JoinedNext(banks, routes, star);
      routes := routes + bank.value;
    }
    assert routes + [] == routes;
    return Ok(routes);
  }

  method ParseBankOf(data: seq<byte>, pointers: nat, star: nat) returns (r: Result<seq<Route>>)
    requires pointers + BANK_COUNT * 4 <= |data| && star < BANK_COUNT
    ensures r == BankOf(data, pointers, star)
  {
    var table := Long(data, pointers + star * 4);
    if table < BANKS_HEADER + 4 || table + 16 > |data| {
      return Failed;
    }
    r := ParseBank(data, star, table);
    if r.Ok? && |r.value| == 0 {
      return Failed;
    }
  }

  // ------------------------------------------------------------------
  // What a bank's records are.

  /** The first n records of one table, in a file no smaller, stand as they are at another table. */
  ghost predicate Copied(data: seq<byte>, table: nat, data': seq<byte>, table': nat, n: nat) {
    |data| <= |data'| &&
    forall k :: 0 <= k < n ==>
                  && At(table, k) + RECORD_SIZE <= |data| && At(table', k) + RECORD_SIZE <= |data'|
                  && Record(data, table, k) == Record(data', table', k)
  }

  // ------------------------------------------------------------------
  // Adding a route to one bank.

  /** r after the last route of its star or a lower one. */
  function Inserted(routes: seq<Route>, r: Route): seq<Route> {
    if routes == [] || routes[0].star > r.star then [r] + routes else [routes[0]] + Inserted(routes[1..], r)
  }

  /** How many routes have the star. */
  function CountOf(routes: seq<Route>, star: nat): nat {
    if routes == [] then 0 else (if routes[0].star == star then 1 else 0) + CountOf(routes[1..], star)
  }

  lemma {:induction false} InsertedLater(a: seq<Route>, b: seq<Route>, r: Route)
    requires forall x :: x in a ==> x.star <= r.star
    ensures Inserted(a + b, r) == a + Inserted(b, r)
  {
    if a == [] {
      assert a + b == b;
    } else {
      assert a[0] in a && (a + b)[1..] == a[1..] + b;
      InsertedLater(a[1..], b, r);
    }
  }

  lemma {:induction false} CountJoined(a: seq<Route>, b: seq<Route>, star: nat)
    ensures CountOf(a + b, star) == CountOf(a, star) + CountOf(b, star)
  {
    if a == [] {
      assert a + b == b;
    } else {
      assert (a + b)[1..] == a[1..] + b;
      CountJoined(a[1..], b, star);
    }
  }

  lemma {:induction false} CountSame(a: seq<Route>, own: nat, star: nat)
    requires forall x :: x in a ==> x.star == own
    ensures CountOf(a, star) == if own == star then |a| else 0
  {
    if a != [] {
      assert a[0] in a;
      CountSame(a[1..], own, star);
    }
  }

  /** Bank k holds only routes of star first + k. */
  ghost predicate Starred(banks: seq<Result<seq<Route>>>, first: nat) {
    forall k, r :: 0 <= k < |banks| && banks[k].Ok? && r in banks[k].value ==> r.star == first + k
  }

  lemma {:induction false} JoinedAbove(banks: seq<Result<seq<Route>>>, first: nat, r: Route)
    requires Starred(banks, first) && Joined(banks).Ok? && r in Joined(banks).value
    ensures r.star >= first
  {
    if r !in banks[0].value {
      assert Starred(banks[1..], first + 1) by {
        assert forall k :: 0 <= k < |banks| - 1 ==> banks[1..][k] == banks[k + 1];
      }
      JoinedAbove(banks[1..], first + 1, r);
    }
  }

  /** A route appended to bank n is inserted in the joined list, behind the last one of its star. */
  lemma {:induction false} JoinedInserts(banks: seq<Result<seq<Route>>>, first: nat, n: nat, r: Route)
    requires Starred(banks, first) && Joined(banks).Ok? && n < |banks| && banks[n].Ok? && r.star == first + n
    ensures Joined(banks[n := Ok(banks[n].value + [r])]) == Ok(Inserted(Joined(banks).value, r))
    ensures CountOf(Joined(banks).value, r.star) == |banks[n].value|
    decreases n
  {
    var bank, rest := banks[0].value, Joined(banks[1..]).value;
    var banks' := banks[n := Ok(banks[n].value + [r])];
    InsertedLater(bank, rest, r);
    CountJoined(bank, rest, r.star);
    CountSame(bank, first, r.star);
    if n == 0 {
      forall x | x in rest
        ensures x.star > r.star
      {
        JoinedAbove(banks[1..], first + 1, x);
      }
      NoneCounted(rest, r.star);
      assert banks'[1..] == banks[1..];
      assert (bank + [r]) + rest == bank + ([r] + rest);
    } else {
      JoinedInserts(banks[1..], first + 1, n - 1, r);
      assert banks'[1..] == banks[1..][n - 1 := Ok(banks[n].value + [r])];
    }
  }

  lemma {:induction false} NoneCounted(routes: seq<Route>, star: nat)
    requires forall x :: x in routes ==> x.star > star
    ensures CountOf(routes, star) == 0
  {
    if routes != [] {
      assert routes[0] in routes;
      NoneCounted(routes[1..], star);
    }
  }
}
