/**
 * The client's quest list: categories in ascending order of their upper bounds, each with an array of
 * record pointers; and the restoration of missing records in new categories.
 */
module QuestInfos {
  import opened Bytes
  import opened Layout
  import opened Sorting

  const HEAD := 0x88
  const INFO_MAGIC := 0x1a666e69
  const MAX_DATA := 0x800_0000
  const MAX_CATEGORIES := 1024
  const SLOTS := 100
  const ARRAY_SIZE := 400
  const RECORD_SIZE := 0x140
  const TEXTS := 0x28
  const ID_FIELD := 0x2e
  const TEXT_COUNT := 8

  datatype Category = Category(upper: nat, count: nat, ptr: nat)

  // ------------------------------------------------------------------
  // The list as the client reads it.

  predicate Inside(data: seq<byte>, p: nat, n: nat) {
    HEAD <= p && p + n <= |data|
  }

  function CategoryAt(data: seq<byte>, p: nat): Category
    requires p + 8 <= |data|
  {
    Category(Word(data, p), Word(data, p + 2), Long(data, p + 4))
  }

  predicate HeaderOk(data: seq<byte>) {
    && HEAD <= |data| <= MAX_DATA && Long(data, 0) == INFO_MAGIC && Long(data, 4) == 6 && Long(data, 12) == HEAD
  }

  predicate CategoryOk(data: seq<byte>, row: Category) {
    row.upper != 0 && (row.count > 0 ==> Inside(data, row.ptr, row.count * 4))
  }

  predicate AscendingUppers(rows: seq<Category>) {
    forall i :: 0 < i < |rows| ==> rows[i - 1].upper < rows[i].upper
  }

  /** The rows of a table of n categories. */
  function Rows(data: seq<byte>, table: nat, n: nat): seq<Category>
    requires table + n * 8 <= |data|
  {
    seq(n, i requires 0 <= i < n => CategoryAt(data, table + i * 8))
  }

  function Categories(data: seq<byte>): Result<seq<Category>> {
    if !HeaderOk(data) then Failed
    else
      var cp, table := Long(data, 16), Long(data, 20);
      if !Inside(data, cp, 2) then Failed
      else
        var n := Word(data, cp);
        if n == 0 || n > MAX_CATEGORIES || !Inside(data, table, (n + 1) * 8)
           || data[table + n * 8..table + (n + 1) * 8] != Zeros(8) then Failed
        else
          var rows := Rows(data, table, n);
          if (forall row :: row in rows ==> CategoryOk(data, row)) && AscendingUppers(rows) then Ok(rows) else Failed
  }

  method ReadCategories(data: seq<byte>) returns (r: Result<seq<Category>>)
    ensures r == Categories(data)
  {
    if !HeaderOk(data) {
      return Failed;
    }
    var cp, table := Long(data, 16), Long(data, 20);
    if !Inside(data, cp, 2) {
      return Failed;
    }
    var n := Word(data, cp);
    if n == 0 || n > MAX_CATEGORIES || !Inside(data, table, (n + 1) * 8)
       || data[table + n * 8..table + (n + 1) * 8] != Zeros(8) {
      return Failed;
    }
    r := ReadRows(data, table, n);
  }

  method ReadRows(data: seq<byte>, table: nat, n: nat) returns (r: Result<seq<Category>>)
    requires table + n * 8 <= |data|
    ensures var rows := Rows(data, table, n);
            r == if (forall row :: row in rows ==> CategoryOk(data, row)) && AscendingUppers(rows) then Ok(rows) else Failed
  {
    ghost var all := Rows(data, table, n);
    var rows: seq<Category> := [];
    for i := 0 to n
      invariant rows == all[..i] && AscendingUppers(rows)
      invariant forall k :: 0 <= k < i ==> CategoryOk(data, all[k])
    {
      var row := CategoryAt(data, table + i * 8);
      assert all[i] == row;
      if row.upper == 0 || (i > 0 && row.upper <= rows[i - 1].upper)
         || (row.count > 0 && !Inside(data, row.ptr, row.count * 4)) {
        assert !CategoryOk(data, all[i]) || !AscendingUppers(all);
        return Failed;
      }
      rows := rows + [row];
    }
    assert all[..n] == all;
    assert forall row :: row in all ==> CategoryOk(data, row);
    return Ok(rows);
  }

  /** The first category whose upper bound is not below the ID. */
  function First(rows: seq<Category>, id: nat): Result<Category> {
    if rows == [] then Failed else if rows[0].upper >= id then Ok(rows[0]) else First(rows[1..], id)
  }

  /** Where the record of the ID is. */
  function Find(data: seq<byte>, id: nat): Result<nat> {
    var rows := Categories(data);
    if !rows.Ok? || id == 0 || id >= 40000 then Failed
    else
      var row := First(rows.value, id);
      if row.Ok? then SlotOf(data, row.value, id) else Failed
  }

  function SlotOf(data: seq<byte>, row: Category, id: nat): Result<nat> {
    if id % SLOTS >= row.count || row.ptr + row.count * 4 > |data| then Failed
    else
      var p := Long(data, row.ptr + id % SLOTS * 4);
      if Inside(data, p, RECORD_SIZE) && Word(data, p + ID_FIELD) == id then Ok(p) else Failed
  }

  /** The record the client shows for an ID. */
  method ClientQuestRecord(data: seq<byte>, id: nat) returns (r: Result<seq<byte>>)
    ensures r == if Find(data, id).Ok? then Ok(data[Find(data, id).value..Find(data, id).value + RECORD_SIZE]) else Failed
  {
    var rows := ReadCategories(data);
    if !rows.Ok? {
      return Failed;
    }
    if id == 0 || id >= 40000 {
      return Failed;
    }
    assert rows.value[0..] == rows.value;
    for i := 0 to |rows.value|
      invariant First(rows.value, id) == First(rows.value[i..], id)
    {
      var row := rows.value[i];
      assert row in rows.value && rows.value[i..][0] == row && rows.value[i..][1..] == rows.value[i + 1..];
      if row.upper < id {
        continue;
      }
      var index := id % 100;
      if index >= row.count {
        return Failed;
      }
      var p := Long(data, row.ptr + index * 4);
      if p < HEAD || p + 0x140 > |data| || Word(data, p + 0x2e) != id {
        return Failed;
      }
      return Ok(data[p..p + 0x140]);
    }
    return Failed;
  }

  // ------------------------------------------------------------------
  // What the first category at or above an ID is.

  predicate UpperBelow(a: Category, b: Category) { a.upper < b.upper }

  lemma {:induction false} UppersAscend(rows: seq<Category>)
    requires AscendingUppers(rows)
    ensures Ascending(rows, UpperBelow)
  {
    if rows != [] {
      var init := rows[..|rows| - 1];
      UppersAscend(init);
      forall i, j | 0 <= i < j < |rows|
        ensures UpperBelow(rows[i], rows[j])
      {
        if j == |rows| - 1 {
          assert rows[j - 1].upper < rows[j].upper;
          assert i < j - 1 ==> UpperBelow(init[i], init[j - 1]);
        } else {
          assert UpperBelow(init[i], init[j]);
        }
      }
    }
  }

  /** row is the least category at or above the ID. */
  ghost predicate Least(rows: seq<Category>, id: nat, row: Category) {
    row in rows && row.upper >= id && forall other :: other in rows && other.upper >= id ==> other.upper >= row.upper
  }

  lemma {:induction false} FirstIsLeast(rows: seq<Category>, id: nat, row: Category)
    requires Ascending(rows, UpperBelow)
    ensures First(rows, id) == Ok(row) <==> Least(rows, id, row)
  {
    if rows != [] {
      var rest := rows[1..];
      FirstIsLeast(rest, id, row);
      assert rows == [rows[0]] + rest && rows[0] in rows;
      forall other | other in rest
        ensures rows[0].upper < other.upper
      {
        var i :| 0 <= i < |rest| && rest[i] == other;
        assert UpperBelow(rows[0], rows[i + 1]);
      }
    }
  }

  lemma {:induction false} FirstExists(rows: seq<Category>, id: nat)
    ensures First(rows, id).Ok? <==> exists row :: row in rows && row.upper >= id
  {
    if rows != [] {
      FirstExists(rows[1..], id);
      assert rows == [rows[0]] + rows[1..] && rows[0] in rows;
    }
  }

  /** Merging new categories in changes the answer for an ID only if one of them lies below the old answer. */
  lemma FirstMerged(before: seq<Category>, merged: seq<Category>, id: nat, row: Category)
    requires Ascending(before, UpperBelow) && Ascending(merged, UpperBelow) && First(before, id) == Ok(row)
    requires forall x :: x in before ==> x in merged
    ensures First(merged, id) == Ok(row) <==> !(exists x :: x in merged && x !in before && id <= x.upper < row.upper)
  {
    FirstIsLeast(before, id, row);
    FirstIsLeast(merged, id, row);
    forall x | x in merged && x !in before && x.upper == row.upper
      ensures false
    {
      SameUpper(merged, x, row);
    }
  }

  lemma SameUpper(rows: seq<Category>, a: Category, b: Category)
    requires Ascending(rows, UpperBelow) && a in rows && b in rows && a.upper == b.upper
    ensures a == b
  {
    var i :| 0 <= i < |rows| && rows[i] == a;
    var j :| 0 <= j < |rows| && rows[j] == b;
    assert i == j;
  }

  // ------------------------------------------------------------------
  // The list, said of its words.

  /** The header, and a table of n categories with eight zero bytes behind it: bounds rise from one on, arrays lie inside. */
  ghost predicate ListStands(data: seq<byte>, n: nat, table: nat) {
    && 0x88 <= |data| <= 0x800_0000 && Long(data, 0) == 0x1a666e69 && Long(data, 4) == 6 && Long(data, 12) == 0x88
    && 0x88 <= Long(data, 16) && Long(data, 16) + 2 <= |data| && n == Word(data, Long(data, 16)) && 1 <= n <= 1024
    && table == Long(data, 20) && 0x88 <= table && table + n * 8 + 8 <= |data|
    && (forall i :: table + n * 8 <= i < table + n * 8 + 8 ==> data[i] == 0)
    && (forall i :: 0 <= i < n ==> RowStands(data, table, i))
  }

  predicate RowStands(data: seq<byte>, table: nat, i: nat)
    requires table + i * 8 + 8 <= |data|
  {
    var at := table + i * 8;
    && 0 < Word(data, at) && (i > 0 ==> Word(data, at - 8) < Word(data, at))
    && (Word(data, at + 2) > 0 ==> 0x88 <= Long(data, at + 4) && Long(data, at + 4) + 4 * Word(data, at + 2) <= |data|)
  }

  lemma CategoriesIff(data: seq<byte>, rows: seq<Category>)
    ensures Categories(data) == Ok(rows) <==>
            exists table :: ListStands(data, |rows|, table) && rows == Rows(data, table, |rows|)
  {
    if HeaderOk(data) && Inside(data, Long(data, 16), 2) {
      var n, table := Word(data, Long(data, 16)), Long(data, 20);
      if 0 < n <= MAX_CATEGORIES && Inside(data, table, (n + 1) * 8) {
        ZeroRow(data, table + n * 8);
        RowsStand(data, table, n);
      }
    }
  }

  lemma ZeroRow(data: seq<byte>, p: nat)
    requires p + 8 <= |data|
    ensures data[p..p + 8] == Zeros(8) <==> forall i :: p <= i < p + 8 ==> data[i] == 0
  {
    if data[p..p + 8] == Zeros(8) {
      forall i | p <= i < p + 8
        ensures data[i] == 0
      {
        assert data[i] == data[p..p + 8][i - p];
      }
    }
  }

  predicate RowGood(data: seq<byte>, rows: seq<Category>, i: nat)
    requires i < |rows|
  {
    CategoryOk(data, rows[i]) && (i > 0 ==> rows[i - 1].upper < rows[i].upper)
  }

  lemma RowGoodIff(data: seq<byte>, table: nat, n: nat, i: nat)
    requires table + n * 8 <= |data| && i < n
    ensures RowStands(data, table, i) <==> RowGood(data, Rows(data, table, n), i)
  {
    assert i > 0 ==> table + i * 8 - 8 == table + (i - 1) * 8;
  }

  lemma AllGood(data: seq<byte>, rows: seq<Category>)
    ensures (forall row :: row in rows ==> CategoryOk(data, row)) && AscendingUppers(rows)
            <==> forall i :: 0 <= i < |rows| ==> RowGood(data, rows, i)
  {
    if forall i :: 0 <= i < |rows| ==> RowGood(data, rows, i) {
      forall i | 0 <= i < |rows|
        ensures CategoryOk(data, rows[i]) && (i > 0 ==> rows[i - 1].upper < rows[i].upper)
      {
        assert RowGood(data, rows, i);
      }
    }
  }

  lemma RowsStand(data: seq<byte>, table: nat, n: nat)
    requires table + n * 8 <= |data|
    ensures var rows := Rows(data, table, n);
            (forall row :: row in rows ==> CategoryOk(data, row)) && AscendingUppers(rows)
            <==> forall i :: 0 <= i < n ==> RowStands(data, table, i)
  {
    AllGood(data, Rows(data, table, n));
    forall i | 0 <= i < n
      ensures RowStands(data, table, i) <==> RowGood(data, Rows(data, table, n), i)
    {
      RowGoodIff(data, table, n, i);
    }
  }

  /** Category i of the table is the first whose bound is not below the ID, and slot id % 100 of its array leads to p. */
  predicate LeadsBy(data: seq<byte>, table: nat, i: nat, id: nat, p: nat)
    requires table + i * 8 + 8 <= |data|
  {
    var at := table + i * 8;
    && Word(data, at) >= id && (i > 0 ==> Word(data, at - 8) < id)
    && id % 100 < Word(data, at + 2) && Long(data, at + 4) + 4 * Word(data, at + 2) <= |data|
    && p == Long(data, Long(data, at + 4) + 4 * (id % 100))
  }

  /** The first category at or above an ID, by its place. */
  lemma FirstPlace(rows: seq<Category>, id: nat, i: nat)
    requires AscendingUppers(rows) && i < |rows|
    ensures First(rows, id) == Ok(rows[i]) <==> rows[i].upper >= id && (i > 0 ==> rows[i - 1].upper < id)
  {
    UppersAscend(rows);
    FirstIsLeast(rows, id, rows[i]);
    if rows[i].upper >= id && (i > 0 ==> rows[i - 1].upper < id) {
      forall other | other in rows && other.upper >= id
        ensures other.upper >= rows[i].upper
      {
        var j :| 0 <= j < |rows| && rows[j] == other;
        assert j < i - 1 ==> UpperBelow(rows[j], rows[i - 1]);
        assert i < j ==> UpperBelow(rows[i], rows[j]);
      }
    }
    if i > 0 {
      assert UpperBelow(rows[i - 1], rows[i]);
    }
  }

  lemma PlaceOf(rows: seq<Category>, id: nat) returns (i: nat)
    requires AscendingUppers(rows) && First(rows, id).Ok?
    ensures i < |rows| && First(rows, id) == Ok(rows[i])
  {
    var row := First(rows, id).value;
    UppersAscend(rows);
    FirstIsLeast(rows, id, row);
    i :| 0 <= i < |rows| && rows[i] == row;
  }

  lemma PlaceLeads(data: seq<byte>, table: nat, i: nat, row: Category, id: nat, p: nat)
    requires table + i * 8 + 8 <= |data| && row == CategoryAt(data, table + i * 8)
    requires row.upper >= id && (i > 0 ==> Word(data, table + i * 8 - 8) < id)
    ensures SlotOf(data, row, id) == Ok(p) <==> LeadsBy(data, table, i, id, p) && RecordStands(data, id, p)
  {
    assert row.ptr + id % SLOTS * 4 == Long(data, table + i * 8 + 4) + 4 * (id % 100);
  }

  /** A record at p carries the ID. */
  predicate RecordStands(data: seq<byte>, id: nat, p: nat) {
    0x88 <= p && p + 0x140 <= |data| && Word(data, p + 0x2e) == id
  }

  /** The table's rows, when it stands. */
  lemma ListRows(data: seq<byte>, n: nat, table: nat) returns (rows: seq<Category>)
    requires ListStands(data, n, table)
    ensures rows == Rows(data, table, n) && Categories(data) == Ok(rows) && AscendingUppers(rows)
  {
    rows := Rows(data, table, n);
    CategoriesIff(data, rows);
    RowsStand(data, table, n);
  }

  lemma PlaceFirst(data: seq<byte>, n: nat, table: nat, rows: seq<Category>, i: nat, id: nat)
    requires table + n * 8 <= |data| && rows == Rows(data, table, n) && AscendingUppers(rows) && i < n
    ensures First(rows, id) == Ok(rows[i]) <==>
            Word(data, table + i * 8) >= id && (i > 0 ==> Word(data, table + i * 8 - 8) < id)
  {
    FirstPlace(rows, id, i);
    assert i > 0 ==> table + i * 8 - 8 == table + (i - 1) * 8;
  }

  lemma FindLeads(data: seq<byte>, n: nat, table: nat, rows: seq<Category>, id: nat, p: nat) returns (i: nat)
    requires table + n * 8 <= |data| && rows == Rows(data, table, n) && AscendingUppers(rows) && Categories(data) == Ok(rows)
    requires Find(data, id) == Ok(p)
    ensures 1 <= id < 40000 && RecordStands(data, id, p) && i < n && LeadsBy(data, table, i, id, p)
  {
    i := PlaceOf(rows, id);
    PlaceFirst(data, n, table, rows, i, id);
    PlaceLeads(data, table, i, rows[i], id, p);
  }

  lemma LeadsFind(data: seq<byte>, n: nat, table: nat, rows: seq<Category>, id: nat, p: nat, i: nat)
    requires table + n * 8 <= |data| && rows == Rows(data, table, n) && AscendingUppers(rows) && Categories(data) == Ok(rows)
    requires 1 <= id < 40000 && RecordStands(data, id, p) && i < n && LeadsBy(data, table, i, id, p)
    ensures Find(data, id) == Ok(p)
  {
    PlaceFirst(data, n, table, rows, i, id);
    PlaceLeads(data, table, i, rows[i], id, p);
  }

  /** A quest is found exactly where its category's slot leads to a record that carries its ID. */
  lemma FindIff(data: seq<byte>, id: nat, p: nat)
    ensures Find(data, id) == Ok(p) <==>
            && 1 <= id < 40000 && RecordStands(data, id, p)
            && exists n, table, i: nat :: ListStands(data, n, table) && i < n && LeadsBy(data, table, i, id, p)
  {
    if Find(data, id) == Ok(p) {
      var rows := Categories(data).value;
      CategoriesIff(data, rows);
      var table :| ListStands(data, |rows|, table) && rows == Rows(data, table, |rows|);
      var i := FindLeads(data, |rows|, table, rows, id, p);
    }
    if n, table, i: nat :| ListStands(data, n, table) && i < n && LeadsBy(data, table, i, id, p) && 1 <= id < 40000 && RecordStands(data, id, p) {
      var rows := ListRows(data, n, table);
      LeadsFind(data, n, table, rows, id, p, i);
    }
  }
}
