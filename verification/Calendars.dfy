/** The exported calendar, said of its rows: their order, and the counts that bound it. */
module Calendars {
  import opened Catalogs
  import opened Publication
  import opened Schedules
  import opened Sorting
  import opened Texts

  /** Rows stand by start, and by quest number where they start together. */
  lemma CalendarSorted(c: Catalog, from: int, until: int, i: nat, j: nat)
    requires c.Valid() && Exportable(c, from, until) && i < j < |Calendar(c, from, until)|
    ensures var a, b := Calendar(c, from, until)[i], Calendar(c, from, until)[j];
            a.start < b.start || (a.start == b.start && a.questId < b.questId)
  {
    var rows, calendar := Expand(c, c.questIds, from, until).value.rows, Calendar(c, from, until);
    CalendarOrdered(c, from, until);
    SameElements(calendar, rows);
    var a, b := calendar[i], calendar[j];
    assert Catalogs.Before(a, b);
    if a.start == b.start && a.questId == b.questId {
      KeyUnique(c, from, until, a, b);
      TextIrreflexive(a.scheduleId);
    }
  }

  // ------------------------------------------------------------------
  // The elements nested in the rows.

  function ProfileElements(p: Profile): nat { 1 + |p.worlds| + |p.channels| }

  /** The requirements, the profiles, and their worlds and channels. */
  function RowElements(o: Occurrence): nat { |o.requirements| + Sum(o.profiles, ProfileElements) }

  lemma {:induction false} SumJoined<T>(a: seq<T>, b: seq<T>, cost: T -> nat)
    ensures Sum(a + b, cost) == Sum(a, cost) + Sum(b, cost)
    decreases |b|
  {
    if b == [] {
      assert a + b == a;
    } else {
      var init := b[..|b| - 1];
      assert (a + b)[..|a + b| - 1] == a + init;
      SumJoined(a, init, cost);
    }
  }

  lemma {:induction false} ProfilesSum(c: Catalog, ids: seq<string>, ps: seq<Profile>)
    requires |ps| == |ids| && forall i :: 0 <= i < |ids| ==> ids[i] in c.profiles && ps[i] == c.profiles[ids[i]]
    ensures (forall id :: id in ids ==> id in c.profiles) && ProfilesWeight(c, ids) == Sum(ps, ProfileElements)
    decreases |ids|
  {
    forall id | id in ids
      ensures id in c.profiles
    {
      var i :| 0 <= i < |ids| && ids[i] == id;
    }
    if ids != [] {
      ProfilesSum(c, ids[..|ids| - 1], ps[..|ps| - 1]);
    }
  }

  lemma RowWeight(c: Catalog, id: int, span: Interval)
    requires c.Valid() && id in c.quests && !c.quests[id].disabled
    ensures RowElements(RowOf(c, id, span)) == Weight(c, c.quests[id])
  {
    var q := c.quests[id];
    forall i | 0 <= i < |q.profiles|
      ensures q.profiles[i] in c.profiles
    {
      assert q.profiles[i] in q.profiles;
    }
    ProfilesSum(c, q.profiles, RowOf(c, id, span).profiles);
  }

  lemma {:induction false} RowsWeight(c: Catalog, id: int, spans: seq<Interval>)
    requires c.Valid() && id in c.quests && (c.quests[id].disabled ==> spans == [])
    ensures Sum(RowsOfQuest(c, id, spans), RowElements)
         == if c.quests[id].disabled then 0 else |spans| * Weight(c, c.quests[id])
    decreases |spans|
  {
    if spans != [] {
      var init, last := spans[..|spans| - 1], spans[|spans| - 1];
      RowsWeight(c, id, init);
      RowWeight(c, id, last);
      var rows := RowsOfQuest(c, id, init);
      assert (rows + [RowOf(c, id, last)])[..|rows|] == rows;
      OneMore(|init|, Weight(c, c.quests[id]));
    }
  }

  /** The elements that are charged are those nested in the rows. */
  lemma {:induction false} ElementsAre(c: Catalog, ids: seq<int>, from: int, until: int)
    requires c.Valid() && (forall id :: id in ids ==> id in c.quests) && Expand(c, ids, from, until).Ok?
    ensures var all := Expand(c, ids, from, until).value; all.elements == Sum(all.rows, RowElements)
    decreases |ids|
  {
    if ids != [] {
      var init, id := ids[..|ids| - 1], ids[|ids| - 1];
      ElementsAre(c, init, from, until);
      var before, spans := Expand(c, init, from, until).value, Spans(c, id, from, until).value;
      RowsWeight(c, id, spans);
      SumJoined(before.rows, RowsOfQuest(c, id, spans), RowElements);
    }
  }

  lemma {:induction false} ExpandSucceeds(c: Catalog, ids: seq<int>, from: int, until: int)
    requires c.Valid() && (forall id :: id in ids ==> id in c.quests)
    requires forall id :: id in ids ==> Spans(c, id, from, until).Ok?
    ensures Expand(c, ids, from, until).Ok?
    decreases |ids|
  {
    if ids != [] {
      assert ids[|ids| - 1] in ids;
      ExpandSucceeds(c, ids[..|ids| - 1], from, until);
    }
  }

  /** Every window of every enabled quest in the range can be listed. */
  predicate Listable(c: Catalog, from: int, until: int)
    requires c.Valid()
  {
    forall id :: id in c.quests && !c.quests[id].disabled ==> WindowsOf(c.schedules[c.quests[id].schedule], from, until).Ok?
  }

  /** All rows of the range, before they are sorted. */
  function AllRows(c: Catalog, from: int, until: int): seq<Occurrence>
    requires c.Valid() && Listable(c, from, until)
  {
    ExpandSucceeds(c, c.questIds, from, until);
    Expand(c, c.questIds, from, until).value.rows
  }

  /**
   * A calendar is exported exactly when its range is not empty and no longer than 366 days, all windows can be listed,
   * and there are no more than a hundred thousand rows and a million nested elements.
   */
  lemma ExportableIff(c: Catalog, from: int, until: int)
    requires c.Valid()
    ensures Exportable(c, from, until) <==>
            && from < until && until - from <= 366 * 24 * 3600 * 1_000_000_000 && Listable(c, from, until)
            && |AllRows(c, from, until)| <= 100_000
            && Sum(AllRows(c, from, until), RowElements) <= 1_000_000
  {
    var all := Expand(c, c.questIds, from, until);
    if Listable(c, from, until) {
      ExpandSucceeds(c, c.questIds, from, until);
    }
    if all.Ok? {
      ElementsAre(c, c.questIds, from, until);
      forall id | id in c.quests && !c.quests[id].disabled
        ensures WindowsOf(c.schedules[c.quests[id].schedule], from, until).Ok?
      {
        ExpandOk(c, c.questIds, from, until, id);
      }
    }
  }
}
