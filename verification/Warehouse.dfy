/**
 * The warehouse box: merging a client's update into it with maps, against the nested loop that the merge
 * stands for; and the stored form of a box. Random numbers are given in advance, as the list of draws that
 * a search for a fresh ID goes through, or as a function.
 */
module Warehouse {
  import opened Bytes
  import opened ByteFrame
  import Layout
  import opened Sorting

  datatype Stack = Stack(id: nat, item: nat, quantity: nat, unk0: nat)
  {
    ghost predicate Fits() { id < Pow256(4) && item < Pow256(2) && quantity < Pow256(2) && unk0 < Pow256(4) }
  }

  // ------------------------------------------------------------------
  // Fresh IDs.

  /** The first draw that is neither zero nor used, and the draws after it. */
  datatype Drawn = Exhausted | Drawn(id: nat, rest: seq<nat>)

  function Draw(draws: seq<nat>, used: set<nat>): Drawn {
    if draws == [] then Exhausted
    else if draws[0] == 0 || draws[0] in used then Draw(draws[1..], used)
    else Drawn(draws[0], draws[1..])
  }

  lemma {:induction false} DrawFresh(draws: seq<nat>, used: set<nat>)
    ensures Draw(draws, used).Drawn? ==> Draw(draws, used).id != 0 && Draw(draws, used).id !in used
    ensures Draw(draws, used).Exhausted? <==> forall d :: d in draws ==> d == 0 || d in used
  {
    if draws != [] {
      DrawFresh(draws[1..], used);
      assert draws == [draws[0]] + draws[1..] && draws[0] in draws;
    }
  }

  /** It is the first such draw, and what is left is what comes behind it. */
  lemma {:induction false} DrawFirst(draws: seq<nat>, used: set<nat>) returns (k: nat)
    requires Draw(draws, used).Drawn?
    ensures k < |draws| && Draw(draws, used) == Drawn(draws[k], draws[k + 1..])
    ensures draws[k] != 0 && draws[k] !in used && forall j :: 0 <= j < k ==> draws[j] == 0 || draws[j] in used
  {
    if draws[0] != 0 && draws[0] !in used {
      k := 0;
    } else {
      var rest := DrawFirst(draws[1..], used);
      k := rest + 1;
      forall j | 0 <= j < k
        ensures draws[j] == 0 || draws[j] in used
      {
        assert j > 0 ==> draws[j] == draws[1..][j - 1];
      }
    }
  }

  /** The search goes on with whatever is drawn next, and what is drawn after its end does not matter. */
  lemma {:induction false} DrawGoesOn(draws: seq<nat>, more: seq<nat>, used: set<nat>)
    ensures var d := Draw(draws, used);
            Draw(draws + more, used) == if d.Exhausted? then Draw(more, used) else Drawn(d.id, d.rest + more)
  {
    if draws == [] {
      assert draws + more == more;
    } else {
      assert (draws + more)[1..] == draws[1..] + more;
      if draws[0] == 0 || draws[0] in used {
        DrawGoesOn(draws[1..], more, used);
      }
    }
  }

  method NewWarehouseId(used: set<nat>, draws: seq<nat>) returns (r: Drawn, used': set<nat>)
    ensures r == Draw(draws, used)
    ensures used' == if r.Drawn? then used + {r.id} else used
  {
    assert draws[0..] == draws;
    for i := 0 to |draws|
      invariant Draw(draws, used) == Draw(draws[i..], used)
    {
      var id := draws[i];
      assert draws[i..][0] == id && draws[i..][1..] == draws[i + 1..];
      if id == 0 {
        continue;
      }
      if id in used {
        continue;
      }
      return Drawn(id, draws[i + 1..]), used + {id};
    }
    return Exhausted, used;
  }

  // ------------------------------------------------------------------
  // The merge as a nested loop: every update runs over the whole box.

  function Ids(stacks: seq<Stack>): set<nat> { set i | 0 <= i < |stacks| :: stacks[i].id }

  /** The update's quantity on every stack with its ID. */
  function Applied(box: seq<Stack>, u: Stack): (r: seq<Stack>)
    ensures |r| == |box|
  {
    seq(|box|, i requires 0 <= i < |box| => if box[i].id == u.id then box[i].(quantity := u.quantity) else box[i])
  }

  /** The box, the deposits so far, the IDs in use and the draws left. */
  datatype Progress = Progress(box: seq<Stack>, deposits: seq<Stack>, used: set<nat>, draws: seq<nat>) | Starved

  function Update(p: Progress, u: Stack): Progress {
    if p.Starved? then p
    else if u.id in Ids(p.box) then p.(box := Applied(p.box, u))
    else if u.quantity == 0 then p
    else
      var d := Draw(p.draws, p.used);
      if d.Exhausted? then Starved
      else Progress(p.box, p.deposits + [u.(id := d.id)], p.used + {d.id}, d.rest)
  }

  function Updates(p: Progress, us: seq<Stack>): Progress {
    if us == [] then p else Update(Updates(p, us[..|us| - 1]), us[|us| - 1])
  }

  /** The stacks that hold something. */
  function Kept(box: seq<Stack>): seq<Stack> {
    if box == [] then []
    else Kept(box[..|box| - 1]) + if box[|box| - 1].quantity > 0 then [box[|box| - 1]] else []
  }

  function Start(box: seq<Stack>, draws: seq<nat>): Progress { Progress(box, [], Ids(box), draws) }

  /** Deposits first, then what is left of the old stacks. */
  datatype Merge = Unfinished | Merged(stacks: seq<Stack>, box: seq<Stack>, draws: seq<nat>)

  function NestedMerge(box: seq<Stack>, us: seq<Stack>, draws: seq<nat>): Merge {
    var p := Updates(Start(box, draws), us);
    if p.Starved? then Unfinished else Merged(p.deposits + Kept(p.box), p.box, p.draws)
  }

  /** A merge that has all the draws it needs does not depend on the others. */
  lemma {:induction false} UpdatesGoOn(box: seq<Stack>, us: seq<Stack>, draws: seq<nat>, more: seq<nat>)
    requires !Updates(Start(box, draws), us).Starved?
    ensures var p := Updates(Start(box, draws), us);
            Updates(Start(box, draws + more), us) == p.(draws := p.draws + more)
  {
    if us != [] {
      var before, u := Updates(Start(box, draws), us[..|us| - 1]), us[|us| - 1];
      UpdatesGoOn(box, us[..|us| - 1], draws, more);
      DrawGoesOn(before.draws, more, before.used);
    }
  }

  lemma MergeGoesOn(box: seq<Stack>, us: seq<Stack>, draws: seq<nat>, more: seq<nat>)
    requires NestedMerge(box, us, draws).Merged?
    ensures var m := NestedMerge(box, us, draws);
            NestedMerge(box, us, draws + more) == m.(draws := m.draws + more)
  {
    UpdatesGoOn(box, us, draws, more);
  }

  // ------------------------------------------------------------------
  // The merge with maps: quantities are recorded, and written to the box once.

  /** The box with the recorded quantities. */
  function Written(box: seq<Stack>, quantities: map<nat, nat>): (r: seq<Stack>)
    ensures |r| == |box|
  {
    seq(|box|, i requires 0 <= i < |box| =>
      if box[i].id in quantities then box[i].(quantity := quantities[box[i].id]) else box[i])
  }

  lemma WrittenIds(box: seq<Stack>, quantities: map<nat, nat>)
    ensures Ids(Written(box, quantities)) == Ids(box)
  {
    assert forall i :: 0 <= i < |box| ==> Written(box, quantities)[i].id == box[i].id;
  }

  /** Recording an update and applying it to the box are the same. */
  lemma WrittenNext(box: seq<Stack>, quantities: map<nat, nat>, u: Stack)
    ensures Written(box, quantities[u.id := u.quantity]) == Applied(Written(box, quantities), u)
  {
  }

  /**
   * The merge with maps gives the nested loop's result, with the same draws, and leaves the same quantities in
   * the caller's box.
   */
  method DiffItemStacks(o: array<Stack>, u: seq<Stack>, draws: seq<nat>) returns (r: Merge)
    modifies o
    ensures r == NestedMerge(old(o[..]), u, draws)
    ensures r.Merged? ==> o[..] == r.box
  {
    ghost var box := o[..];
    var existing := ExistingIds(o);
    var ok, f, quantities, left := TakeUpdates(box, existing, u, draws);
    if !ok {
      return Unfinished;
    }
    f := WriteBack(o, quantities, f);
    r := Merged(f, o[..], left);
  }

  method ExistingIds(o: array<Stack>) returns (existing: set<nat>)
    ensures existing == Ids(o[..])
  {
    existing := {};
    for i := 0 to o.Length
      invariant existing == Ids(o[..i])
    {
      existing := existing + {o[i].id};
      IdsNext(o[..], i);
      assert o[..][..i] == o[..i] && o[..][..i + 1] == o[..i + 1];
    }
    assert o[..o.Length] == o[..];
  }

  /** The deposits, and the quantities to be written to the box. */
  method TakeUpdates(ghost box: seq<Stack>, existing: set<nat>, u: seq<Stack>, draws: seq<nat>)
      returns (ok: bool, f: seq<Stack>, quantities: map<nat, nat>, left: seq<nat>)
    requires existing == Ids(box)
    ensures ok <==> !Updates(Start(box, draws), u).Starved?
    ensures ok ==> exists used :: Updates(Start(box, draws), u) == Progress(Written(box, quantities), f, used, left)
  {
    var used := existing;
    left, quantities, f := draws, map[], [];
    assert Written(box, quantities) == box;
    for n := 0 to |u|
      invariant Updates(Start(box, draws), u[..n]) == Progress(Written(box, quantities), f, used, left)
    {
      var x := u[n];
      assert u[..n + 1][..n] == u[..n];
      WrittenIds(box, quantities);
      if x.id in existing {
        WrittenNext(box, quantities, x);
        quantities := quantities[x.id := x.quantity];
        continue;
      }
      if x.quantity == 0 {
        continue;
      }
      var d;
      d, used := NewWarehouseId(used, left);
      if d.Exhausted? {
        StarvedStays(Start(box, draws), u, n + 1);
        return false, f, quantities, left;
      }
      left := d.rest;
      f := f + [x.(id := d.id)];
    }
    assert u[..|u|] == u;
    ok := true;
  }

  /** Writes the quantities, and appends what is left of the box. */
  method WriteBack(o: array<Stack>, quantities: map<nat, nat>, deposits: seq<Stack>) returns (f: seq<Stack>)
    modifies o
    ensures o[..] == Written(old(o[..]), quantities) && f == deposits + Kept(o[..])
  {
    ghost var box, final := o[..], Written(o[..], quantities);
    f := deposits;
    assert final[..0] == [] && deposits + [] == deposits;
    for i := 0 to o.Length
      invariant forall j :: 0 <= j < i ==> o[j] == final[j]
      invariant forall j :: i <= j < o.Length ==> o[j] == box[j]
      invariant f == deposits + Kept(final[..i])
    {
      if o[i].id in quantities {
        o[i] := o[i].(quantity := quantities[o[i].id]);
      }
      assert final[..i + 1][..i] == final[..i] && o[i] == final[i];
      if o[i].quantity > 0 {
        f := f + [o[i]];
      }
    }
    assert o[..] == final && final[..|final|] == final;
  }

  lemma IdsNext(box: seq<Stack>, n: nat)
    requires n < |box|
    ensures Ids(box[..n + 1]) == Ids(box[..n]) + {box[n].id}
  {
    assert forall i :: 0 <= i < n ==> box[..n + 1][i] == box[..n][i];
    assert box[..n + 1][n] == box[n];
  }

  lemma {:induction false} StarvedStays(p: Progress, us: seq<Stack>, n: nat)
    requires n <= |us| && Updates(p, us[..n]).Starved?
    ensures Updates(p, us).Starved?
  {
    if n == |us| {
      assert us[..n] == us;
    } else {
      assert us[..|us| - 1][..n] == us[..n];
      StarvedStays(p, us[..|us| - 1], n);
    }
  }

  // ------------------------------------------------------------------
  // What a merge gives.

  /** The quantity after the updates: the last one for the ID. */
  function LastQuantity(us: seq<Stack>, id: nat, quantity: nat): nat {
    if us == [] then quantity
    else
      var u := us[|us| - 1];
      if u.id == id then u.quantity else LastQuantity(us[..|us| - 1], id, quantity)
  }

  /** Old stacks keep their place, ID and item, and carry the last update for their ID. */
  lemma {:induction false} OldStacks(box: seq<Stack>, us: seq<Stack>, draws: seq<nat>, i: nat)
    requires i < |box| && !Updates(Start(box, draws), us).Starved?
    ensures |Updates(Start(box, draws), us).box| == |box|
    ensures Updates(Start(box, draws), us).box[i] == box[i].(quantity := LastQuantity(us, box[i].id, box[i].quantity))
    ensures Ids(Updates(Start(box, draws), us).box) == Ids(box)
  {
    if us != [] {
      var before, u := Updates(Start(box, draws), us[..|us| - 1]), us[|us| - 1];
      OldStacks(box, us[..|us| - 1], draws, i);
      AppliedIds(before.box, u);
      assert box[i].id in Ids(box);
    }
  }

  lemma AppliedIds(box: seq<Stack>, u: Stack)
    ensures Ids(Applied(box, u)) == Ids(box)
  {
    assert forall i :: 0 <= i < |box| ==> Applied(box, u)[i].id == box[i].id;
  }

  predicate IdsApart(stacks: seq<Stack>) {
    forall i, j :: 0 <= i < j < |stacks| ==> stacks[i].id != stacks[j].id
  }

  predicate Filled(stacks: seq<Stack>) {
    forall s :: s in stacks ==> s.quantity > 0
  }

  /** Deposits carry fresh IDs: nonzero, apart from each other and from the box. */
  ghost predicate DepositsFresh(p: Progress, box: seq<Stack>) {
    p.Progress? ==>
      && IdsApart(p.deposits) && Filled(p.deposits) && Ids(p.box) == Ids(box) && p.used == Ids(box) + Ids(p.deposits)
      && forall s :: s in p.deposits ==> s.id != 0 && s.id !in Ids(box)
  }

  lemma {:induction false} UpdatesFresh(box: seq<Stack>, us: seq<Stack>, draws: seq<nat>)
    ensures DepositsFresh(Updates(Start(box, draws), us), box)
  {
    if us != [] {
      var before, u := Updates(Start(box, draws), us[..|us| - 1]), us[|us| - 1];
      UpdatesFresh(box, us[..|us| - 1], draws);
      if before.Progress? {
        AppliedIds(before.box, u);
        DrawFresh(before.draws, before.used);
        var d := Draw(before.draws, before.used);
        if d.Drawn? {
          DepositAdded(before.deposits, u.(id := d.id));
        }
      }
    }
  }

  lemma DepositAdded(deposits: seq<Stack>, s: Stack)
    ensures Ids(deposits + [s]) == Ids(deposits) + {s.id}
    ensures IdsApart(deposits) && s.id !in Ids(deposits) ==> IdsApart(deposits + [s])
  {
    var all := deposits + [s];
    assert forall i :: 0 <= i < |deposits| ==> all[i] == deposits[i];
    assert all[|deposits|] == s;
  }

  lemma {:induction false} KeptFrom(box: seq<Stack>)
    ensures Filled(Kept(box)) && forall s :: s in Kept(box) ==> s in box
    ensures IdsApart(box) ==> IdsApart(Kept(box))
  {
    if box != [] {
      var init, last := box[..|box| - 1], box[|box| - 1];
      KeptFrom(init);
      assert box == init + [last];
      if IdsApart(box) {
        forall s | s in Kept(init)
          ensures s.id != last.id
        {
          var i :| 0 <= i < |init| && init[i] == s;
          assert box[i].id != box[|init|].id;
        }
      }
    }
  }

  /** A box as the server keeps it. */
  ghost predicate BoxOk(stacks: seq<Stack>) {
    IdsApart(stacks) && forall s :: s in stacks ==> s.id != 0
  }

  lemma ApartJoined(a: seq<Stack>, b: seq<Stack>)
    requires IdsApart(a) && IdsApart(b) && forall x, y :: x in a && y in b ==> x.id != y.id
    ensures IdsApart(a + b)
  {
    forall i, j | 0 <= i < j < |a + b|
      ensures (a + b)[i].id != (a + b)[j].id
    {
      if i < |a| <= j {
        assert a[i] in a && b[j - |a|] in b;
      }
    }
  }

  /** A merge keeps IDs apart and nonzero, and leaves no empty stack. */
  lemma MergeKeeps(box: seq<Stack>, us: seq<Stack>, draws: seq<nat>)
    requires BoxOk(box) && NestedMerge(box, us, draws).Merged?
    ensures BoxOk(NestedMerge(box, us, draws).stacks) && Filled(NestedMerge(box, us, draws).stacks)
  {
    var p := Updates(Start(box, draws), us);
    UpdatesFresh(box, us, draws);
    SameApart(box, us, draws);
    KeptFrom(p.box);
    forall x, y | x in p.deposits && y in Kept(p.box)
      ensures x.id != y.id
    {
      var i :| 0 <= i < |p.box| && p.box[i] == y;
      assert y.id in Ids(p.box);
    }
    ApartJoined(p.deposits, Kept(p.box));
  }

  lemma SameApart(box: seq<Stack>, us: seq<Stack>, draws: seq<nat>)
    requires BoxOk(box) && Updates(Start(box, draws), us).Progress?
    ensures BoxOk(Updates(Start(box, draws), us).box)
  {
    var after := Updates(Start(box, draws), us).box;
    if box != [] {
      OldStacks(box, us, draws, 0);
    } else {
      EmptyStays(us, draws);
    }
    forall i | 0 <= i < |after|
      ensures after[i].id == box[i].id
    {
      OldStacks(box, us, draws, i);
    }
    forall s | s in after
      ensures s.id != 0
    {
      var i :| 0 <= i < |after| && after[i] == s;
      assert box[i] in box;
    }
  }

  lemma {:induction false} EmptyStays(us: seq<Stack>, draws: seq<nat>)
    requires Updates(Start([], draws), us).Progress?
    ensures Updates(Start([], draws), us).box == []
  {
    if us != [] {
      EmptyStays(us[..|us| - 1], draws);
    }
  }

  /** The positions of s whose elements satisfy p, each once and in ascending order. */
  ghost predicate Selects<T>(at: seq<nat>, s: seq<T>, p: T -> bool) {
    && (forall k, m :: 0 <= k < m < |at| ==> at[k] < at[m])
    && forall i: nat :: i in at <==> i < |s| && p(s[i])
  }

  lemma SelectsNext<T>(at: seq<nat>, init: seq<T>, last: T, p: T -> bool)
    requires Selects(at, init, p)
    ensures Selects(if p(last) then at + [|init|] else at, init + [last], p)
  {
    forall k | 0 <= k < |at|
      ensures at[k] < |init|
    {
      assert at[k] in at;
    }
  }

  predicate Something(s: Stack) { s.quantity > 0 }

  /** A place is given the update's quantity if it is the last one for its ID, and else its own. */
  lemma {:induction false} LastQuantityIs(us: seq<Stack>, id: nat, quantity: nat)
    ensures (forall u :: u in us ==> u.id != id) ==> LastQuantity(us, id, quantity) == quantity
    ensures forall j :: 0 <= j < |us| && us[j].id == id && (forall k :: j < k < |us| ==> us[k].id != id) ==>
                          LastQuantity(us, id, quantity) == us[j].quantity
  {
    if us != [] {
      LastQuantityIs(us[..|us| - 1], id, quantity);
      assert us[|us| - 1] in us && forall u :: u in us[..|us| - 1] ==> u in us;
    }
  }

  /** An update that is a deposit: of something, under an ID that the box does not have. */
  function Deposits(box: seq<Stack>): Stack -> bool {
    (u: Stack) => u.quantity > 0 && u.id !in Ids(box)
  }

  /** An old stack that holds something after the last update for its ID. */
  function Remains(us: seq<Stack>): Stack -> bool {
    (s: Stack) => LastQuantity(us, s.id, s.quantity) > 0
  }

  /** r consists of the elements at these positions. */
  predicate Picks<T(==)>(r: seq<T>, s: seq<T>, at: seq<nat>) {
    |r| == |at| && forall k :: 0 <= k < |at| ==> at[k] < |s| && r[k] == s[at[k]]
  }

  lemma PicksNext<T>(r: seq<T>, init: seq<T>, last: T, at: seq<nat>)
    requires Picks(r, init, at)
    ensures Picks(r, init + [last], at) && Picks(r + [last], init + [last], at + [|init|])
  {
  }

  lemma {:induction false} KeptAre(box: seq<Stack>) returns (at: seq<nat>)
    ensures Selects(at, box, Something) && Picks(Kept(box), box, at)
  {
    if box == [] {
      at := [];
    } else {
      var init, last := box[..|box| - 1], box[|box| - 1];
      assert box == init + [last];
      at := KeptAre(init);
      at := OneMore(at, init, last, Something, Kept(init));
    }
  }

  /** One element more is selected or not, and picked if it is. */
  lemma OneMore<T>(at: seq<nat>, init: seq<T>, last: T, p: T -> bool, r: seq<T>) returns (next: seq<nat>)
    requires Selects(at, init, p) && Picks(r, init, at)
    ensures Selects(next, init + [last], p) && Picks(if p(last) then r + [last] else r, init + [last], next)
  {
    SelectsNext(at, init, last, p);
    PicksNext(r, init, last, at);
    next := if p(last) then at + [|init|] else at;
  }

  /** r consists of copies, under new IDs, of the stacks at these positions. */
  predicate Copies(r: seq<Stack>, s: seq<Stack>, at: seq<nat>) {
    |r| == |at| && forall k :: 0 <= k < |at| ==> at[k] < |s| && r[k] == s[at[k]].(id := r[k].id)
  }

  lemma CopiesNext(r: seq<Stack>, init: seq<Stack>, last: Stack, at: seq<nat>, d: Drawn)
    requires Copies(r, init, at)
    ensures Copies(r, init + [last], at)
    ensures d.Drawn? ==> Copies(r + [last.(id := d.id)], init + [last], at + [|init|])
  {
  }

  /** The deposits so far are those of the updates so far, but for their IDs. */
  lemma {:induction false} DepositsAre(box: seq<Stack>, us: seq<Stack>, draws: seq<nat>) returns (at: seq<nat>)
    requires !Updates(Start(box, draws), us).Starved?
    ensures Selects(at, us, Deposits(box)) && Copies(Updates(Start(box, draws), us).deposits, us, at)
  {
    if us == [] {
      at := [];
    } else {
      var init, last := us[..|us| - 1], us[|us| - 1];
      assert us == init + [last];
      at := DepositsAre(box, init, draws);
      IdsStay(box, init, draws);
      at := OneDeposit(box, init, last, Updates(Start(box, draws), init), at);
    }
  }

  lemma OneDeposit(box: seq<Stack>, init: seq<Stack>, last: Stack, before: Progress, at: seq<nat>) returns (next: seq<nat>)
    requires before.Progress? && Update(before, last).Progress? && Ids(before.box) == Ids(box)
    requires Selects(at, init, Deposits(box)) && Copies(before.deposits, init, at)
    ensures Selects(next, init + [last], Deposits(box)) && Copies(Update(before, last).deposits, init + [last], next)
  {
    SelectsNext(at, init, last, Deposits(box));
    CopiesNext(before.deposits, init, last, at, Draw(before.draws, before.used));
    next := if Deposits(box)(last) then at + [|init|] else at;
  }

  lemma IdsStay(box: seq<Stack>, us: seq<Stack>, draws: seq<nat>)
    requires Updates(Start(box, draws), us).Progress?
    ensures Ids(Updates(Start(box, draws), us).box) == Ids(box)
  {
    UpdatesFresh(box, us, draws);
  }

  /**
   * What a merge gives: first one stack for every deposit among the updates, in their order and like them but for the
   * ID; behind those the old stacks, in the order of the box, that hold something after the last update for their ID.
   */
  lemma MergeGives(box: seq<Stack>, us: seq<Stack>, draws: seq<nat>) returns (from: seq<nat>, at: seq<nat>)
    requires NestedMerge(box, us, draws).Merged?
    ensures Selects(from, us, Deposits(box)) && Selects(at, box, Remains(us))
    ensures var stacks := NestedMerge(box, us, draws).stacks;
            && |stacks| == |from| + |at|
            && Copies(stacks[..|from|], us, from)
            && Results(stacks[|from|..], us, box, at)
  {
    from := DepositsAre(box, us, draws);
    at := OldAre(box, us, draws);
    var p := Updates(Start(box, draws), us);
    var stacks := p.deposits + Kept(p.box);
    assert stacks[..|from|] == p.deposits && stacks[|from|..] == Kept(p.box);
  }

  /** r consists of the stacks at these positions, with the quantities of the last updates for their IDs. */
  predicate Results(r: seq<Stack>, us: seq<Stack>, box: seq<Stack>, at: seq<nat>) {
    |r| == |at| && forall k :: 0 <= k < |at| ==> at[k] < |box| && r[k] == AfterAll(us, box[at[k]])
  }

  lemma OldAre(box: seq<Stack>, us: seq<Stack>, draws: seq<nat>) returns (at: seq<nat>)
    requires Updates(Start(box, draws), us).Progress?
    ensures Selects(at, box, Remains(us)) && Results(Kept(Updates(Start(box, draws), us).box), us, box, at)
  {
    var after := Updates(Start(box, draws), us).box;
    at := KeptAre(after);
    BoxAfter(box, us, draws);
    SameSelection(at, after, box, Something, Remains(us));
  }

  lemma SameSelection<T, U>(at: seq<nat>, s: seq<T>, s': seq<U>, p: T -> bool, p': U -> bool)
    requires Selects(at, s, p) && |s| == |s'| && forall i :: 0 <= i < |s| ==> p(s[i]) == p'(s'[i])
    ensures Selects(at, s', p')
  {
  }

  /** The stack with the quantity of the last update for its ID. */
  function AfterAll(us: seq<Stack>, s: Stack): Stack { s.(quantity := LastQuantity(us, s.id, s.quantity)) }

  lemma BoxAfter(box: seq<Stack>, us: seq<Stack>, draws: seq<nat>)
    requires Updates(Start(box, draws), us).Progress?
    ensures var after := Updates(Start(box, draws), us).box;
            && |after| == |box|
            && forall i :: 0 <= i < |box| ==> after[i] == AfterAll(us, box[i])
  {
    if box == [] {
      EmptyStays(us, draws);
    } else {
      OldStacks(box, us, draws, 0);
    }
    var after := Updates(Start(box, draws), us).box;
    forall i | 0 <= i < |box|
      ensures after[i] == AfterAll(us, box[i])
    {
      OldStacks(box, us, draws, i);
    }
  }

  /** The box after a run of merges, each with its own draws. */
  function AfterMerges(box: seq<Stack>, updates: seq<(seq<Stack>, seq<nat>)>): Merge {
    if updates == [] then Merged(box, box, [])
    else
      var before := AfterMerges(box, updates[..|updates| - 1]);
      var (us, draws) := updates[|updates| - 1];
      if before.Merged? then NestedMerge(before.stacks, us, draws) else Unfinished
  }

  /** Over any run of merges IDs stay apart and nonzero, and from the first merge on no stack is empty. */
  lemma {:induction false} EveryMerge(box: seq<Stack>, updates: seq<(seq<Stack>, seq<nat>)>)
    requires BoxOk(box) && AfterMerges(box, updates).Merged?
    ensures BoxOk(AfterMerges(box, updates).stacks)
    ensures updates != [] ==> Filled(AfterMerges(box, updates).stacks)
  {
    if updates != [] {
      EveryMerge(box, updates[..|updates| - 1]);
      var before := AfterMerges(box, updates[..|updates| - 1]);
      MergeKeeps(before.stacks, updates[|updates| - 1].0, updates[|updates| - 1].1);
    }
  }

  // ------------------------------------------------------------------
  // The stored form.

  const STACK_SIZE := 12
  const COUNT_LIMIT := 0x1_0000

  function StackBytes(s: Stack): (b: seq<byte>)
    ensures |b| == STACK_SIZE
  {
    Encode(s.id, 4, Big) + Encode(s.item, 2, Big) + Encode(s.quantity, 2, Big) + Encode(s.unk0, 4, Big)
  }

  function StacksBytes(stacks: seq<Stack>): (b: seq<byte>)
    ensures |b| == |stacks| * STACK_SIZE
  {
    if stacks == [] then [] else StacksBytes(stacks[..|stacks| - 1]) + StackBytes(stacks[|stacks| - 1])
  }

  /** The count is cut to 16 bits. */
  function Serialized(stacks: seq<Stack>): seq<byte> {
    Encode(|stacks| % COUNT_LIMIT, 2, Big) + Encode(0, 2, Big) + StacksBytes(stacks)
  }

  /** The buffer holds exactly these bytes, with the cursor behind them. */
  ghost predicate Holding(f: Frame, bs: seq<byte>) {
    f.Valid() && f.index == f.used && f.Data() == bs && f.order == Big
  }

  method Append(bf: Buffer, xs: seq<byte>, ghost bs: seq<byte>)
    requires Holding(bf.View(), bs)
    modifies bf, bf.buf
    ensures Holding(bf.View(), bs + xs) && (bf.buf == old(bf.buf) || fresh(bf.buf))
  {
    PutAtEnd(bf.View(), xs);
    bf.WriteBytes(xs);
  }

  method Append16(bf: Buffer, x: nat, ghost bs: seq<byte>)
    requires Holding(bf.View(), bs)
    modifies bf, bf.buf
    ensures Holding(bf.View(), bs + Encode(x, 2, Big)) && (bf.buf == old(bf.buf) || fresh(bf.buf))
  {
    PutAtEnd(bf.View(), Encode(x, 2, Big));
    bf.WriteUint16(x);
  }

  method Append32(bf: Buffer, x: nat, ghost bs: seq<byte>)
    requires Holding(bf.View(), bs)
    modifies bf, bf.buf
    ensures Holding(bf.View(), bs + Encode(x, 4, Big)) && (bf.buf == old(bf.buf) || fresh(bf.buf))
  {
    PutAtEnd(bf.View(), Encode(x, 4, Big));
    bf.WriteUint32(x);
  }

  method ToBytes(s: Stack) returns (r: seq<byte>)
    ensures r == StackBytes(s)
  {
    var bf := new Buffer();
    ghost var id, item, quantity := Encode(s.id, 4, Big), Encode(s.item, 2, Big), Encode(s.quantity, 2, Big);
    Append32(bf, s.id, []);
    Append16(bf, s.item, [] + id);
    Append16(bf, s.quantity, [] + id + item);
    Append32(bf, s.unk0, [] + id + item + quantity);
    assert [] + id == id;
    r := bf.buf[..bf.used];
    assert r == bf.View().Data();
  }

  method SerializeWarehouseItems(stacks: seq<Stack>) returns (r: seq<byte>)
    ensures r == Serialized(stacks)
  {
    var bf := new Buffer();
    ghost var count := Encode(|stacks| % COUNT_LIMIT, 2, Big);
    Append16(bf, |stacks| % COUNT_LIMIT, []);
    assert [] + count == count;
    Append16(bf, 0, count);
    ghost var head := count + Encode(0, 2, Big);
    assert head + StacksBytes([]) == head && stacks[..0] == [];
    for i := 0 to |stacks|
      invariant fresh(bf) && fresh(bf.buf) && Holding(bf.View(), head + StacksBytes(stacks[..i]))
    {
      var bytes := ToBytes(stacks[i]);
      assert stacks[..i + 1][..i] == stacks[..i];
      assert head + StacksBytes(stacks[..i]) + bytes == head + (StacksBytes(stacks[..i]) + bytes);
      Append(bf, bytes, head + StacksBytes(stacks[..i]));
    }
    assert stacks[..|stacks|] == stacks;
    r := bf.buf[..bf.used];
    assert r == bf.View().Data();
  }

  /** The stack stored at p. */
  function StoredAt(data: seq<byte>, p: nat): Stack
    requires p + STACK_SIZE <= |data|
  {
    Stack(Decode(data[p..p + 4], Big), Decode(data[p + 4..p + 6], Big), Decode(data[p + 6..p + 8], Big),
          Decode(data[p + 8..p + 12], Big))
  }

  /** How many stacks are read: the count, but no more than there are bytes for. */
  function StackCount(data: seq<byte>): nat
    requires |data| >= 4
  {
    var n := Decode(data[..2], Big);
    if n * STACK_SIZE > |data| - 4 then (|data| - 4) / STACK_SIZE else n
  }

  /** A zero ID is replaced by the k-th random number, whatever that is. */
  function NameOf(s: Stack, random: nat -> nat, k: nat): Stack {
    if s.id != 0 then s else s.(id := random(k))
  }

  /** The random number to be drawn next. */
  function AfterNaming(s: Stack, k: nat): nat { if s.id != 0 then k else k + 1 }

  function Named(stacks: seq<Stack>, random: nat -> nat, k: nat): seq<Stack> {
    if stacks == [] then []
    else [NameOf(stacks[0], random, k)] + Named(stacks[1..], random, AfterNaming(stacks[0], k))
  }

  function Stacks(data: seq<byte>, n: nat): seq<Stack>
    requires 4 + n * STACK_SIZE <= |data|
  {
    seq(n, i requires 0 <= i < n => StoredAt(data, 4 + i * STACK_SIZE))
  }

  function Deserialized(data: seq<byte>, random: nat -> nat): seq<Stack> {
    if |data| < 4 then [] else Named(Stacks(data, StackCount(data)), random, 0)
  }

  method ReadWarehouseItem(bf: Buffer, ghost data: seq<byte>, ghost at: nat, random: nat -> nat, k: nat)
      returns (s: Stack, next: nat)
    requires bf.Valid() && bf.View() == Frame(data, at, |data|, Big, false) && at + STACK_SIZE <= |data|
    modifies bf
    ensures bf.Valid() && bf.buf == old(bf.buf) && bf.View() == Frame(data, at + STACK_SIZE, |data|, Big, false)
    ensures s == NameOf(StoredAt(data, at), random, k) && next == AfterNaming(StoredAt(data, at), k)
  {
    next := k;
    var id := bf.ReadUint32();
    if id == 0 {
      id := random(k);
      next := k + 1;
    }
    var item := bf.ReadUint16();
    var quantity := bf.ReadUint16();
    var unk0 := bf.ReadUint32();
    s := Stack(id, item, quantity, unk0);
  }

  method DeserializeWarehouseItems(data: seq<byte>, random: nat -> nat) returns (items: seq<Stack>)
    ensures items == Deserialized(data, random)
  {
    if |data| < 4 {
      return [];
    }
    var bf := new Buffer.FromBytes(data);
    var numStacks := ReadCount(bf);
    assert data[0..2] == data[..2];
    if numStacks * STACK_SIZE > |data| - 4 {
      numStacks := (|data| - 4) / STACK_SIZE;
    }
    items := ReadStacks(bf, data, numStacks, random);
  }

  /** The count and the unused word. */
  method ReadCount(bf: Buffer) returns (n: nat)
    requires bf.Valid() && !bf.View().err && bf.View().used == |bf.View().buf| && bf.View().index + 4 <= bf.View().used
    modifies bf
    ensures bf.Valid() && bf.buf == old(bf.buf) && bf.View() == old(bf.View()).(index := old(bf.View().index) + 4)
    ensures n == Decode(old(bf.View().buf)[old(bf.View().index)..old(bf.View().index) + 2], old(bf.View().order))
  {
    n := bf.ReadUint16();
    var _ := bf.ReadUint16();
  }

  method ReadStacks(bf: Buffer, ghost data: seq<byte>, n: nat, random: nat -> nat) returns (items: seq<Stack>)
    requires bf.Valid() && 4 + n * STACK_SIZE <= |data| && bf.View() == Frame(data, 4, |data|, Big, false)
    modifies bf
    ensures items == Named(Stacks(data, n), random, 0)
  {
    items := [];
    var k := 0;
    ghost var all := Stacks(data, n);
    assert all[0..] == all && items + Named(all, random, 0) == Named(all, random, 0);
    for i := 0 to n
      invariant bf.Valid() && bf.buf == old(bf.buf) && bf.View() == Frame(data, 4 + i * STACK_SIZE, |data|, Big, false)
      invariant items + Named(all[i..], random, k) == Named(all, random, 0)
    {
      NamedNext(items, all, i, random, k);
      StackStored(data, n, i);
      var s;
      s, k := ReadWarehouseItem(bf, data, 4 + i * STACK_SIZE, random, k);
      items := items + [s];
    }
    assert items + [] == items;
  }

  lemma StackStored(data: seq<byte>, n: nat, i: nat)
    requires i < n && 4 + n * STACK_SIZE <= |data|
    ensures 4 + i * STACK_SIZE + STACK_SIZE <= |data| && Stacks(data, n)[i] == StoredAt(data, 4 + i * STACK_SIZE)
  {
  }

  lemma NamedNext(front: seq<Stack>, all: seq<Stack>, i: nat, random: nat -> nat, k: nat)
    requires i < |all|
    ensures front + Named(all[i..], random, k) ==
            front + [NameOf(all[i], random, k)] + Named(all[i + 1..], random, AfterNaming(all[i], k))
  {
    assert all[i..][0] == all[i] && all[i..][1..] == all[i + 1..];
  }

  lemma {:induction false} NamedNonzero(stacks: seq<Stack>, random: nat -> nat, k: nat)
    requires forall s :: s in stacks ==> s.id != 0
    ensures Named(stacks, random, k) == stacks
  {
    if stacks != [] {
      assert stacks == [stacks[0]] + stacks[1..] && stacks[0] in stacks;
      NamedNonzero(stacks[1..], random, k);
    }
  }

  lemma {:induction false} StackAt(stacks: seq<Stack>, i: nat)
    requires i < |stacks|
    ensures StacksBytes(stacks)[i * STACK_SIZE..i * STACK_SIZE + STACK_SIZE] == StackBytes(stacks[i])
  {
    var init := stacks[..|stacks| - 1];
    if i < |init| {
      StackAt(init, i);
      var a, b := StacksBytes(init), StacksBytes(stacks);
      assert b[..|a|] == a;
      assert b[i * STACK_SIZE..i * STACK_SIZE + STACK_SIZE] == b[..|a|][i * STACK_SIZE..i * STACK_SIZE + STACK_SIZE];
    }
  }

  lemma StoredBack(data: seq<byte>, p: nat, s: Stack)
    requires p + STACK_SIZE <= |data| && data[p..p + STACK_SIZE] == StackBytes(s) && s.Fits()
    ensures StoredAt(data, p) == s
  {
    var b := StackBytes(s);
    Layout.PartOf(data, p, STACK_SIZE, 0, 4);
    Layout.PartOf(data, p, STACK_SIZE, 4, 2);
    Layout.PartOf(data, p, STACK_SIZE, 6, 2);
    Layout.PartOf(data, p, STACK_SIZE, 8, 4);
    assert data[p..p + 4] == b[0..4] == Encode(s.id, 4, Big);
    assert data[p + 4..p + 6] == b[4..6] == Encode(s.item, 2, Big);
    assert data[p + 6..p + 8] == b[6..8] == Encode(s.quantity, 2, Big);
    assert data[p + 8..p + 12] == b[8..12] == Encode(s.unk0, 4, Big);
    DecodeEncode(s.id, 4, Big);
    DecodeEncode(s.item, 2, Big);
    DecodeEncode(s.quantity, 2, Big);
    DecodeEncode(s.unk0, 4, Big);
  }

  lemma SerializedAt(stacks: seq<Stack>, i: nat)
    requires i < |stacks|
    ensures |Serialized(stacks)| == 4 + |stacks| * STACK_SIZE
    ensures Serialized(stacks)[4 + i * STACK_SIZE..4 + i * STACK_SIZE + STACK_SIZE] == StackBytes(stacks[i])
  {
    var p := i * STACK_SIZE;
    StackAt(stacks, i);
    assert Serialized(stacks)[4..] == StacksBytes(stacks);
    assert Serialized(stacks)[4 + p..4 + p + STACK_SIZE] == Serialized(stacks)[4..][p..p + STACK_SIZE];
  }

  lemma StackBack(stacks: seq<Stack>, i: nat)
    requires i < |stacks| && forall s :: s in stacks ==> s.Fits()
    ensures |Serialized(stacks)| == 4 + |stacks| * STACK_SIZE && StoredAt(Serialized(stacks), 4 + i * STACK_SIZE) == stacks[i]
  {
    assert stacks[i] in stacks;
    SerializedAt(stacks, i);
    StoredBack(Serialized(stacks), 4 + i * STACK_SIZE, stacks[i]);
  }

  /**
   * Reading back a stored box gives its first stacks, as many as the cut count says, zero IDs replaced: the whole
   * box exactly when it has fewer than 65536 stacks, if no ID is zero.
   */
  lemma StoredRoundTrip(stacks: seq<Stack>, random: nat -> nat)
    requires forall s :: s in stacks ==> s.Fits()
    ensures Deserialized(Serialized(stacks), random) == Named(stacks[..|stacks| % COUNT_LIMIT], random, 0)
    ensures (forall s :: s in stacks ==> s.id != 0) ==>
              (Deserialized(Serialized(stacks), random) == stacks <==> |stacks| < COUNT_LIMIT)
  {
    var data, n := Serialized(stacks), |stacks| % COUNT_LIMIT;
    CountBack(stacks);
    forall i | 0 <= i < n
      ensures Stacks(data, n)[i] == stacks[..n][i]
    {
      StackBack(stacks, i);
    }
    assert Stacks(data, n) == stacks[..n];
    if forall s :: s in stacks ==> s.id != 0 {
      NamedNonzero(stacks[..n], random, 0);
      assert |stacks| < COUNT_LIMIT ==> stacks[..n] == stacks;
    }
  }

  lemma CountRead(bs: seq<byte>, n: nat, size: nat)
    requires bs == Encode(n, size, Big) && size == 2 && n < COUNT_LIMIT
    ensures Decode(bs, Big) == n
  {
    assert Pow256(size) == 256 * Pow256(size - 1) && Pow256(size - 1) == 256 * Pow256(size - 2);
    DecodeEncode(n, size, Big);
  }

  lemma CountBack(stacks: seq<Stack>)
    ensures |Serialized(stacks)| == 4 + |stacks| * STACK_SIZE && StackCount(Serialized(stacks)) == |stacks| % COUNT_LIMIT
  {
    var n := |stacks| % COUNT_LIMIT;
    var head := Encode(n, 2, Big);
    assert Serialized(stacks)[..2] == head;
    CountRead(head, n, 2);
    assert n <= |stacks|;
  }
}
