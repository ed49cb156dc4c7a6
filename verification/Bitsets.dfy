/** Sets of small numbers kept as 64-bit words, and counting them a word at a time. */
module Bitsets {
  import opened ExclusiveOr

  const WORD := 64

  predicate Bit(w: nat, k: nat) {
    if k == 0 then w % 2 == 1 else Bit(w / 2, k - 1)
  }

  function Or(a: nat, b: nat): nat
    decreases a + b
  {
    if a == 0 && b == 0 then 0 else (if a % 2 == 1 || b % 2 == 1 then 1 else 0) + 2 * Or(a / 2, b / 2)
  }

  function OnesCount(w: nat): nat {
    if w == 0 then 0 else w % 2 + OnesCount(w / 2)
  }

  lemma {:induction false} NoBits(k: nat)
    ensures !Bit(0, k)
  {
    if k > 0 {
      NoBits(k - 1);
    }
  }

  /** Or is union. */
  lemma {:induction false} OrUnites(a: nat, b: nat, k: nat)
    ensures Bit(Or(a, b), k) <==> Bit(a, k) || Bit(b, k)
    decreases k
  {
    if a == 0 && b == 0 {
      NoBits(k);
    } else {
      var low, rest := if a % 2 == 1 || b % 2 == 1 then 1 else 0, Or(a / 2, b / 2);
      Halved(low, rest);
      if k > 0 {
        OrUnites(a / 2, b / 2, k - 1);
      } else {
        assert (low + 2 * rest) % 2 == low;
      }
    }
  }

  lemma {:induction false} OrFits(a: nat, b: nat, n: nat)
    requires a < Power2(n) && b < Power2(n)
    ensures Or(a, b) < Power2(n)
  {
    if n > 0 {
      OrFits(a / 2, b / 2, n - 1);
    }
  }

  /** A one shifted by k is the set of k alone. */
  lemma {:induction false} ShiftedOne(k: nat, j: nat)
    ensures Bit(Power2(k), j) <==> j == k
  {
    if k == 0 {
      if j > 0 {
        NoBits(j - 1);
      }
    } else if j > 0 {
      ShiftedOne(k - 1, j - 1);
    }
  }

  lemma {:induction false} PowerGrows(k: nat, n: nat)
    requires k < n
    ensures Power2(k) < Power2(n)
  {
    if k == 0 {
      if n > 1 {
        PowerGrows(0, n - 1);
      }
    } else {
      PowerGrows(k - 1, n - 1);
    }
  }

  ghost predicate AllBits(w: nat, n: nat) {
    forall k: nat :: k < n ==> Bit(w, k)
  }

  /** A word of n bits counts at most n, and n only when every bit is set. */
  lemma {:induction false} FullWord(w: nat, n: nat)
    requires w < Power2(n)
    ensures OnesCount(w) <= n
    ensures OnesCount(w) == n <==> AllBits(w, n)
  {
    if n > 0 {
      FullWord(w / 2, n - 1);
      assert OnesCount(w) == w % 2 + OnesCount(w / 2);
      if OnesCount(w) == n {
        forall k: nat | k < n
          ensures Bit(w, k)
        {
          assert k > 0 ==> Bit(w / 2, k - 1);
        }
      }
      if AllBits(w, n) {
        assert Bit(w, 0);
        forall k: nat | k < n - 1
          ensures Bit(w / 2, k)
        {
          assert Bit(w, k + 1);
        }
      }
    }
  }

  // ------------------------------------------------------------------
  // Sets of the numbers below n.

  function Words(n: nat): nat { (n + 63) / WORD }

  /** How many of the numbers below n have their bit in word i. */
  function Room(n: nat, i: nat): nat {
    if n >= (i + 1) * WORD then WORD else if n > i * WORD then n - i * WORD else 0
  }

  ghost predicate Fits(mask: seq<nat>, n: nat) {
    |mask| == Words(n) && forall i :: 0 <= i < |mask| ==> mask[i] < Power2(Room(n, i))
  }

  predicate Has(mask: seq<nat>, k: nat)
    requires k / WORD < |mask|
  {
    Bit(mask[k / WORD], k % WORD)
  }

  function Count(mask: seq<nat>): nat {
    if mask == [] then 0 else Count(mask[..|mask| - 1]) + OnesCount(mask[|mask| - 1])
  }

  function Least(a: nat, b: nat): nat { if a < b then a else b }

  lemma WordFull(mask: seq<nat>, n: nat, i: nat)
    requires Fits(mask, n) && i < |mask|
    ensures OnesCount(mask[i]) <= Room(n, i)
    ensures OnesCount(mask[i]) == Room(n, i) <==> forall k :: i * WORD <= k < Least(n, (i + 1) * WORD) ==> Has(mask, k)
  {
    FullWord(mask[i], Room(n, i));
    forall k | i * WORD <= k < Least(n, (i + 1) * WORD)
      ensures k / WORD == i && k % WORD == k - i * WORD
    {
    }
    if forall k :: i * WORD <= k < Least(n, (i + 1) * WORD) ==> Has(mask, k) {
      forall j: nat | j < Room(n, i)
        ensures Bit(mask[i], j)
      {
        assert Has(mask, i * WORD + j);
      }
    }
    if OnesCount(mask[i]) == Room(n, i) {
      forall k | i * WORD <= k < Least(n, (i + 1) * WORD)
        ensures Has(mask, k)
      {
        assert Bit(mask[i], k - i * WORD);
      }
    }
  }

  lemma {:induction false} CountCovers(mask: seq<nat>, n: nat, m: nat)
    requires Fits(mask, n) && m <= |mask|
    ensures Count(mask[..m]) <= Least(n, m * WORD)
    ensures Count(mask[..m]) == Least(n, m * WORD) <==> forall k :: 0 <= k < Least(n, m * WORD) ==> Has(mask, k)
  {
    if m > 0 {
      CountCovers(mask, n, m - 1);
      WordFull(mask, n, m - 1);
      assert mask[..m][..m - 1] == mask[..m - 1];
      assert Least(n, m * WORD) == Least(n, (m - 1) * WORD) + Room(n, m - 1);
    }
  }

  /** The count of all words is n exactly when every number below n is in the set. */
  lemma CountIsCoverage(mask: seq<nat>, n: nat)
    requires Fits(mask, n)
    ensures Count(mask) == n <==> forall k :: 0 <= k < n ==> Has(mask, k)
  {
    CountCovers(mask, n, |mask|);
    assert mask[..|mask|] == mask;
    assert Least(n, |mask| * WORD) == n;
  }

  // ------------------------------------------------------------------
  // The same in place.

  /** mask[k / 64] |= 1 << (k % 64) */
  method SetBit(mask: array<nat>, ghost n: nat, k: nat)
    requires Fits(mask[..], n) && k < n
    modifies mask
    ensures Fits(mask[..], n)
    ensures forall j :: 0 <= j < n ==> (Has(mask[..], j) <==> j == k || old(Has(mask[..], j)))
  {
    var i := k / WORD;
    assert k % WORD < Room(n, i);
    PowerGrows(k % WORD, Room(n, i));
    OrFits(mask[i], Power2(k % WORD), Room(n, i));
    ghost var word := mask[i];
    mask[i] := Or(mask[i], Power2(k % WORD));
    forall j | 0 <= j < n
      ensures Has(mask[..], j) <==> j == k || old(Has(mask[..], j))
    {
      if j / WORD == i {
        OrUnites(word, Power2(k % WORD), j % WORD);
        ShiftedOne(k % WORD, j % WORD);
      }
    }
  }

  /** scratch |= mask, word by word. */
  method Unite(scratch: array<nat>, mask: seq<nat>, ghost n: nat)
    requires Fits(scratch[..], n) && Fits(mask, n)
    modifies scratch
    ensures Fits(scratch[..], n)
    ensures forall j :: 0 <= j < n ==> (Has(scratch[..], j) <==> Has(mask, j) || old(Has(scratch[..], j)))
  {
    ghost var before := scratch[..];
    for i := 0 to |mask|
      invariant forall j :: 0 <= j < i ==> scratch[j] == Or(before[j], mask[j])
      invariant forall j :: i <= j < |mask| ==> scratch[j] == before[j]
    {
      scratch[i] := Or(scratch[i], mask[i]);
    }
    forall i | 0 <= i < |mask|
      ensures scratch[i] < Power2(Room(n, i))
    {
      OrFits(before[i], mask[i], Room(n, i));
    }
    forall j | 0 <= j < n
      ensures Has(scratch[..], j) <==> Has(mask, j) || Has(before, j)
    {
      OrUnites(before[j / WORD], mask[j / WORD], j % WORD);
    }
  }

  method Clear(scratch: array<nat>, ghost n: nat)
    requires scratch.Length == Words(n)
    modifies scratch
    ensures Fits(scratch[..], n)
    ensures forall j :: 0 <= j < n ==> !Has(scratch[..], j)
  {
    for i := 0 to scratch.Length
      invariant forall j :: 0 <= j < i ==> scratch[j] == 0
    {
      scratch[i] := 0;
    }
    forall j | 0 <= j < n
      ensures !Has(scratch[..], j)
    {
      NoBits(j % WORD);
    }
    forall i | 0 <= i < scratch.Length
      ensures scratch[i] < Power2(Room(n, i))
    {
      PowerPositive(Room(n, i));
    }
  }

  lemma {:induction false} PowerPositive(n: nat)
    ensures Power2(n) > 0
  {
    if n > 0 {
      PowerPositive(n - 1);
    }
  }

  /** The population count over all words, and so whether all n numbers are there. */
  method CountsAll(mask: seq<nat>, n: nat) returns (full: bool)
    requires Fits(mask, n)
    ensures full <==> forall k :: 0 <= k < n ==> Has(mask, k)
  {
    var covered := 0;
    for i := 0 to |mask|
      invariant covered == Count(mask[..i])
    {
      assert mask[..i + 1][..i] == mask[..i];
      covered := covered + OnesCount(mask[i]);
    }
    assert mask[..|mask|] == mask;
    CountIsCoverage(mask, n);
    full := covered == n;
  }
}
