/** Text as the catalogues use it: identifiers, byte lengths and the order of strings. */
module Texts {
  import opened Sorting

  /** Unicode white space. */
  predicate Space(c: char) {
    var n := c as int;
    9 <= n <= 13 || n in {32, 0x85, 0xa0, 0x1680, 0x2028, 0x2029, 0x202f, 0x205f, 0x3000} || 0x2000 <= n <= 0x200a
  }

  predicate Blank(s: string) {
    forall c :: c in s ==> Space(c)
  }

  /** Not empty, and nothing to trim. */
  predicate ValidId(s: string) {
    s != "" && !Space(s[0]) && !Space(s[|s| - 1])
  }

  function Utf8Length(s: string): nat {
    if s == "" then 0
    else
      var n := s[0] as int;
      (if n < 0x80 then 1 else if n < 0x800 then 2 else if n < 0x10000 then 3 else 4) + Utf8Length(s[1..])
  }

  /** Strings in code point order, which is the order of their UTF-8 bytes. */
  predicate TextBelow(a: string, b: string) {
    b != [] && (a == [] || a[0] < b[0] || (a[0] == b[0] && TextBelow(a[1..], b[1..])))
  }

  /** The texts agree up to k, where the one ends or has the smaller character. */
  predicate DiffersAt(a: string, b: string, k: nat) {
    k <= |a| && k < |b| && a[..k] == b[..k] && (k == |a| || a[k] < b[k])
  }

  lemma {:induction false} TextBelowIff(a: string, b: string)
    ensures TextBelow(a, b) <==> exists k: nat :: DiffersAt(a, b, k)
    decreases |b|
  {
    if b != [] && a != [] && a[0] == b[0] {
      TextBelowIff(a[1..], b[1..]);
      if k: nat :| DiffersAt(a[1..], b[1..], k) {
        assert a[..k + 1] == [a[0]] + a[1..][..k] && b[..k + 1] == [b[0]] + b[1..][..k];
        assert DiffersAt(a, b, k + 1);
      }
      if k: nat :| DiffersAt(a, b, k) {
        assert k > 0;
        assert a[1..][..k - 1] == a[..k][1..] && b[1..][..k - 1] == b[..k][1..];
        assert DiffersAt(a[1..], b[1..], k - 1);
      }
    } else if b != [] && (a == [] || a[0] < b[0]) {
      assert DiffersAt(a, b, 0);
    } else if b != [] {
      forall k: nat | 0 < k <= |a| && k < |b|
        ensures !DiffersAt(a, b, k)
      {
        assert a[..k][0] == a[0] && b[..k][0] == b[0];
      }
    }
  }

  lemma {:induction false} TextConnected(a: string, b: string)
    requires a != b
    ensures TextBelow(a, b) <==> !TextBelow(b, a)
  {
    if a != [] && b != [] && a[0] == b[0] {
      assert a == [a[0]] + a[1..] && b == [b[0]] + b[1..];
      TextConnected(a[1..], b[1..]);
    }
  }

  lemma {:induction false} TextIrreflexive(a: string)
    ensures !TextBelow(a, a)
  {
    if a != [] {
      TextIrreflexive(a[1..]);
    }
  }

  lemma {:induction false} TextTransitive(a: string, b: string, c: string)
    requires TextBelow(a, b) && TextBelow(b, c)
    ensures TextBelow(a, c)
  {
    if a != [] && a[0] == b[0] && b[0] == c[0] {
      TextTransitive(a[1..], b[1..], c[1..]);
    }
  }

  lemma TextAsymmetric()
    ensures forall a: string, b: string :: TextBelow(a, b) ==> !TextBelow(b, a)
  {
    forall a: string, b: string | TextBelow(a, b)
      ensures !TextBelow(b, a)
    {
      if a == b {
        TextIrreflexive(a);
      } else {
        TextConnected(a, b);
      }
    }
  }

  lemma TextsLinear(ids: seq<string>)
    ensures Linear(ids, TextBelow)
  {
    TextAsymmetric();
    forall a: string, b: string | a != b
      ensures TextBelow(a, b) <==> !TextBelow(b, a)
    {
      TextConnected(a, b);
    }
    forall a: string, b: string, c: string | TextBelow(a, b) && TextBelow(b, c)
      ensures TextBelow(a, c)
    {
      TextTransitive(a, b, c);
    }
  }

  lemma TextsSorted(ids: seq<string>)
    requires Distinct(ids)
    ensures Ascending(Sort(ids, TextBelow), TextBelow)
    ensures forall id :: id in Sort(ids, TextBelow) <==> id in ids
  {
    TextsLinear(ids);
    SortOrders(ids, TextBelow);
    SortKeeps(ids, TextBelow);
    SameElements(Sort(ids, TextBelow), ids);
  }
}
