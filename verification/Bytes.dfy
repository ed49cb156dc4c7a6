/** Bytes and fixed-width integers laid out in either byte order. */
module Bytes {
  type byte = x: int | 0 <= x < 256

  /** The order in which a multi-byte integer is laid out. */
  datatype Order = Little | Big

  function Pow256(n: nat): (p: nat)
    ensures p >= 1
  {
    if n == 0 then 1 else 256 * Pow256(n - 1)
  }

  /** The low n bytes of x in the given order; higher bytes are truncated. */
  function Encode(x: nat, n: nat, order: Order): (bs: seq<byte>)
    ensures |bs| == n
  {
    if n == 0 then []
    else if order.Little? then [x % 256] + Encode(x / 256, n - 1, order)
    else Encode(x / 256, n - 1, order) + [x % 256]
  }

  /** The number that bs denotes in the given order. */
  function Decode(bs: seq<byte>, order: Order): (x: nat)
  {
    if bs == [] then 0
    else if order.Little? then bs[0] + 256 * Decode(bs[1..], order)
    else bs[|bs| - 1] + 256 * Decode(bs[..|bs| - 1], order)
  }

  lemma {:induction false} DecodeBounded(bs: seq<byte>, order: Order)
    ensures Decode(bs, order) < Pow256(|bs|)
  {
    if bs == [] {
    } else if order.Little? {
      DecodeBounded(bs[1..], order);
    } else {
      DecodeBounded(bs[..|bs| - 1], order);
    }
  }

  lemma DecodeOne(b: byte, order: Order)
    ensures Decode([b], order) == b
  {
    assert [b][1..] == [] && [b][..0] == [];
  }

  lemma {:induction false} DecodeEncode(x: nat, n: nat, order: Order)
    requires x < Pow256(n)
    ensures Decode(Encode(x, n, order), order) == x
  {
    if n == 0 {
    } else {
      DecodeEncode(x / 256, n - 1, order);
      var bs := Encode(x, n, order);
      if order.Little? {
        assert bs[1..] == Encode(x / 256, n - 1, order);
      } else {
        assert bs[..n - 1] == Encode(x / 256, n - 1, order);
      }
    }
  }

  lemma {:induction false} EncodeDecode(bs: seq<byte>, order: Order)
    ensures Encode(Decode(bs, order), |bs|, order) == bs
  {
    if bs == [] {
    } else if order.Little? {
      var x := Decode(bs[1..], order);
      EncodeDecode(bs[1..], order);
      QuotientUnique(Decode(bs, order), 256, x, bs[0]);
      assert bs == [bs[0]] + bs[1..];
    } else {
      var x := Decode(bs[..|bs| - 1], order);
      EncodeDecode(bs[..|bs| - 1], order);
      QuotientUnique(Decode(bs, order), 256, x, bs[|bs| - 1]);
      assert bs == bs[..|bs| - 1] + [bs[|bs| - 1]];
    }
  }

  lemma EncodeTwo(x: nat)
    ensures Encode(x, 2, Little) == [x % 0x100, x / 0x100 % 0x100]
    ensures Encode(x, 2, Big) == [x / 0x100 % 0x100, x % 0x100]
  {
    assert Encode(x / 0x100, 1, Little) == [x / 0x100 % 0x100] == Encode(x / 0x100, 1, Big);
  }

  lemma EncodeFour(x: nat)
    ensures Encode(x, 4, Little) == [x % 0x100, x / 0x100 % 0x100, x / 0x1_0000 % 0x100, x / 0x100_0000 % 0x100]
    ensures Encode(x, 4, Big) == [x / 0x100_0000 % 0x100, x / 0x1_0000 % 0x100, x / 0x100 % 0x100, x % 0x100]
  {
    EncodeTwo(x);
    EncodeTwo(x / 0x1_0000);
    assert x / 0x100 / 0x100 == x / 0x1_0000;
    assert Encode(x, 4, Little) == [x % 0x100] + ([x / 0x100 % 0x100] + Encode(x / 0x1_0000, 2, Little));
    assert Encode(x, 4, Big) == (Encode(x / 0x1_0000, 2, Big) + [x / 0x100 % 0x100]) + [x % 0x100];
  }

  /** Two's complement: the signed reading of an n-byte unsigned value. */
  function Signed(x: nat, n: nat): int
  {
    if 2 * x < Pow256(n) then x else x - Pow256(n)
  }

  function Zeros(n: nat): (z: seq<byte>)
    ensures |z| == n
    ensures forall i :: 0 <= i < n ==> z[i] == 0
  {
    seq(n, i => 0)
  }

  /** Quotient and remainder from any decomposition. */
  lemma QuotientUnique(x: nat, d: nat, q: int, r: nat)
    requires d > 0 && r < d && x == q * d + r
    ensures x / d == q && x % d == r
  {
    DivisionUnique(d, x / d, x % d, q, r);
  }

  lemma DivisionUnique(d: nat, q: int, r: nat, q': int, r': nat)
    requires r < d && r' < d && q * d + r == q' * d + r'
    ensures q == q' && r == r'
  {
    assert (q - q') * d == r' - r;
    if q > q' {
      AtLeast(q - q', d);
    } else if q < q' {
      assert (q' - q) * d == r - r';
      AtLeast(q' - q, d);
    }
  }

  lemma AtLeast(a: int, d: nat)
    requires a >= 1
    ensures a * d >= d
  {
  }
}
