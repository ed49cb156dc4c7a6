/** Exclusive or on numbers, and its laws. */
module ExclusiveOr {
  import opened Bytes

  /** Exclusive or of the low n bits, one bit at a time. */
  function XorBits(a: nat, b: nat, n: nat): nat {
    if n == 0 then 0 else (a + b) % 2 + 2 * XorBits(a / 2, b / 2, n - 1)
  }

  function Power2(n: nat): nat {
    if n == 0 then 1 else 2 * Power2(n - 1)
  }

  lemma {:induction false} XorBitsBounded(a: nat, b: nat, n: nat)
    ensures XorBits(a, b, n) < Power2(n)
  {
    if n > 0 {
      XorBitsBounded(a / 2, b / 2, n - 1);
    }
  }

  lemma {:induction false} XorBitsCommute(a: nat, b: nat, n: nat)
    ensures XorBits(a, b, n) == XorBits(b, a, n)
  {
    if n > 0 {
      XorBitsCommute(a / 2, b / 2, n - 1);
    }
  }

  lemma {:induction false} XorBitsUndone(a: nat, b: nat, n: nat)
    requires a < Power2(n)
    ensures XorBits(XorBits(a, b, n), b, n) == a
  {
    if n > 0 {
      var rest := XorBits(a / 2, b / 2, n - 1);
      XorBitsUndone(a / 2, b / 2, n - 1);
      Halved((a + b) % 2, rest);
      SameParity(a, b, rest);
    }
  }

  lemma Halved(bit: nat, rest: nat)
    requires bit < 2
    ensures (bit + 2 * rest) / 2 == rest
  {
  }

  lemma SameParity(a: nat, b: nat, rest: nat)
    ensures ((a + b) % 2 + 2 * rest + b) % 2 == a % 2
  {
  }

  lemma Power2Values()
    ensures Power2(8) == 0x100 && Power2(16) == 0x1_0000
  {
    assert Power2(4) == 16;
    assert Power2(12) == 16 * Power2(8);
  }

  function Xor(a: byte, b: byte): byte {
    Power2Values();
    XorBitsBounded(a, b, 8);
    XorBits(a, b, 8)
  }

  lemma XorUndone(a: byte, b: byte)
    ensures Xor(Xor(a, b), b) == a && Xor(b, Xor(b, a)) == a
  {
    Power2Values();
    XorBitsUndone(a, b, 8);
    XorBitsCommute(b, a, 8);
    XorBitsCommute(b, XorBits(a, b, 8), 8);
  }

  lemma XorCommutes(a: byte, b: byte)
    ensures Xor(a, b) == Xor(b, a)
  {
    XorBitsCommute(a, b, 8);
  }

  /** A number given by its last bit and its rest, in either operand. */
  lemma XorBitsCons(bit: nat, rest: nat, c: nat, n: nat)
    requires bit < 2 && n > 0
    ensures XorBits(bit + 2 * rest, c, n) == (bit + c) % 2 + 2 * XorBits(rest, c / 2, n - 1)
    ensures XorBits(c, bit + 2 * rest, n) == (c + bit) % 2 + 2 * XorBits(c / 2, rest, n - 1)
  {
    Halved(bit, rest);
    assert (bit + 2 * rest + c) % 2 == (bit + c) % 2;
  }

  lemma {:induction false} XorBitsAssociate(a: nat, b: nat, c: nat, n: nat)
    ensures XorBits(XorBits(a, b, n), c, n) == XorBits(a, XorBits(b, c, n), n)
  {
    if n > 0 {
      XorBitsAssociate(a / 2, b / 2, c / 2, n - 1);
      var ab, bc := XorBits(a / 2, b / 2, n - 1), XorBits(b / 2, c / 2, n - 1);
      Parity(a, b, c);
      Outer(a, c, (a + b) % 2, (b + c) % 2, ab, bc, n);
    }
  }

  lemma Outer(a: nat, c: nat, p: nat, q: nat, ab: nat, bc: nat, n: nat)
    requires n > 0 && p < 2 && q < 2 && (p + c) % 2 == (a + q) % 2
    requires XorBits(ab, c / 2, n - 1) == XorBits(a / 2, bc, n - 1)
    ensures XorBits(p + 2 * ab, c, n) == XorBits(a, q + 2 * bc, n)
  {
    XorBitsCons(p, ab, c, n);
    XorBitsCons(q, bc, a, n);
  }

  lemma Parity(a: nat, b: nat, c: nat)
    ensures ((a + b) % 2 + c) % 2 == (a + (b + c) % 2) % 2
  {
  }

  lemma XorAssociates(a: byte, b: byte, c: byte)
    ensures Xor(Xor(a, b), c) == Xor(a, Xor(b, c))
  {
    XorBitsAssociate(a, b, c, 8);
  }

  lemma {:induction false} XorBitsOfZero(a: nat, n: nat)
    requires a < Power2(n)
    ensures XorBits(a, 0, n) == a && XorBits(0, a, n) == a
  {
    if n > 0 {
      XorBitsOfZero(a / 2, n - 1);
    }
  }

  lemma XorZero(a: byte)
    ensures Xor(a, 0) == a && Xor(0, a) == a
  {
    Power2Values();
    XorBitsOfZero(a, 8);
  }

  /** The low nibble of an exclusive or is that of the low nibbles. */
  lemma XorNibble(a: byte, b: byte)
    ensures Xor(a, b) % 16 == XorBits(a % 16, b % 16, 4)
  {
    XorBitsLow(a, b, 4, 8);
    Power2Values();
    NibbleBits(a, b);
  }

  lemma {:induction false} XorBitsLow(a: nat, b: nat, k: nat, n: nat)
    requires k <= n
    ensures Power2(k) > 0 && XorBits(a, b, n) % Power2(k) == XorBits(a, b, k)
    decreases k
  {
    if k == 0 {
    } else {
      XorBitsLow(a / 2, b / 2, k - 1, n - 1);
      LowDigit((a + b) % 2, XorBits(a / 2, b / 2, n - 1), Power2(k - 1));
    }
  }

  lemma LowDigit(bit: nat, rest: nat, m: nat)
    requires bit < 2 && m > 0
    ensures (bit + 2 * rest) % (2 * m) == bit + 2 * (rest % m)
  {
    var q := rest / m;
    assert 2 * (q * m) == q * (2 * m);
    QuotientUnique(bit + 2 * rest, 2 * m, q, bit + 2 * (rest % m));
  }

  lemma {:induction false} XorBitsOfLow(a: nat, b: nat, k: nat)
    ensures Power2(k) > 0 && XorBits(a % Power2(k), b % Power2(k), k) == XorBits(a, b, k)
  {
    PowerPositive(k);
    if k > 0 {
      var al, bl := a % Power2(k), b % Power2(k);
      HalfOfLow(a, k);
      HalfOfLow(b, k);
      XorBitsOfLow(a / 2, b / 2, k - 1);
      SameBits(al, bl, a, b, k);
    }
  }

  lemma SameBits(a: nat, b: nat, c: nat, d: nat, n: nat)
    requires n > 0 && a % 2 == c % 2 && b % 2 == d % 2
    requires XorBits(a / 2, b / 2, n - 1) == XorBits(c / 2, d / 2, n - 1)
    ensures XorBits(a, b, n) == XorBits(c, d, n)
  {
    SumParity(a, b);
    SumParity(c, d);
    var x, y := XorBits(a / 2, b / 2, n - 1), XorBits(c / 2, d / 2, n - 1);
    assert XorBits(a, b, n) == (a + b) % 2 + 2 * x;
    assert XorBits(c, d, n) == (c + d) % 2 + 2 * y;
  }

  lemma SumParity(a: nat, b: nat)
    ensures (a + b) % 2 == (a % 2 + b % 2) % 2
  {
  }

  lemma HalfOfLow(a: nat, k: nat)
    requires k > 0
    ensures Power2(k) > 0 && Power2(k - 1) > 0
    ensures a % Power2(k) / 2 == a / 2 % Power2(k - 1) && a % Power2(k) % 2 == a % 2
  {
    PowerPositive(k - 1);
    var m := Power2(k - 1);
    var q, r := a / 2 / m, a / 2 % m;
    assert a / 2 == q * m + r;
    assert a == q * (2 * m) + (2 * r + a % 2);
    QuotientUnique(a, 2 * m, q, 2 * r + a % 2);
  }

  lemma {:induction false} PowerPositive(n: nat)
    ensures Power2(n) > 0
  {
    if n > 0 {
      PowerPositive(n - 1);
    }
  }

  lemma NibbleBits(a: byte, b: byte)
    ensures XorBits(a % 16, b % 16, 4) == XorBits(a, b, 4)
  {
    assert Power2(4) == 16;
    XorBitsOfLow(a, b, 4);
  }
}
