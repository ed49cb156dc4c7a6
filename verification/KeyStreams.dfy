/** Every byte of both ciphers' output, and every checksum, by its index. */
module KeyStreams {
  import opened Bytes

  const WORD := 0x1_0000_0000

  // ------------------------------------------------------------------
  // Linear congruential key streams.

  function Power(m: nat, n: nat): nat {
    if n == 0 then 1 else m * Power(m, n - 1)
  }

  /** 1 + m + m^2 + ..., n summands. */
  function Geometric(m: nat, n: nat): nat {
    if n == 0 then 0 else 1 + m * Geometric(m, n - 1)
  }

  /** The n-th number after s, when every number is m times the one before plus c, modulo 2^32. */
  function Term(m: nat, c: nat, s: nat, n: nat): nat {
    (Power(m, n) * s + c * Geometric(m, n)) % WORD
  }

  lemma TermNext(m: nat, c: nat, s: nat, n: nat)
    ensures Term(m, c, s, n + 1) == (m * Term(m, c, s, n) + c) % WORD
  {
    var p, g := Power(m, n), Geometric(m, n);
    OneMore(m, c, s, p, g);
    StepWraps(m, c, p * s + c * g);
  }

  lemma TermZero(m: nat, c: nat, s: nat)
    requires s < WORD
    ensures Term(m, c, s, 0) == s
  {
  }

  lemma OneMore(m: nat, c: nat, s: nat, p: nat, g: nat)
    ensures m * p * s + c * (1 + m * g) == m * (p * s + c * g) + c
  {
    assert m * p * s == m * (p * s);
    assert c * (1 + m * g) == c + c * (m * g);
    assert c * (m * g) == m * (c * g);
    assert m * (p * s + c * g) == m * (p * s) + m * (c * g);
  }

  lemma StepWraps(m: nat, c: nat, a: nat)
    ensures (m * a + c) % WORD == (m * (a % WORD) + c) % WORD
  {
    var q, r := a / WORD, a % WORD;
    var low := m * r + c;
    assert m * a == m * q * WORD + m * r;
    QuotientUnique(m * a + c, WORD, m * q + low / WORD, low % WORD);
  }

  // ------------------------------------------------------------------
  // Sums.

  function Sum(f: nat -> nat, n: nat): nat {
    if n == 0 then 0 else Sum(f, n - 1) + f(n - 1)
  }

  function Product(a: nat, b: nat): nat { a * b }

  /** A sum modulo 2^32 with one summand more. */
  lemma SumNext(f: nat -> nat, n: nat, acc: nat)
    requires acc == Sum(f, n) % WORD
    ensures (acc + f(n)) % WORD == Sum(f, n + 1) % WORD
  {
    SumWraps(Sum(f, n), f(n));
  }

  lemma SumWraps(a: nat, b: nat)
    ensures (a % WORD + b) % WORD == (a + b) % WORD
  {
    var q, r := a / WORD, a % WORD;
    QuotientUnique(a + b, WORD, q + (r + b) / WORD, (r + b) % WORD);
  }
}
