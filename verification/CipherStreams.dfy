/** The packet cipher byte by byte: what is at each index of an encrypted packet, and what the checksums sum up. */
module CipherStreams {
  import opened Bytes
  import opened ByteFrame
  import opened ExclusiveOr
  import opened PacketCipher
  import K = KeyStreams

  /** The key before the first byte, for a packet of that size. */
  function FirstKey(size: nat, rotKey: nat, overrideKey: Maybe<byte>): nat {
    var small := if overrideKey.Just? then overrideKey.value else rotKey / 2 % 999983 % 256;
    size * (small + 1) % 0x1_0000_0000
  }

  /** The key at index i: multiplied by 1277 and increased by 1277 i times. */
  function KeyAt(k: nat, i: nat): nat {
    K.Term(1277, 1277, k, i)
  }

  function Before(data: seq<byte>, i: nat): byte {
    if 0 < i <= |data| then data[i - 1] else 1
  }

  /** The index into the substitution, a byte of the key mixed with a plain byte. */
  function IndexAt(data: seq<byte>, k: nat, i: nat): byte {
    if i < |data| then Xor(KeyAt(k, i) / 1024 % 256, data[i]) else 0
  }

  /** What each byte adds to the three sums. */
  function Weighted(t: Tables, data: seq<byte>, k: nat): nat -> nat {
    (i: nat) => K.Product(t.encrypt(IndexAt(data, k, i)), K.Power(2, i % 8))
  }

  function Indexed(data: seq<byte>, k: nat): nat -> nat {
    (i: nat) => IndexAt(data, k, i)
  }

  function Neighbours(data: seq<byte>): nat -> nat {
    (i: nat) => if i < |data| then K.Product(Before(data, i), data[i]) else 0
  }

  /** The state in front of index i. */
  ghost predicate At(t: Tables, c: Cipher, data: seq<byte>, k: nat, i: nat) {
    && c.key == KeyAt(k, i) && c.shared == Before(data, i)
    && c.acc0 == K.Sum(Weighted(t, data, k), i) % 0x1_0000_0000
    && c.acc1 == K.Sum(Indexed(data, k), i) % 0x1_0000_0000
    && c.acc2 == K.Sum(Neighbours(data), i) % 0x1_0000_0000
  }

  lemma ShiftedIs(b: byte, i: nat)
    ensures Shifted(b, i) == K.Product(b, K.Power(2, i % 8))
  {
    assert K.Power(2, 3) == 8 && K.Power(2, 6) == 64 && K.Power(2, 7) == 128;
  }

  lemma StepAt(t: Tables, c: Cipher, data: seq<byte>, k: nat, i: nat)
    requires At(t, c, data, k, i) && i < |data|
    ensures var (b, next) := EncryptStep(t, c, data[i], i);
            b == Xor(t.shared(Before(data, i)), t.encrypt(IndexAt(data, k, i))) && At(t, next, data, k, i + 1)
  {
    K.TermNext(1277, 1277, k, i);
    SumsAt(t, c, data, k, i);
    SummandsAt(t, data, k, i);
  }

  /** What index i adds. */
  lemma SummandsAt(t: Tables, data: seq<byte>, k: nat, i: nat)
    requires i < |data|
    ensures Weighted(t, data, k)(i) == Shifted(t.encrypt(IndexAt(data, k, i)), i)
    ensures Indexed(data, k)(i) == IndexAt(data, k, i)
    ensures Neighbours(data)(i) == K.Product(Before(data, i), data[i])
  {
    ShiftedIs(t.encrypt(IndexAt(data, k, i)), i);
  }

  lemma SumsAt(t: Tables, c: Cipher, data: seq<byte>, k: nat, i: nat)
    requires At(t, c, data, k, i) && i < |data|
    ensures K.Sum(Weighted(t, data, k), i + 1) % 0x1_0000_0000 == (c.acc0 + Weighted(t, data, k)(i)) % 0x1_0000_0000
    ensures K.Sum(Indexed(data, k), i + 1) % 0x1_0000_0000 == (c.acc1 + Indexed(data, k)(i)) % 0x1_0000_0000
    ensures K.Sum(Neighbours(data), i + 1) % 0x1_0000_0000 == (c.acc2 + Neighbours(data)(i)) % 0x1_0000_0000
  {
    K.SumNext(Weighted(t, data, k), i, c.acc0);
    K.SumNext(Indexed(data, k), i, c.acc1);
    K.SumNext(Neighbours(data), i, c.acc2);
  }

  lemma {:induction false} RunAt(t: Tables, c: Cipher, data: seq<byte>, k: nat, i: nat, j: nat)
    requires At(t, c, data, k, i) && i <= |data|
    ensures At(t, Run(t, c, data, i, true).1, data, k, |data|)
    ensures i <= j < |data| ==>
              Run(t, c, data, i, true).0[j - i] == Xor(t.shared(Before(data, j)), t.encrypt(IndexAt(data, k, j)))
    decreases |data| - i
  {
    if i < |data| {
      StepAt(t, c, data, k, i);
      RunAt(t, EncryptStep(t, c, data[i], i).1, data, k, i + 1, j);
    }
  }

  /** The first key of the whole packet. */
  lemma StartAt(t: Tables, data: seq<byte>, rotKey: nat, overrideKey: Maybe<byte>)
    ensures At(t, Start(|data|, rotKey, overrideKey), data, FirstKey(|data|, rotKey, overrideKey), 0)
  {
    var n, small: nat := |data|, TruncatedKey(rotKey, overrideKey);
    SizeWraps(n, small + 1);
    K.TermZero(1277, 1277, FirstKey(n, rotKey, overrideKey));
  }

  lemma SizeWraps(n: nat, m: nat)
    ensures n % 0x1_0000_0000 * m % 0x1_0000_0000 == n * m % 0x1_0000_0000
  {
    K.StepWraps(m, 0, n);
    assert m * n == n * m;
    assert m * (n % 0x1_0000_0000) == n % 0x1_0000_0000 * m;
  }

  /**
   * The byte at index j of an encrypted packet is the substituted plain byte under the byte of the shared key that the
   * plain byte before it selects, with the key byte of that index mixed in first.
   */
  lemma EncryptedAt(t: Tables, data: seq<byte>, rotKey: nat, overrideKey: Maybe<byte>, j: nat)
    requires j < |data|
    ensures var k := FirstKey(|data|, rotKey, overrideKey);
            Ciphered(t, data, rotKey, true, overrideKey).0[j]
            == Xor(t.shared(if j == 0 then 1 else data[j - 1]), t.encrypt(Xor(KeyAt(k, j) / 1024 % 256, data[j])))
  {
    StartAt(t, data, rotKey, overrideKey);
    RunAt(t, Start(|data|, rotKey, overrideKey), data, FirstKey(|data|, rotKey, overrideKey), 0, j);
  }

  /** The combined check, and the halves of each sum mixed. */
  ghost predicate ChecksFrom(checks: Checks, a0: nat, a1: nat, a2: nat) {
    && checks.combined == (a1 + a0 / 2 + a2 / 4) % 0x1_0000
    && checks.check0 == XorBits(a0 % 0x1_0000, a0 / 0x1_0000, 16)
    && checks.check1 == XorBits(a1 % 0x1_0000, a1 / 0x1_0000, 16)
    && checks.check2 == XorBits(a2 % 0x1_0000, a2 / 0x1_0000, 16)
  }

  lemma FoldIs(acc: nat)
    requires acc < 0x1_0000_0000
    ensures Fold(acc) == XorBits(acc % 0x1_0000, acc / 0x1_0000, 16)
  {
    assert acc / 0x1_0000 % 0x1_0000 == acc / 0x1_0000;
  }

  lemma StateChecks(c: Cipher)
    requires c.acc0 < 0x1_0000_0000 && c.acc1 < 0x1_0000_0000 && c.acc2 < 0x1_0000_0000
    ensures ChecksFrom(ChecksOf(c), c.acc0, c.acc1, c.acc2)
  {
    FoldIs(c.acc0);
    FoldIs(c.acc1);
    FoldIs(c.acc2);
  }

  lemma EndAt(t: Tables, data: seq<byte>, rotKey: nat, overrideKey: Maybe<byte>) returns (c: Cipher)
    ensures At(t, c, data, FirstKey(|data|, rotKey, overrideKey), |data|)
    ensures Ciphered(t, data, rotKey, true, overrideKey).1 == ChecksOf(c)
  {
    c := Run(t, Start(|data|, rotKey, overrideKey), data, 0, true).1;
    StartAt(t, data, rotKey, overrideKey);
    RunAt(t, Start(|data|, rotKey, overrideKey), data, FirstKey(|data|, rotKey, overrideKey), 0, 0);
  }

  /** The four checks of a packet, from three sums over its bytes. */
  lemma ChecksAre(t: Tables, data: seq<byte>, rotKey: nat, overrideKey: Maybe<byte>)
    ensures var k := FirstKey(|data|, rotKey, overrideKey);
            ChecksFrom(Ciphered(t, data, rotKey, true, overrideKey).1,
                       K.Sum(Weighted(t, data, k), |data|) % 0x1_0000_0000,
                       K.Sum(Indexed(data, k), |data|) % 0x1_0000_0000,
                       K.Sum(Neighbours(data), |data|) % 0x1_0000_0000)
  {
    var c := EndAt(t, data, rotKey, overrideKey);
    StateChecks(c);
  }
}
