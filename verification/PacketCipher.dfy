/** The packet cipher: a feedback substitution cipher with three checksums. */
module PacketCipher {
  import opened Bytes
  import opened ByteFrame
  import opened ExclusiveOr

  const WORD := 0x1_0000_0000

  /** The encrypting and decrypting substitutions and the shared key stream. */
  datatype Tables = Tables(encrypt: byte -> byte, decrypt: byte -> byte, shared: byte -> byte)
  {
    /** All that decryption needs to know of them. */
    ghost predicate Invert() {
      forall i: byte :: decrypt(encrypt(i)) == i
    }
  }

  /** derived key, previous plain byte, and the three accumulators, all modulo 2^32 where Go wraps. */
  datatype Cipher = Cipher(key: nat, shared: byte, acc0: nat, acc1: nat, acc2: nat)

  datatype Checks = Checks(combined: nat, check0: nat, check1: nat, check2: nat)

  function TruncatedKey(rotKey: nat, overrideKey: Maybe<byte>): byte {
    if overrideKey.Just? then overrideKey.value else rotKey / 2 % 999983 % 256
  }

  function Start(size: nat, rotKey: nat, overrideKey: Maybe<byte>): Cipher {
    Cipher(size % WORD * (TruncatedKey(rotKey, overrideKey) + 1) % WORD, 1, 0, 0, 0)
  }

  function NextKey(key: nat): nat {
    (1277 * key + 1277) % WORD
  }

  function Shifted(b: byte, i: nat): nat {
    match i % 8
    case 0 => b
    case 1 => b * 2
    case 2 => b * 4
    case 3 => b * 8
    case 4 => b * 16
    case 5 => b * 32
    case 6 => b * 64
    case _ => b * 128
  }

  /** Byte i of a packet. The substituted index is the plain byte mixed with the key. */
  function EncryptStep(t: Tables, c: Cipher, plain: byte, i: nat): (byte, Cipher) {
    var index := Xor(c.key / 1024 % 256, plain);
    var keyByte := t.encrypt(index);
    (Xor(t.shared(c.shared), keyByte),
     Cipher(NextKey(c.key), plain,
            (c.acc0 + Shifted(keyByte, i)) % WORD,
            (c.acc1 + index) % WORD,
            (c.acc2 + c.shared * plain) % WORD))
  }

  function DecryptStep(t: Tables, c: Cipher, coded: byte, i: nat): (byte, Cipher) {
    var index := Xor(coded, t.shared(c.shared));
    var keyByte := t.decrypt(index);
    var plain := Xor(c.key / 1024 % 256, keyByte);
    (plain,
     Cipher(NextKey(c.key), plain,
            (c.acc0 + Shifted(index, i)) % WORD,
            (c.acc1 + keyByte) % WORD,
            (c.acc2 + c.shared * plain) % WORD))
  }

  function Run(t: Tables, c: Cipher, data: seq<byte>, i: nat, encrypt: bool): (r: (seq<byte>, Cipher))
    requires i <= |data|
    ensures |r.0| == |data| - i
    decreases |data| - i
  {
    if i == |data| then ([], c)
    else
      var (b, c1) := if encrypt then EncryptStep(t, c, data[i], i) else DecryptStep(t, c, data[i], i);
      var (bs, c2) := Run(t, c1, data, i + 1, encrypt);
      ([b] + bs, c2)
  }

  /** The low half of a 32-bit word xor its high half. */
  function Fold(acc: nat): nat {
    XorBits(acc % 0x1_0000, acc / 0x1_0000 % 0x1_0000, 16)
  }

  function ChecksOf(c: Cipher): Checks {
    Checks((c.acc1 + c.acc0 / 2 + c.acc2 / 4) % 0x1_0000, Fold(c.acc0), Fold(c.acc1), Fold(c.acc2))
  }

  function Ciphered(t: Tables, data: seq<byte>, rotKey: nat, encrypt: bool, overrideKey: Maybe<byte>): (r: (seq<byte>, Checks))
    ensures |r.0| == |data|
  {
    var (out, c) := Run(t, Start(|data|, rotKey, overrideKey), data, 0, encrypt);
    (out, ChecksOf(c))
  }

  /** The generalized routine, one loop for each direction. */
  method Crypto(t: Tables, data: seq<byte>, rotKey: nat, encrypt: bool, overrideKey: Maybe<byte>)
    returns (outputData: seq<byte>, checks: Checks)
    ensures (outputData, checks) == Ciphered(t, data, rotKey, encrypt, overrideKey)
  {
    var derivedCryptKey := |data| % WORD * (TruncatedKey(rotKey, overrideKey) + 1) % WORD;
    var end;
    if encrypt {
      outputData, end := EncryptLoop(t, data, derivedCryptKey);
    } else {
      outputData, end := DecryptLoop(t, data, derivedCryptKey);
    }
    checks := ChecksOf(end);
  }

  /** What is left to do at index i of data, after the bytes done. */
  ghost predicate OnCourse(t: Tables, c: Cipher, data: seq<byte>, i: nat, encrypt: bool, done: seq<byte>, goal: (seq<byte>, Cipher))
  {
    i <= |data| && goal == (done + Run(t, c, data, i, encrypt).0, Run(t, c, data, i, encrypt).1)
  }

  lemma CourseBegins(t: Tables, c: Cipher, data: seq<byte>, encrypt: bool)
    ensures OnCourse(t, c, data, 0, encrypt, [], Run(t, c, data, 0, encrypt))
  {
    var (out, end) := Run(t, c, data, 0, encrypt);
    assert [] + out == out;
  }

  lemma CourseEnds(t: Tables, c: Cipher, data: seq<byte>, encrypt: bool, done: seq<byte>, goal: (seq<byte>, Cipher))
    requires OnCourse(t, c, data, |data|, encrypt, done, goal)
    ensures goal == (done, c)
  {
    assert done + [] == done;
  }

  lemma CourseKept(t: Tables, c: Cipher, data: seq<byte>, i: nat, encrypt: bool, done: seq<byte>, goal: (seq<byte>, Cipher), b: byte, c1: Cipher)
    requires i < |data| && OnCourse(t, c, data, i, encrypt, done, goal)
    requires (b, c1) == if encrypt then EncryptStep(t, c, data[i], i) else DecryptStep(t, c, data[i], i)
    ensures OnCourse(t, c1, data, i + 1, encrypt, done + [b], goal)
  {
    assert done + ([b] + Run(t, c1, data, i + 1, encrypt).0) == done + [b] + Run(t, c1, data, i + 1, encrypt).0;
  }

  method EncryptLoop(t: Tables, data: seq<byte>, key: nat) returns (outputData: seq<byte>, end: Cipher)
    ensures (outputData, end) == Run(t, Cipher(key, 1, 0, 0, 0), data, 0, true)
  {
    var derivedCryptKey: nat, sharedBufIdx: byte := key, 1;
    var accumulator0: nat, accumulator1: nat, accumulator2: nat := 0, 0, 0;
    outputData := [];
    ghost var goal := Run(t, Cipher(key, 1, 0, 0, 0), data, 0, true);
    CourseBegins(t, Cipher(key, 1, 0, 0, 0), data, true);
    for i := 0 to |data|
      invariant OnCourse(t, Cipher(derivedCryptKey, sharedBufIdx, accumulator0, accumulator1, accumulator2), data, i, true, outputData, goal)
    {
      ghost var c := Cipher(derivedCryptKey, sharedBufIdx, accumulator0, accumulator1, accumulator2);
      ghost var done := outputData;
      var encKeyIdx := Xor(derivedCryptKey / 1024 % 256, data[i]);
      derivedCryptKey := NextKey(derivedCryptKey);
      var encKeyByte := t.encrypt(encKeyIdx);
      accumulator2 := (accumulator2 + sharedBufIdx * data[i]) % WORD;
      accumulator1 := (accumulator1 + encKeyIdx) % WORD;
      accumulator0 := (accumulator0 + Shifted(encKeyByte, i)) % WORD;
      var coded := Xor(t.shared(sharedBufIdx), encKeyByte);
      outputData := outputData + [coded];
      sharedBufIdx := data[i];
      CourseKept(t, c, data, i, true, done, goal, coded,
                 Cipher(derivedCryptKey, sharedBufIdx, accumulator0, accumulator1, accumulator2));
    }
    end := Cipher(derivedCryptKey, sharedBufIdx, accumulator0, accumulator1, accumulator2);
    CourseEnds(t, end, data, true, outputData, goal);
  }

  method DecryptLoop(t: Tables, data: seq<byte>, key: nat) returns (outputData: seq<byte>, end: Cipher)
    ensures (outputData, end) == Run(t, Cipher(key, 1, 0, 0, 0), data, 0, false)
  {
    var derivedCryptKey: nat, sharedBufIdx: byte := key, 1;
    var accumulator0: nat, accumulator1: nat, accumulator2: nat := 0, 0, 0;
    outputData := [];
    ghost var goal := Run(t, Cipher(key, 1, 0, 0, 0), data, 0, false);
    CourseBegins(t, Cipher(key, 1, 0, 0, 0), data, false);
    for i := 0 to |data|
      invariant OnCourse(t, Cipher(derivedCryptKey, sharedBufIdx, accumulator0, accumulator1, accumulator2), data, i, false, outputData, goal)
    {
      ghost var c := Cipher(derivedCryptKey, sharedBufIdx, accumulator0, accumulator1, accumulator2);
      ghost var done := outputData;
      var oldSharedBufIdx := sharedBufIdx;
      var tIdx := Xor(data[i], t.shared(sharedBufIdx));
      var decKeyByte := t.decrypt(tIdx);
      sharedBufIdx := Xor(derivedCryptKey / 1024 % 256, decKeyByte);
      accumulator0 := (accumulator0 + Shifted(tIdx, i)) % WORD;
      accumulator1 := (accumulator1 + decKeyByte) % WORD;
      accumulator2 := (accumulator2 + oldSharedBufIdx * sharedBufIdx) % WORD;
      outputData := outputData + [sharedBufIdx];
      derivedCryptKey := NextKey(derivedCryptKey);
      CourseKept(t, c, data, i, false, done, goal, sharedBufIdx,
                 Cipher(derivedCryptKey, sharedBufIdx, accumulator0, accumulator1, accumulator2));
    }
    end := Cipher(derivedCryptKey, sharedBufIdx, accumulator0, accumulator1, accumulator2);
    CourseEnds(t, end, data, false, outputData, goal);
  }

  // ------------------------------------------------------------------
  // Decryption undoes encryption, byte by byte and checksum by checksum.

  lemma StepUndone(t: Tables, c: Cipher, plain: byte, i: nat)
    requires t.Invert()
    ensures var (coded, next) := EncryptStep(t, c, plain, i);
            DecryptStep(t, c, coded, i) == (plain, next)
  {
    var k: byte := c.key / 1024 % 256;
    var index := Xor(k, plain);
    var keyByte := t.encrypt(index);
    var coded := Xor(t.shared(c.shared), keyByte);
    assert Xor(coded, t.shared(c.shared)) == keyByte by {
      XorCommutes(t.shared(c.shared), keyByte);
      XorUndone(keyByte, t.shared(c.shared));
    }
    assert t.decrypt(keyByte) == index;
    assert Xor(k, index) == plain by {
      XorUndone(plain, k);
    }
  }

  lemma {:induction false} RunUndone(t: Tables, c: Cipher, data: seq<byte>, coded: seq<byte>, i: nat)
    requires t.Invert() && i <= |data| == |coded|
    requires coded[i..] == Run(t, c, data, i, true).0
    ensures Run(t, c, coded, i, false) == (data[i..], Run(t, c, data, i, true).1)
    decreases |data| - i
  {
    if i < |data| {
      var (b, next) := EncryptStep(t, c, data[i], i);
      var (bs, end) := Run(t, next, data, i + 1, true);
      StepUndone(t, c, data[i], i);
      assert coded[i] == coded[i..][0] == b;
      assert coded[i + 1..] == coded[i..][1..] == bs;
      RunUndone(t, next, data, coded, i + 1);
      assert data[i..] == [data[i]] + data[i + 1..];
    } else {
      assert data[i..] == [];
    }
  }

  /** With the same keys, decryption returns the plain bytes and all four checksums agree. */
  lemma DecryptsEncrypted(t: Tables, data: seq<byte>, rotKey: nat, overrideKey: Maybe<byte>)
    requires t.Invert()
    ensures var (coded, checks) := Ciphered(t, data, rotKey, true, overrideKey);
            Ciphered(t, coded, rotKey, false, overrideKey) == (data, checks)
  {
    var coded := Ciphered(t, data, rotKey, true, overrideKey).0;
    assert coded[0..] == coded && data[0..] == data;
    RunUndone(t, Start(|data|, rotKey, overrideKey), data, coded, 0);
  }
}
