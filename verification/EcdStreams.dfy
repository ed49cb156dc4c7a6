/** The ECD cipher byte by byte: what eight rounds mix in, and what is at each index of a container. */
module EcdStreams {
  import opened Bytes
  import opened ExclusiveOr
  import opened Ecd
  import K = KeyStreams

  // ------------------------------------------------------------------
  // Rounds, solved.

  lemma Middle(a: byte, b: byte, c: byte, d: byte)
    ensures Xor(Xor(a, b), Xor(c, d)) == Xor(Xor(a, c), Xor(b, d))
  {
    XorAssociates(a, b, Xor(c, d));
    XorAssociates(b, c, d);
    XorCommutes(b, c);
    XorAssociates(c, b, d);
    XorAssociates(a, c, Xor(b, d));
  }

  lemma Cancels(a: byte, b: byte, c: byte)
    ensures Xor(Xor(a, b), Xor(a, c)) == Xor(b, c)
  {
    Middle(a, b, a, c);
    XorZero(a);
    XorUndone(0, a);
    XorZero(Xor(b, c));
  }

  /** The second of two rounds leaves x mixed with both key bytes. */
  lemma SecondRound(x: byte, y: byte, k: byte, k': byte)
    ensures Xor(Xor(y, Xor(k, x)), Xor(k', y)) == Xor(x, Xor(k, k'))
  {
    XorCommutes(k', y);
    Cancels(y, Xor(k, x), k');
    XorCommutes(k, x);
    XorAssociates(x, k, k');
  }

  /** And the third leaves y mixed with the last two. */
  lemma ThirdRound(x: byte, y: byte, k: byte, k': byte, k'': byte)
    ensures Xor(Xor(x, Xor(k, k')), Xor(k'', Xor(y, Xor(k, x)))) == Xor(y, Xor(k', k''))
  {
    var u := Xor(k, x);
    XorAssociates(x, k, k');
    XorCommutes(k, x);
    XorAssociates(k'', y, u);
    XorCommutes(Xor(k'', y), u);
    Cancels(u, k', Xor(k'', y));
    XorAssociates(k', k'', y);
    XorCommutes(Xor(k', k''), y);
  }

  /** Three rounds mix two key bytes into each register, whatever the registers hold. */
  lemma ThreeRounds(m: Mix)
    ensures var k0: byte, k1: byte, k2: byte := m.pad % 0x100, m.pad / 0x10 % 0x100, m.pad / 0x100 % 0x100;
            Rounds(m, 3) == Mix(Xor(m.r11, Xor(k0, k1)), Xor(m.r12, Xor(k1, k2)), m.pad / 0x1000)
  {
    var x, y := m.r11, m.r12;
    var k0: byte, k1: byte, k2: byte := m.pad % 0x100, m.pad / 0x10 % 0x100, m.pad / 0x100 % 0x100;
    var m1 := Round(m);
    var m2 := Round(m1);
    var m3 := Round(m2);
    SecondRound(x, y, k0, k1);
    ThirdRound(x, y, k0, k1, k2);
    assert m1.pad / 0x10 == m.pad / 0x100;
    assert m2.pad / 0x10 == m.pad / 0x1000;
    assert m2.r12 == Xor(m1.r12, Xor(k1, y));
    assert m3.r12 == Xor(m2.r12, Xor(k2, m1.r12));
    assert Rounds(m, 3) == Rounds(m1, 2) == Rounds(m2, 1) == Rounds(m3, 0);
  }

  lemma RoundsSplit(m: Mix, n: nat)
    ensures Rounds(m, n + 3) == Rounds(Rounds(m, 3), n)
  {
    var m1 := Round(m);
    var m2 := Round(m1);
    assert Rounds(m, n + 3) == Rounds(m1, n + 2) == Rounds(m2, n + 1) == Rounds(Round(m2), n);
    assert Rounds(m, 3) == Rounds(m1, 2) == Rounds(m2, 1) == Rounds(Round(m2), 0);
  }

  lemma TwoRounds(m: Mix)
    ensures var k: byte, k': byte := m.pad % 0x100, m.pad / 0x10 % 0x100;
            Rounds(m, 2) == Mix(Xor(Xor(m.r12, m.r11), k), Xor(m.r11, Xor(k, k')), m.pad / 0x100)
  {
    var x, y := m.r11, m.r12;
    var k: byte, k': byte := m.pad % 0x100, m.pad / 0x10 % 0x100;
    SecondRound(x, y, k, k');
    XorCommutes(k, x);
    XorAssociates(y, x, k);
    var m1 := Round(m);
    assert m1.pad / 0x10 == m.pad / 0x100;
    assert Rounds(m, 2) == Rounds(m1, 1) == Rounds(Round(m1), 0);
  }

  /** Byte j of a key word is what round j uses: bits 4j to 4j + 7. */
  function KeyBytes(pad: nat): (ks: seq<byte>)
    ensures |ks| == 8
  {
    [pad % 0x100, pad / 0x10 % 0x100, pad / 0x100 % 0x100, pad / 0x1000 % 0x100,
     pad / 0x1_0000 % 0x100, pad / 0x10_0000 % 0x100, pad / 0x100_0000 % 0x100, pad / 0x1000_0000 % 0x100]
  }

  /** What eight rounds mix into the first register: the key bytes of five of the rounds. */
  function First(ks: seq<byte>): byte
    requires |ks| == 8
  {
    Xor(Xor(Xor(ks[0], ks[2]), Xor(ks[3], ks[5])), ks[6])
  }

  /** And into the second: those of six. */
  function Second(ks: seq<byte>): byte
    requires |ks| == 8
  {
    Xor(Xor(Xor(ks[0], ks[1]), Xor(ks[3], ks[4])), Xor(ks[6], ks[7]))
  }

  lemma FirstIs(ks: seq<byte>)
    requires |ks| == 8
    ensures Xor(Xor(Xor(Xor(ks[1], ks[2]), Xor(ks[4], ks[5])), Xor(Xor(ks[0], ks[1]), Xor(ks[3], ks[4]))), ks[6]) == First(ks)
  {
    Middle(Xor(ks[1], ks[2]), Xor(ks[4], ks[5]), Xor(ks[0], ks[1]), Xor(ks[3], ks[4]));
    Drops(ks[0], ks[1], ks[2]);
    Drops(ks[3], ks[4], ks[5]);
  }

  lemma Drops(a: byte, b: byte, c: byte)
    ensures Xor(Xor(b, c), Xor(a, b)) == Xor(a, c)
  {
    XorCommutes(a, b);
    Cancels(b, c, a);
    XorCommutes(c, a);
  }

  lemma ZeroRounds(pad: nat)
    ensures var ks := KeyBytes(pad); var m := Rounds(Mix(0, 0, pad), 8); m.r11 == First(ks) && m.r12 == Second(ks)
  {
    var ks := KeyBytes(pad);
    var m3 := SixthRound(Mix(0, 0, pad), 5);
    XorZero(Xor(ks[0], ks[1]));
    XorZero(Xor(ks[1], ks[2]));
    var m6 := SixthRound(m3, 2);
    Shifts(pad);
    TwoRounds(m6);
    FirstIs(ks);
  }

  /** The registers after three rounds of n + 3. */
  lemma SixthRound(m: Mix, n: nat) returns (m3: Mix)
    ensures Rounds(m, n + 3) == Rounds(m3, n)
    ensures var k0: byte, k1: byte, k2: byte := m.pad % 0x100, m.pad / 0x10 % 0x100, m.pad / 0x100 % 0x100;
            m3 == Mix(Xor(m.r11, Xor(k0, k1)), Xor(m.r12, Xor(k1, k2)), m.pad / 0x1000)
  {
    m3 := Rounds(m, 3);
    ThreeRounds(m);
    RoundsSplit(m, n);
  }

  lemma Shifts(pad: nat)
    ensures pad / 0x1000 / 0x10 == pad / 0x1_0000 && pad / 0x1000 / 0x100 == pad / 0x10_0000
    ensures pad / 0x1000 / 0x1000 == pad / 0x100_0000 && pad / 0x1000 / 0x1000 / 0x10 == pad / 0x1000_0000
  {
  }

  // ------------------------------------------------------------------
  // The payload.

  const MULTIPLIERS: seq<nat> := [0x4A4B522E, 0x1_0DCD, 0x1_0DCD, 0x1_0DCD, 0x19_660D, 0x7D2B_89DD]
  const INCREMENTS: seq<nat> := [1, 1, 1, 1, 3, 1]

  /** The checksum turned by sixteen bits, with its last bit set. */
  function FirstWord(checksum: nat): nat {
    (checksum % 0x1_0000 * 0x1_0000 + checksum / 0x1_0000) / 2 * 2 + 1
  }

  /** The n-th word of the key stream, in closed form. */
  function WordAt(key: nat, checksum: nat, n: nat): nat
    requires key < 6
  {
    K.Term(MULTIPLIERS[key], INCREMENTS[key], FirstWord(checksum), n)
  }

  lemma WordNext(key: nat, checksum: nat, n: nat)
    requires key < 6
    ensures WordAt(key, checksum, n + 1) == NextRnd(key, WordAt(key, checksum, n))
  {
    var m, c, x := MULTIPLIERS[key], INCREMENTS[key], WordAt(key, checksum, n);
    K.TermNext(m, c, FirstWord(checksum), n);
    assert m == Multiplier(key) && c == Increment(key);
    assert x * m == m * x;
  }

  /** The coded form of x: its digits mixed with those of the key word, the high one with the low one too. */
  ghost predicate Codes(x: byte, ks: seq<byte>, feedback: byte, coded: byte)
    requires |ks| == 8
  {
    var low := Xor(x, Second(ks));
    var high := Xor(Xor(x / 16, First(ks)), low);
    coded == Xor(high % 16 * 16 + low % 16, feedback)
  }

  lemma EncodeByteFrom(x: byte, feedback: byte, pad: nat, zero: Mix)
    requires zero == Rounds(Mix(0, 0, pad), 8)
    ensures var low := Xor(x, zero.r12); var high := Xor(Xor(x / 16, zero.r11), low);
            EncodeByte(x, feedback, pad) == Xor(high % 16 * 16 + low % 16, feedback)
  {
  }

  lemma EncodeByteIs(x: byte, feedback: byte, pad: nat)
    ensures Codes(x, KeyBytes(pad), feedback, EncodeByte(x, feedback, pad))
  {
    ZeroRounds(pad);
    var zero := Rounds(Mix(0, 0, pad), 8);
    EncodeByteFrom(x, feedback, pad, zero);
    CodesFrom(x, KeyBytes(pad), feedback, EncodeByte(x, feedback, pad), zero.r11, zero.r12);
  }

  lemma CodesFrom(x: byte, ks: seq<byte>, feedback: byte, coded: byte, p: byte, q: byte)
    requires |ks| == 8 && p == First(ks) && q == Second(ks)
    requires var low := Xor(x, q); var high := Xor(Xor(x / 16, p), low); coded == Xor(high % 16 * 16 + low % 16, feedback)
    ensures Codes(x, ks, feedback, coded)
  {
  }

  lemma {:induction false} EncodeFromAt(data: seq<byte>, i: nat, key: nat, checksum: nat, feedback: byte, j: nat)
    requires i <= j < |data| && key < 6
    ensures Codes(data[j], KeyBytes(WordAt(key, checksum, j + 2)), if i < j then data[j - 1] else feedback,
                  EncodeFrom(data, i, key, WordAt(key, checksum, i + 1), feedback)[j - i])
    decreases |data| - i
  {
    WordNext(key, checksum, i + 1);
    if i == j {
      EncodeByteIs(data[i], feedback, WordAt(key, checksum, i + 2));
    } else {
      EncodeFromAt(data, i + 1, key, checksum, data[i], j);
    }
  }

  /**
   * Byte j of the payload, behind a header of sixteen bytes: coded under word j + 2 of the key stream, with the byte
   * before it mixed in, or the low byte of word 1 in front of the first.
   */
  lemma PayloadAt(data: seq<byte>, key: nat, checksum: nat, j: nat)
    requires j < |data| && key < 6
    ensures Codes(data[j], KeyBytes(WordAt(key, checksum, j + 2)),
                  if j > 0 then data[j - 1] else WordAt(key, checksum, 1) % 0x100,
                  Container(data, key, checksum)[16 + j])
  {
    assert WordAt(key, checksum, 1) == NextRnd(key, Seed(checksum)) by {
      FirstWordIs(key, checksum);
    }
    EncodeFromAt(data, 0, key, checksum, WordAt(key, checksum, 1) % 0x100, j);
  }

  lemma FirstWordIs(key: nat, checksum: nat)
    requires key < 6
    ensures WordAt(key, checksum, 1) == NextRnd(key, Seed(checksum))
  {
    var m, s := MULTIPLIERS[key], FirstWord(checksum);
    assert s == Seed(checksum);
    assert K.Power(m, 1) == m && K.Geometric(m, 1) == 1;
    assert m * s == s * m;
  }

  /** The sixteen bytes in front of it. */
  lemma ContainerHeader(data: seq<byte>, key: nat, checksum: nat)
    requires key < 6
    ensures var n := |data|;
            Container(data, key, checksum)[..16] ==
              [0x65, 0x63, 0x64, 0x1A] + [key, 0] + [0, 0]
              + [n % 0x100, n / 0x100 % 0x100, n / 0x1_0000 % 0x100, n / 0x100_0000 % 0x100]
              + [checksum % 0x100, checksum / 0x100 % 0x100, checksum / 0x1_0000 % 0x100, checksum / 0x100_0000 % 0x100]
  {
    HeaderParts(Encode(MAGIC, 4, Little), Encode(key, 2, Little), Zeros(2), Encode(|data|, 4, Little),
                Encode(checksum, 4, Little), EncodedPayload(data, key, checksum));
    MagicBytes();
    SmallKey(key, key % 0x100, key / 0x100 % 0x100);
    EncodeFour(|data|);
    EncodeFour(checksum);
    assert Zeros(2) == [0, 0];
  }

  lemma SmallKey(key: nat, low: nat, high: nat)
    requires key < 0x100 && low == key % 0x100 && high == key / 0x100 % 0x100
    ensures Encode(key, 2, Little) == [key, 0]
  {
    EncodeTwo(key);
    assert low == key && high == 0;
    assert Encode(key, 2, Little) == [low, high];
  }

  lemma MagicBytes()
    ensures Encode(MAGIC, 4, Little) == [0x65, 0x63, 0x64, 0x1A]
  {
    EncodeFour(MAGIC);
  }

  lemma HeaderParts(a: seq<byte>, b: seq<byte>, c: seq<byte>, d: seq<byte>, e: seq<byte>, rest: seq<byte>)
    requires |a| == |d| == |e| == 4 && |b| == |c| == 2
    ensures (a + b + c + d + e + rest)[..16] == (a + b + c) + d + e
  {
  }
}
