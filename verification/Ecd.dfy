/** The ECD stream cipher: a linear congruential key stream, nibble mixing and plaintext feedback. */
module Ecd {
  import opened Bytes
  import opened ExclusiveOr

  const HEADER_SIZE := 16
  const MAGIC := 0x1A646365
  const KEY_COUNT := 6
  const WORD := 0x1_0000_0000

  datatype Result = Ok(value: seq<byte>) | TooSmall | InvalidMagic | InvalidKey | SizeExceedsBuffer

  function Multiplier(key: nat): nat
    requires key < KEY_COUNT
  {
    match key
    case 0 => 0x4A4B522E
    case 1 => 0x00010DCD
    case 2 => 0x00010DCD
    case 3 => 0x00010DCD
    case 4 => 0x0019660D
    case 5 => 0x7D2B89DD
  }

  function Increment(key: nat): nat
    requires key < KEY_COUNT
  {
    if key == 4 then 3 else 1
  }

  function NextRnd(key: nat, rnd: nat): nat
    requires key < KEY_COUNT
  {
    (rnd * Multiplier(key) + Increment(key)) % WORD
  }

  /** The checksum with its halves exchanged and its lowest bit set. */
  function Seed(checksum: nat): nat {
    var turned := checksum % 0x1_0000 * 0x1_0000 + checksum / 0x1_0000;
    if turned % 2 == 0 then turned + 1 else turned
  }

  // ------------------------------------------------------------------
  // The nibble mixing.

  /**
   * r11 and r12 of the source and the key bits not used yet. Both registers start as bytes
   * and are masked to a byte in every round, so only the low byte of the key counts.
   */
  datatype Mix = Mix(r11: byte, r12: byte, pad: nat)

  function Round(m: Mix): Mix {
    Mix(m.r12, Xor(m.r12, Xor(m.pad % 0x100, m.r11)), m.pad / 0x10)
  }

  function Rounds(m: Mix, n: nat): Mix
    decreases n
  {
    if n == 0 then m else Rounds(Round(m), n - 1)
  }

  lemma Regroup(a: byte, b: byte, x: byte, y: byte, k: byte)
    ensures Xor(Xor(b, y), Xor(k, Xor(a, x))) == Xor(Xor(a, b), Xor(y, Xor(k, x)))
  {
    // b y k a x  ==  a b y k x
    var kx, mixed := Xor(k, x), Xor(b, y);
    XorAssociates(k, a, x);
    XorCommutes(k, a);
    XorAssociates(a, k, x);
    XorAssociates(mixed, a, kx);
    XorCommutes(mixed, a);
    XorAssociates(a, b, y);
    XorAssociates(Xor(a, b), y, kx);
  }

  /** How one round acts on a start state mixed into a keyed one. */
  lemma RoundSuperposes(m: Mix, a: byte, b: byte, keyed: Mix)
    requires m == Mix(Xor(a, keyed.r11), Xor(b, keyed.r12), keyed.pad)
    ensures Round(m) == Mix(Xor(b, Round(keyed).r11), Xor(Xor(a, b), Round(keyed).r12), Round(keyed).pad)
  {
    Regroup(a, b, keyed.r11, keyed.r12, keyed.pad % 0x100);
  }

  /** The linear part maps (a, b) to (b, a xor b). */
  function Turned(a: byte, b: byte, n: nat): (byte, byte)
    decreases n
  {
    if n == 0 then (a, b) else Turned(b, Xor(a, b), n - 1)
  }

  /** It has order three. */
  lemma ThreeTurns(a: byte, b: byte, n: nat)
    ensures Turned(a, b, n + 3) == Turned(a, b, n)
  {
    var ab := Xor(a, b);
    TurnsBack(a, b);
    assert Turned(a, b, n + 3) == Turned(b, ab, n + 2);
    assert Turned(b, ab, n + 2) == Turned(ab, a, n + 1);
    assert Turned(ab, a, n + 1) == Turned(a, b, n);
  }

  lemma TurnsBack(a: byte, b: byte)
    ensures Xor(b, Xor(a, b)) == a && Xor(Xor(a, b), a) == b
  {
    XorCommutes(a, b);
    XorUndone(b, a);
    XorUndone(a, b);
  }

  /** n rounds from any state are the rounds from the keyed state, xor the turned difference. */
  lemma {:induction false} RoundsSuperpose(m: Mix, a: byte, b: byte, keyed: Mix, n: nat)
    requires m == Mix(Xor(a, keyed.r11), Xor(b, keyed.r12), keyed.pad)
    ensures Rounds(m, n).r11 == Xor(Turned(a, b, n).0, Rounds(keyed, n).r11)
    ensures Rounds(m, n).r12 == Xor(Turned(a, b, n).1, Rounds(keyed, n).r12)
    decreases n
  {
    if n > 0 {
      RoundSuperposes(m, a, b, keyed);
      RoundsSuperpose(Round(m), b, Xor(a, b), Round(keyed), n - 1);
    }
  }

  /** Eight rounds act like two: mixing from (a, b) is mixing from zero, xor (a xor b, a). */
  lemma EightRounds(a: byte, b: byte, pad: nat)
    ensures Rounds(Mix(a, b, pad), 8).r11 == Xor(Xor(a, b), Rounds(Mix(0, 0, pad), 8).r11)
    ensures Rounds(Mix(a, b, pad), 8).r12 == Xor(a, Rounds(Mix(0, 0, pad), 8).r12)
  {
    XorZero(a);
    XorZero(b);
    RoundsSuperpose(Mix(a, b, pad), a, b, Mix(0, 0, pad), 8);
    EightTurns(a, b);
  }

  lemma EightTurns(a: byte, b: byte)
    ensures Turned(a, b, 8) == (Xor(a, b), a)
  {
    ThreeTurns(a, b, 5);
    ThreeTurns(a, b, 2);
    TurnsBack(a, b);
    assert Turned(a, b, 2) == Turned(b, Xor(a, b), 1) == Turned(Xor(a, b), Xor(b, Xor(a, b)), 0);
  }

  // ------------------------------------------------------------------
  // One byte.

  /** (high & 0xF) << 4 | low & 0xF */
  function Nibbles(high: byte, low: byte): byte {
    high % 16 * 16 + low % 16
  }

  function DecodeByte(coded: byte, feedback: byte, pad: nat): byte {
    var r11 := Xor(coded, feedback);
    var end := Rounds(Mix(r11, r11 / 16, pad), 8);
    Nibbles(end.r11, end.r12)
  }

  function EncodeByte(plain: byte, feedback: byte, pad: nat): byte {
    var zero := Rounds(Mix(0, 0, pad), 8);
    var dig2 := Xor(plain, zero.r12);
    var dig1 := Xor(Xor(plain / 16, zero.r11), dig2);
    Xor(Nibbles(dig1, dig2), feedback)
  }

  lemma NibbleEqual(a: byte, b: byte, c: byte, d: byte)
    requires a % 16 == c % 16 && b % 16 == d % 16
    ensures Xor(a, b) % 16 == Xor(c, d) % 16
  {
    XorNibble(a, b);
    XorNibble(c, d);
  }

  /** What the decoder mixes in, from the two digits the encoder put into the byte. */
  lemma DigitsUndone(plain: byte, p: byte, q: byte)
    ensures var dig2 := Xor(plain, q);
            var dig1 := Xor(Xor(plain / 16, p), dig2);
            var v := Nibbles(dig1, dig2);
            Nibbles(Xor(Xor(v, v / 16), p), Xor(v, q)) == plain
  {
    var dig2 := Xor(plain, q);
    var h := Xor(plain / 16, p);
    var dig1 := Xor(h, dig2);
    var v: byte := Nibbles(dig1, dig2);
    NibblesHold(dig1, dig2);
    LowDigit(plain, q, v);
    HighDigit(plain, p, dig2, v);
    NibblesJoin(Xor(Xor(v, v / 16), p), Xor(v, q), plain);
  }

  lemma NibblesHold(high: byte, low: byte)
    ensures Nibbles(high, low) % 16 == low % 16 && Nibbles(high, low) / 16 % 16 == high % 16
  {
  }

  lemma NibblesJoin(high: byte, low: byte, v: byte)
    requires high % 16 == v / 16 && low % 16 == v % 16
    ensures Nibbles(high, low) == v
  {
  }

  /** The low digit xor q is the plain low digit again. */
  lemma LowDigit(plain: byte, q: byte, v: byte)
    requires v % 16 == Xor(plain, q) % 16
    ensures Xor(v, q) % 16 == plain % 16
  {
    NibbleEqual(v, q, Xor(plain, q), q);
    XorUndone(plain, q);
  }

  /** The two digits xor to the plain high digit mixed with p. */
  lemma HighDigit(plain: byte, p: byte, dig2: byte, v: byte)
    requires v % 16 == dig2 % 16 && v / 16 % 16 == Xor(Xor(plain / 16, p), dig2) % 16
    ensures Xor(Xor(v, v / 16), p) % 16 == plain / 16
  {
    var h := Xor(plain / 16, p);
    MixedDigit(h, dig2, v);
    Unmixed(Xor(v, v / 16), h, plain / 16, p);
  }

  lemma Unmixed(m: byte, h: byte, x: byte, p: byte)
    requires m % 16 == h % 16 && h == Xor(x, p) && x < 16
    ensures Xor(m, p) % 16 == x
  {
    NibbleEqual(m, p, h, p);
    XorUndone(x, p);
  }

  lemma MixedDigit(h: byte, dig2: byte, v: byte)
    requires v % 16 == dig2 % 16 && v / 16 % 16 == Xor(h, dig2) % 16
    ensures Xor(v, v / 16) % 16 == h % 16
  {
    NibbleEqual(v, v / 16, dig2, Xor(h, dig2));
    XorCommutes(h, dig2);
    XorUndone(h, dig2);
  }

  /** Decoding undoes encoding with the same key word and feedback. */
  lemma ByteUndone(plain: byte, feedback: byte, pad: nat)
    ensures DecodeByte(EncodeByte(plain, feedback, pad), feedback, pad) == plain
  {
    var zero := Rounds(Mix(0, 0, pad), 8);
    var dig2 := Xor(plain, zero.r12);
    var dig1 := Xor(Xor(plain / 16, zero.r11), dig2);
    var v := Nibbles(dig1, dig2);
    XorUndone(v, feedback);
    EightRounds(v, v / 16, pad);
    DigitsUndone(plain, zero.r11, zero.r12);
  }

  // ------------------------------------------------------------------
  // The stream.

  function EncodeFrom(data: seq<byte>, i: nat, key: nat, rnd: nat, feedback: byte): (r: seq<byte>)
    requires i <= |data| && key < KEY_COUNT
    ensures |r| == |data| - i
    decreases |data| - i
  {
    if i == |data| then []
    else
      var next := NextRnd(key, rnd);
      [EncodeByte(data[i], feedback, next)] + EncodeFrom(data, i + 1, key, next, data[i])
  }

  function DecodeFrom(coded: seq<byte>, i: nat, key: nat, rnd: nat, feedback: byte): (r: seq<byte>)
    requires i <= |coded| && key < KEY_COUNT
    ensures |r| == |coded| - i
    decreases |coded| - i
  {
    if i == |coded| then []
    else
      var next := NextRnd(key, rnd);
      var plain := DecodeByte(coded[i], feedback, next);
      [plain] + DecodeFrom(coded, i + 1, key, next, plain)
  }

  /** Both streams start from the seed advanced once, and its low byte as feedback. */
  function EncodedPayload(data: seq<byte>, key: nat, checksum: nat): seq<byte>
    requires key < KEY_COUNT
  {
    var rnd := NextRnd(key, Seed(checksum));
    EncodeFrom(data, 0, key, rnd, rnd % 0x100)
  }

  function DecodedPayload(coded: seq<byte>, key: nat, checksum: nat): seq<byte>
    requires key < KEY_COUNT
  {
    var rnd := NextRnd(key, Seed(checksum));
    DecodeFrom(coded, 0, key, rnd, rnd % 0x100)
  }

  /** The key words and the feedback bytes of both directions stay equal at every index. */
  lemma {:induction false} StreamUndone(data: seq<byte>, coded: seq<byte>, i: nat, key: nat, rnd: nat, feedback: byte)
    requires i <= |data| == |coded| && key < KEY_COUNT
    requires coded[i..] == EncodeFrom(data, i, key, rnd, feedback)
    ensures DecodeFrom(coded, i, key, rnd, feedback) == data[i..]
    decreases |data| - i
  {
    if i < |data| {
      var next := NextRnd(key, rnd);
      ByteUndone(data[i], feedback, next);
      assert coded[i] == coded[i..][0];
      assert coded[i + 1..] == coded[i..][1..];
      StreamUndone(data, coded, i + 1, key, next, data[i]);
      assert data[i..] == [data[i]] + data[i + 1..];
    } else {
      assert data[i..] == [];
    }
  }

  // ------------------------------------------------------------------
  // Containers.

  function Container(data: seq<byte>, key: nat, checksum: nat): seq<byte>
    requires key < KEY_COUNT
  {
    Encode(MAGIC, 4, Little) + Encode(key, 2, Little) + Zeros(2) + Encode(|data|, 4, Little)
    + Encode(checksum, 4, Little) + EncodedPayload(data, key, checksum)
  }

  function Field(data: seq<byte>, at: nat, size: nat): nat
    requires at + size <= |data|
  {
    Decode(data[at..at + size], Little)
  }

  function Opened(data: seq<byte>): Result {
    if |data| < HEADER_SIZE then TooSmall
    else if Field(data, 0, 4) != MAGIC then InvalidMagic
    else if Field(data, 4, 2) >= KEY_COUNT then InvalidKey
    else if |data| < HEADER_SIZE + Field(data, 8, 4) then SizeExceedsBuffer
    else Ok(DecodedPayload(data[HEADER_SIZE..HEADER_SIZE + Field(data, 8, 4)], Field(data, 4, 2), Field(data, 12, 4)))
  }

  /** checksum stands for the CRC32 of data, which is a library call. */
  method EncodeECD(data: seq<byte>, key: int, checksum: nat) returns (r: Result)
    ensures r == if 0 <= key < KEY_COUNT then Ok(Container(data, key, checksum)) else InvalidKey
  {
    if key < 0 || key >= KEY_COUNT {
      return InvalidKey;
    }
    var header := Encode(MAGIC, 4, Little) + Encode(key, 2, Little) + Zeros(2) + Encode(|data|, 4, Little)
                  + Encode(checksum, 4, Little);
    var rnd := NextRnd(key, Seed(checksum));
    var r8: byte := rnd % 0x100;
    var out := [];
    for i := 0 to |data|
      invariant rnd >= 0
      invariant out + EncodeFrom(data, i, key, rnd, r8) == EncodedPayload(data, key, checksum)
    {
      ghost var before := out;
      rnd := NextRnd(key, rnd);
      var m := Mix(0, 0, rnd);
      var j := 0;
      while j < 8
        invariant j <= 8 && Rounds(m, 8 - j) == Rounds(Mix(0, 0, rnd), 8)
      {
        m := Round(m);
        j := j + 1;
      }
      var dig2 := Xor(data[i], m.r12);
      var dig1 := Xor(Xor(data[i] / 16, m.r11), dig2);
      var rr := Xor(Nibbles(dig1, dig2), r8);
      assert rr == EncodeByte(data[i], r8, rnd);
      out := out + [rr];
      assert before + ([rr] + EncodeFrom(data, i + 1, key, rnd, data[i])) == out + EncodeFrom(data, i + 1, key, rnd, data[i]);
      r8 := data[i];
    }
    assert out + [] == out;
    r := Ok(header + out);
  }

  method DecodeECD(data: seq<byte>) returns (r: Result)
    ensures r == Opened(data)
  {
    if |data| < HEADER_SIZE {
      return TooSmall;
    }
    if Field(data, 0, 4) != MAGIC {
      return InvalidMagic;
    }
    var key := Field(data, 4, 2);
    if key >= KEY_COUNT {
      return InvalidKey;
    }
    var payloadSize := Field(data, 8, 4);
    if |data| < HEADER_SIZE + payloadSize {
      return SizeExceedsBuffer;
    }
    ghost var coded := data[HEADER_SIZE..HEADER_SIZE + payloadSize];
    var rnd := NextRnd(key, Seed(Field(data, 12, 4)));
    var r8: byte := rnd % 0x100;
    var out := [];
    for i := 0 to payloadSize
      invariant rnd >= 0
      invariant out + DecodeFrom(coded, i, key, rnd, r8) == DecodedPayload(coded, key, Field(data, 12, 4))
    {
      ghost var before, feedback := out, r8;
      rnd := NextRnd(key, rnd);
      var r11 := Xor(data[HEADER_SIZE + i], r8);
      var m := Mix(r11, r11 / 16, rnd);
      ghost var start := m;
      var j := 0;
      while j < 8
        invariant j <= 8 && Rounds(m, 8 - j) == Rounds(start, 8)
      {
        m := Round(m);
        j := j + 1;
      }
      r8 := Nibbles(m.r11, m.r12);
      assert r8 == DecodeByte(coded[i], feedback, rnd);
      out := out + [r8];
      assert before + ([r8] + DecodeFrom(coded, i + 1, key, rnd, r8)) == out + DecodeFrom(coded, i + 1, key, rnd, r8);
    }
    assert out + [] == out;
    r := Ok(out);
  }

  /** Decoding an encoded container returns the data, for every key and whatever the checksum is. */
  lemma ContainerRoundTrip(data: seq<byte>, key: nat, checksum: nat)
    requires |data| < WORD && key < KEY_COUNT && checksum < WORD
    ensures Opened(Container(data, key, checksum)) == Ok(data)
  {
    var c := Container(data, key, checksum);
    var coded := EncodedPayload(data, key, checksum);
    DecodeEncode(MAGIC, 4, Little);
    DecodeEncode(key, 2, Little);
    DecodeEncode(|data|, 4, Little);
    DecodeEncode(checksum, 4, Little);
    assert c[0..4] == Encode(MAGIC, 4, Little);
    assert c[4..6] == Encode(key, 2, Little);
    assert c[8..12] == Encode(|data|, 4, Little);
    assert c[12..16] == Encode(checksum, 4, Little);
    assert c[16..16 + |data|] == coded;
    var rnd := NextRnd(key, Seed(checksum));
    assert coded[0..] == coded && data[0..] == data;
    StreamUndone(data, coded, 0, key, rnd, rnd % 0x100);
  }
}
