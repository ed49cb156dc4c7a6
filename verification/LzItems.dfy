/** The forms of the JPK stream, bit by bit, and the raw run, which only foreign encoders use. */
module LzItems {
  import opened Bytes
  import opened ByteFrame
  import opened LzFormat
  import opened LzDecoder
  import opened LzRoundTrip

  function Digit(on: bool): nat { if on then 1 else 0 }

  // ------------------------------------------------------------------
  // The forms of a token.

  /** A letter, or a match of the short form: two bits for the length, one byte for the offset. */
  lemma ShortForms(t: Token)
    requires t.Encodable()
    ensures t.Literal? ==> TokenEvents(t) == [Bit(false), Byte(t.value)]
    ensures t.Match? && t.length <= 6 && t.offset < 256 ==>
              exists b1, b0 :: TokenEvents(t) == [Bit(true), Bit(false), Bit(b1), Bit(b0), Byte(t.offset)]
                && t.length == 3 + 2 * Digit(b1) + Digit(b0)
  {
    if t.Match? && t.length <= 6 && t.offset < 256 {
      var v := t.length - 3;
      var b1, b0 := v / 2 % 2 == 1, v % 2 == 1;
      assert BitEvents(v, 2) == [Bit(b1)] + BitEvents(v, 1);
      assert BitEvents(v, 1) == [Bit(b0)] + [];
      assert TokenEvents(t) == [Bit(true), Bit(false), Bit(b1), Bit(b0), Byte(t.offset)];
    }
  }

  /** A match of the long form: two bytes, in front of them two set bits, behind them the rest of the length. */
  lemma LongForms(t: Token)
    requires t.Match? && t.Encodable() && (t.length > 6 || t.offset >= 256)
    ensures exists hi: byte, lo: byte, tail :: TokenEvents(t) == [Bit(true), Bit(true), Byte(hi), Byte(lo)] + tail
              && LongTail(t, hi, lo, tail)
  {
    var hi, lo := HeaderHolds(t);
    var tail := LengthEvents(t.length);
    assert TokenEvents(t) == [Bit(true), Bit(true), Byte(hi), Byte(lo)] + tail;
    if 10 <= t.length <= 25 {
      LengthForms(t.length);
    }
    assert LongTail(t, hi, lo, tail);
  }

  /** Up to 9 bytes the length shares the two bytes with the offset; up to 25 it has four bits, and beyond a byte. */
  ghost predicate LongTail(t: Token, hi: byte, lo: byte, tail: seq<Event>)
    requires t.Match?
  {
    if t.length <= 9 then hi * 256 + lo == (t.length - 2) * 0x2000 + t.offset && tail == []
    else
      && hi * 256 + lo == t.offset
      && if t.length <= 25 then FourBits(t.length - 10, tail) else t.length <= 280 && tail == [Bit(true), Byte(t.length - 26)]
  }

  ghost predicate FourBits(v: nat, tail: seq<Event>) {
    exists b3, b2, b1, b0 :: tail == [Bit(false), Bit(b3), Bit(b2), Bit(b1), Bit(b0)]
      && v == 8 * Digit(b3) + 4 * Digit(b2) + 2 * Digit(b1) + Digit(b0)
  }

  lemma LengthForms(length: nat)
    requires 10 <= length <= 25
    ensures FourBits(length - 10, LengthEvents(length))
  {
    FourDigits(length - 10);
  }

  lemma FourDigits(v: nat)
    requires v < 16
    ensures FourBits(v, [Bit(false)] + BitEvents(v, 4))
  {
    var b3, b2, b1, b0 := v / 8 % 2 == 1, v / 4 % 2 == 1, v / 2 % 2 == 1, v % 2 == 1;
    ThreeDigits(v, b2, b1, b0);
    assert BitEvents(v, 4) == [Bit(b3)] + [Bit(b2), Bit(b1), Bit(b0)];
    DigitsJoin(v, b3, b2, b1, b0);
    assert [Bit(false)] + BitEvents(v, 4) == [Bit(false), Bit(b3), Bit(b2), Bit(b1), Bit(b0)];
  }

  lemma ThreeDigits(v: nat, b2: bool, b1: bool, b0: bool)
    requires b2 == (v / 4 % 2 == 1) && b1 == (v / 2 % 2 == 1) && b0 == (v % 2 == 1)
    ensures BitEvents(v, 3) == [Bit(b2), Bit(b1), Bit(b0)]
  {
    assert BitEvents(v, 1) == [Bit(b0)] + [];
    assert BitEvents(v, 2) == [Bit(b1)] + [Bit(b0)];
    assert BitEvents(v, 3) == [Bit(b2)] + [Bit(b1), Bit(b0)];
  }

  lemma DigitsJoin(v: nat, b3: bool, b2: bool, b1: bool, b0: bool)
    requires v < 16
    requires b3 == (v / 8 % 2 == 1) && b2 == (v / 4 % 2 == 1) && b1 == (v / 2 % 2 == 1) && b0 == (v % 2 == 1)
    ensures v == 8 * Digit(b3) + 4 * Digit(b2) + 2 * Digit(b1) + Digit(b0)
  {
  }

  // ------------------------------------------------------------------
  // The raw run.

  function ByteEvents(xs: seq<byte>): seq<Event> {
    if xs == [] then [] else [Byte(xs[0])] + ByteEvents(xs[1..])
  }

  /** Three set bits around an offset, the byte 0xFF, and then the bytes as they are, 27 more than the offset says. */
  function RawEvents(hi: byte, lo: byte, xs: seq<byte>): seq<Event> {
    [Bit(true)] + ([Bit(true)] + ([Byte(hi)] + ([Byte(lo)] + ([Bit(true)] + ([Byte(0xFF)] + ByteEvents(xs))))))
  }

  lemma RawReads(r: Reader, hi: byte, lo: byte, more: seq<Event>, whole: bool) returns (r1: Reader)
    requires hi < 32
    requires Faces(r, [Bit(true)] + ([Bit(true)] + ([Byte(hi)] + ([Byte(lo)] + ([Bit(true)] + ([Byte(0xFF)] + more))))), whole)
    ensures NextItem(r) == (Raw(hi * 256 + lo + 27), r1) && Faces(r1, more, whole)
  {
    var tail := [Bit(true)] + ([Byte(0xFF)] + more);
    var offset: nat := hi * 256 + lo;
    var r2 := PairReads(r, hi, lo, offset, tail, whole);
    r1 := EscapeReads(r2, offset, more, whole);
  }

  lemma PairReads(r: Reader, hi: byte, lo: byte, offset: nat, tail: seq<Event>, whole: bool) returns (r2: Reader)
    requires hi < 32 && offset == hi * 256 + lo
    requires Faces(r, [Bit(true)] + ([Bit(true)] + ([Byte(hi)] + ([Byte(lo)] + tail))), whole)
    ensures Faces(r2, tail, whole) && NextItem(r) == NextLength(r2, 0, offset)
  {
    var r0 := FlagsRead(r, true, [Byte(hi)] + ([Byte(lo)] + tail), whole);
    var length: nat := hi / 32;
    assert length == 0 && hi % 32 == hi;
    r2 := TwoBytes(r0, hi, lo, length, offset, tail, whole);
  }

  lemma EscapeReads(r: Reader, offset: nat, more: seq<Event>, whole: bool) returns (r1: Reader)
    requires Faces(r, [Bit(true)] + ([Byte(0xFF)] + more), whole)
    ensures NextLength(r, 0, offset) == (Raw(offset + 27), r1) && Faces(r1, more, whole)
  {
    ReadOne(r, Bit(true), [Byte(0xFF)] + more, whole);
    var next := NextBit(r).1;
    ReadOne(next, Byte(0xFF), more, whole);
    r1 := ReaderByte(next).1;
  }

  lemma {:induction false} RawSpells(r: Reader, out: seq<byte>, xs: seq<byte>, n: nat, more: seq<Event>, whole: bool)
    requires Faces(r, ByteEvents(xs) + more, whole) && |out| + |xs| <= n
    ensures Continues(RawRun(r, out, |xs|, n), out + xs, more, whole)
    decreases |xs|
  {
    if xs == [] {
      assert ByteEvents(xs) + more == more;
      assert out + xs == out;
    } else {
      var rest := ByteEvents(xs[1..]) + more;
      assert ByteEvents(xs) + more == [Byte(xs[0])] + rest;
      ReadOne(r, Byte(xs[0]), rest, whole);
      RawSpells(ReaderByte(r).1, out + [xs[0]], xs[1..], n, more, whole);
      assert out + [xs[0]] + xs[1..] == out + xs;
    }
  }

  /** In front of a raw run of the length its offset announces, one step of the decoder appends its bytes. */
  lemma RawStep(r: Reader, out: seq<byte>, hi: byte, lo: byte, xs: seq<byte>, n: nat, more: seq<Event>, whole: bool)
    requires hi < 32 && |xs| == hi * 256 + lo + 27 && |out| + |xs| <= n
    requires Faces(r, RawEvents(hi, lo, xs) + more, whole)
    ensures Continues(Step(r, out, n), out + xs, more, whole)
  {
    var tail := ByteEvents(xs) + more;
    assert RawEvents(hi, lo, xs) + more
        == [Bit(true)] + ([Bit(true)] + ([Byte(hi)] + ([Byte(lo)] + ([Bit(true)] + ([Byte(0xFF)] + tail)))));
    var r1 := RawReads(r, hi, lo, tail, whole);
    RawSpells(r1, out, xs, n, more, whole);
  }
}
