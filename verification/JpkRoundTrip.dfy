/** What unpacking a packed byte string gives back, for every byte string. */
module JpkRoundTrip {
  import opened Bytes
  import opened ByteFrame
  import opened LzFormat
  import opened LzDecoder
  import opened LzRoundTrip
  import opened LzTail
  import opened Jpk
  import LzEncoder

  const SIZE_LIMIT := 0x8000_0000

  /** One header field. */
  lemma ReadField(f: Frame, value: nat, size: nat)
    requires f.Valid() && !f.err && f.order.Little? && f.index + size <= f.used && value < Pow256(size)
    requires f.buf[f.index..f.index + size] == Encode(value, size, Little)
    ensures f.ReadUnsigned(size) == (value, f.(index := f.index + size))
    ensures f.ReadSigned(size) == (Signed(value, size), f.(index := f.index + size))
  {
    DecodeEncode(value, size, Little);
  }

  lemma ReadHeader(p: seq<byte>, kind: nat, size: nat)
    requires kind < 0x1_0000 && size < SIZE_LIMIT && |p| >= HEADER_SIZE && p[..HEADER_SIZE] == Header(kind, size)
    ensures ReadInfo(p) == Info(JKR_MAGIC, kind, HEADER_SIZE, size, FrameOf(p).(order := Little, index := HEADER_SIZE))
  {
    var f, h := FrameOf(p).(order := Little), Header(kind, size);
    assert p[0..4] == h[0..4] == Encode(JKR_MAGIC, 4, Little);
    ReadField(f, JKR_MAGIC, 4);
    assert p[6..8] == h[6..8] == Encode(kind, 2, Little);
    ReadField(f.(index := 6), kind, 2);
    assert p[8..12] == h[8..12] == Encode(HEADER_SIZE, 4, Little);
    ReadField(f.(index := 8), HEADER_SIZE, 4);
    assert p[12..16] == h[12..16] == Encode(size, 4, Little);
    ReadField(f.(index := 12), size, 4);
  }

  /** The sixteen bytes of a header. */
  lemma HeaderIs(kind: nat, size: nat)
    ensures Header(kind, size) ==
            [0x4A, 0x4B, 0x52, 0x1A] + [8, 1] + [kind % 0x100, kind / 0x100 % 0x100] + [16, 0, 0, 0]
            + [size % 0x100, size / 0x100 % 0x100, size / 0x1_0000 % 0x100, size / 0x100_0000 % 0x100]
  {
    FixedFields();
    EncodeTwo(kind);
    EncodeFour(size);
  }

  lemma FixedFields()
    ensures Encode(JKR_MAGIC, 4, Little) == [0x4A, 0x4B, 0x52, 0x1A]
    ensures Encode(0x0108, 2, Little) == [8, 1] && Encode(HEADER_SIZE, 4, Little) == [16, 0, 0, 0]
  {
    EncodeFour(JKR_MAGIC);
    EncodeTwo(0x0108);
    EncodeFour(HEADER_SIZE);
  }

  const UINT := 0x1_0000_0000_0000_0000

  /** The check before a read of width bytes at a 64-bit cursor, in size bytes: the end of the read wraps. */
  predicate Checks(index: nat, width: nat, size: nat) {
    (index + width) % UINT <= size
  }

  /**
   * A negative start becomes a cursor far behind the data. Unpacking panics there if and only if its first read, of a
   * flag byte or of the two bytes of the table length, passes the check because its end wraps.
   */
  lemma WrappedIff(info: Info)
    requires -0x8000_0000 <= info.start < 0 <= info.size && (info.kind == 3 || info.kind == 4)
    requires 2 <= |info.after.buf| < UINT / 2
    ensures var index := info.start + UINT;
            && index >= |info.after.buf|
            && (Wrapped(info) == Panicked <==>
                !info.after.err && if info.kind == 3 then info.size > 0 && Checks(index, 1, |info.after.buf|) else Checks(index, 2, |info.after.buf|))
  {
    var n := |info.after.buf|;
    WrapsOnly(info.start, 1, n);
    WrapsOnly(info.start, 2, n);
  }

  lemma WrapsOnly(start: int, width: nat, size: nat)
    requires -0x8000_0000 <= start < 0 && width <= 2 <= size < UINT / 2
    ensures Checks(start + UINT, width, size) <==> start + width >= 0
  {
    var e := start + UINT + width;
    if start + width >= 0 {
      QuotientUnique(e, UINT, 1, start + width);
    } else {
      QuotientUnique(e, UINT, 0, e);
    }
  }

  lemma ReadPackedInfo(data: seq<byte>)
    requires |data| < SIZE_LIMIT
    ensures var info := ReadInfo(Packed(data));
            && info.magic == JKR_MAGIC && info.kind == 3 && info.start == HEADER_SIZE && info.size == |data|
            && info.after == FrameOf(Packed(data)).(order := Little, index := HEADER_SIZE)
  {
    ReadHeader(Packed(data), 3, |data|);
  }

  /** r has read nothing and stands before the compressed form of data. */
  ghost predicate BeforeEncoded(r: Reader, data: seq<byte>) {
    && r.Sound() && r.src.Plain? && r.shift == 0
    && r.src.frame.used == |r.src.frame.buf| && !r.src.frame.err
    && Unread(r.src.frame) == LzEncoder.Encoded(data)
  }

  lemma DecodedWhole(r: Reader, data: seq<byte>)
    requires BeforeEncoded(r, data) && LzEncoder.FinalState(data).pending != []
    ensures var o := Decoded(r, [], |data|); o.Done? && o.out == data && !o.rest.src.frame.err
  {
    var ts, es := LzEncoder.Greedy(data, 0), LzEncoder.EncodeEvents(data, 0);
    LzEncoder.GreedySpells(data, 0);
    SpellsEncodable(ts, data, 0);
    EncodedWhole(data);
    assert Faces(r, es, true);
    assert data[..0] == [];
    DecodedSpells(r, ts, es, data, 0, |data|, true);
  }

  lemma DecodedCut(r: Reader, data: seq<byte>)
    requires BeforeEncoded(r, data) && data != [] && LzEncoder.FinalState(data).pending == []
    ensures Lost(data) <= |data| && Lost(data) < 16
    ensures var o := Decoded(r, [], |data|); o.Done? && o.out == data[..|data| - Lost(data)]
  {
    var ts := DroppedTail(data);
    var short, es := data[..|data| - Lost(data)], Events(ts);
    assert Faces(r, es, false);
    assert short[..0] == [];
    DecodedSpells(r, ts, es, short, 0, |data|, false);
  }

  lemma DecodedAfterEncoded(r: Reader, data: seq<byte>)
    requires BeforeEncoded(r, data)
    ensures Lost(data) <= |data| && Lost(data) < 16
    ensures var o := Decoded(r, [], |data|); o.Done? && o.out == data[..|data| - Lost(data)]
  {
    if data == [] {
    } else if LzEncoder.FinalState(data).pending != [] {
      DecodedWhole(r, data);
    } else {
      DecodedCut(r, data);
    }
  }

  /**
   * Unpacking a packed byte string returns it with its last Lost(data) bytes, never more than
   * fifteen, replaced by zeros, and never indexes out of bounds.
   */
  lemma UnpackAfterPack(data: seq<byte>)
    requires |data| < SIZE_LIMIT
    ensures Lost(data) <= |data| && Lost(data) <= 15
    ensures Unpacked(Packed(data)) == Bytes(data[..|data| - Lost(data)] + Zeros(Lost(data)))
  {
    ReadPackedInfo(data);
    var r := Reader(SourceOf(ReadInfo(Packed(data))), 0, 0);
    assert Unread(r.src.frame) == LzEncoder.Encoded(data);
    DecodedAfterEncoded(r, data);
  }

  /** The round trip succeeds exactly when the bytes that are lost were zeros. */
  lemma RoundTripIff(data: seq<byte>)
    requires |data| < SIZE_LIMIT
    ensures Lost(data) <= |data|
    ensures Unpacked(Packed(data)) == Bytes(data) <==>
            forall i :: |data| - Lost(data) <= i < |data| ==> data[i] == 0
  {
    UnpackAfterPack(data);
    var k := Lost(data);
    var back := data[..|data| - k] + Zeros(k);
    if back == data {
      forall i | |data| - k <= i < |data| ensures data[i] == 0 {
        assert data[i] == back[i];
      }
    }
  }

  /** In particular it succeeds when the last flag group still holds a data byte. */
  lemma RoundTripWhole(data: seq<byte>)
    requires |data| < SIZE_LIMIT
    requires LzEncoder.FinalState(data).pending != [] || LzEncoder.FinalState(data).flag == 0
    ensures Unpacked(Packed(data)) == Bytes(data)
  {
    assert Lost(data) == 0 by {
      assert 0 / Pow2(LzEncoder.FinalState(data).shift) == 0;
    }
    RoundTripIff(data);
  }

  // ------------------------------------------------------------------
  // The guard is needed.

  const ALTERNATING: seq<byte> := [97, 98, 97, 98, 97, 98, 97, 98, 97, 98, 97, 98, 97]

  lemma AlternatingLetters()
    ensures LzEncoder.Choice(ALTERNATING, 0) == Literal(97) && LzEncoder.Choice(ALTERNATING, 1) == Literal(98)
  {
    LzEncoder.CommonLengthExact(ALTERNATING, 0, 1, 12, 0);
  }

  lemma AlternatingRest()
    ensures LzEncoder.Choice(ALTERNATING, 2) == Match(11, 1)
  {
    var d := ALTERNATING;
    LzEncoder.CommonLengthExact(d, 0, 2, 11, 0);
    LzEncoder.CommonLengthExact(d, 1, 2, 11, 0);
    assert LzEncoder.CommonLength(d, 0, 2, 11, 0) == 11;
    assert LzEncoder.CommonLength(d, 1, 2, 11, 0) == 0;
  }

  lemma AlternatingTokens()
    ensures LzEncoder.Greedy(ALTERNATING, 0) == [Literal(97), Literal(98), Match(11, 1)]
  {
    AlternatingLetters();
    AlternatingRest();
    ThreeChosen(ALTERNATING, Literal(97), Literal(98), Match(11, 1));
  }

  lemma ThreeChosen(d: seq<byte>, a: Token, b: Token, c: Token)
    requires |d| == 2 + c.Size() && a.Size() == b.Size() == 1 && LzEncoder.Choice(d, 0) == a && LzEncoder.Choice(d, 1) == b
    requires 2 < |d| && LzEncoder.Choice(d, 2) == c
    ensures LzEncoder.Greedy(d, 0) == [a, b, c]
  {
    assert LzEncoder.Greedy(d, |d|) == [];
    assert LzEncoder.Greedy(d, 2) == [c] + [];
    assert LzEncoder.Greedy(d, 1) == [b] + [c];
  }

  /** The state after those tokens: the last bit of the length 11 sits alone in a new group. */
  lemma AlternatingState(data: seq<byte>)
    requires LzEncoder.Greedy(data, 0) == [Literal(97), Literal(98), Match(11, 1)]
    ensures LzEncoder.FinalState(data) == LzEncoder.State([0x30, 97, 98, 0, 1], 0x80, 7, [])
  {
    ThreeTokens(Literal(97), Literal(98), Match(11, 1));
    var s1, s2 := LzEncoder.State([], 0, 7, [97]), LzEncoder.State([], 0, 6, [97, 98]);
    LzEncoder.LiteralForm(LzEncoder.Start, 97);
    assert LzEncoder.WriteAll(LzEncoder.Start, TokenEvents(Literal(97))) == s1;
    LzEncoder.LiteralForm(s1, 98);
    assert LzEncoder.WriteAll(s1, TokenEvents(Literal(98))) == s2;
    AlternatingMatch(s2);
  }

  lemma ThreeTokens(a: Token, b: Token, c: Token)
    requires a.Encodable() && b.Encodable() && c.Encodable()
    ensures LzEncoder.WriteAll(LzEncoder.Start, Events([a, b, c])) ==
            var s1 := LzEncoder.WriteAll(LzEncoder.Start, TokenEvents(a));
            LzEncoder.WriteAll(LzEncoder.WriteAll(s1, TokenEvents(b)), TokenEvents(c))
  {
    EventsSnoc([], a);
    EventsSnoc([a], b);
    EventsSnoc([a, b], c);
    assert [] + [a] == [a] && [a] + [b] == [a, b] && [a, b] + [c] == [a, b, c];
    assert Events([a]) == TokenEvents(a);
    LzEncoder.WriteAllAppend(LzEncoder.Start, TokenEvents(a), TokenEvents(b));
    LzEncoder.WriteAllAppend(LzEncoder.Start, TokenEvents(a) + TokenEvents(b), TokenEvents(c));
  }

  lemma AlternatingMatch(st: LzEncoder.State)
    requires st == LzEncoder.State([], 0, 6, [97, 98])
    ensures LzEncoder.WriteAll(st, TokenEvents(Match(11, 1))) == LzEncoder.State([0x30, 97, 98, 0, 1], 0x80, 7, [])
  {
    var s3 := LzEncoder.State([], 0x30, 4, [97, 98, 0, 1]);
    LzEncoder.LongForm(st, Match(11, 1));
    AlternatingHeader(st);
    LzEncoder.LengthForm(s3, 11);
    AlternatingLength();
  }

  lemma AlternatingHeader(st: LzEncoder.State)
    requires st == LzEncoder.State([], 0, 6, [97, 98])
    ensures LzEncoder.AfterHeader(st, Match(11, 1)) == LzEncoder.State([], 0x30, 4, [97, 98, 0, 1])
  {
    assert HeaderBytes(Match(11, 1)) == [Byte(0), Byte(1)];
    var t1 := LzEncoder.Write(st, Bit(true));
    assert t1 == LzEncoder.State([], 0x20, 5, [97, 98]);
    var t2 := LzEncoder.Write(t1, Bit(true));
    assert t2 == LzEncoder.State([], 0x30, 4, [97, 98]);
  }

  lemma AlternatingLength()
    ensures BitEvents(1, 4) == [Bit(false), Bit(false), Bit(false), Bit(true)]
  {
    FiveBitsAre(1);
    assert BitEvents(1, 4) == FiveBits(1)[1..];
  }

  /** "ababababababa" comes back with its last letter zeroed. */
  lemma AlternatingFails()
    ensures LzEncoder.Encoded(ALTERNATING) == [0x30, 97, 98, 0, 1]
    ensures Unpacked(Packed(ALTERNATING)) == Bytes(ALTERNATING[..12] + [0])
    ensures Unpacked(Packed(ALTERNATING)) != Bytes(ALTERNATING)
  {
    AlternatingTokens();
    LastLetterLost(ALTERNATING);
    OneByteZeroed(ALTERNATING);
  }

  lemma LastLetterLost(data: seq<byte>)
    requires |data| == 13 && LzEncoder.Greedy(data, 0) == [Literal(97), Literal(98), Match(11, 1)]
    ensures LzEncoder.Encoded(data) == [0x30, 97, 98, 0, 1]
    ensures Unpacked(Packed(data)) == Bytes(data[..12] + Zeros(1))
  {
    AlternatingState(data);
    assert Lost(data) == 1;
    UnpackAfterPack(data);
  }

  lemma OneByteZeroed(data: seq<byte>)
    requires |data| > 0 && data[|data| - 1] != 0
    ensures data[..|data| - 1] + Zeros(1) == data[..|data| - 1] + [0] != data
  {
    assert Zeros(1) == [0];
    assert (data[..|data| - 1] + [0])[|data| - 1] == 0;
  }

  // ------------------------------------------------------------------
  // The search is as good as any.

  /** No stretch of the window that repeats at pos, within the length limit, is longer than the match found. */
  lemma NoLongerMatch(data: seq<byte>, pos: nat, offset: nat, length: nat)
    requires offset < pos && offset < MAX_DISTANCE && length >= MIN_LENGTH
    requires pos + length <= |data| && length <= MAX_LENGTH && CopyOf(data, pos, offset, length)
    ensures var f := LzEncoder.LongestRepetition(data, pos, MAX_LENGTH, MAX_DISTANCE);
            f.length > length || (f.length == length && f.offset >= offset)
  {
    var limit := LzEncoder.Threshold(data, pos, MAX_LENGTH);
    LzEncoder.LongestIsLongest(data, pos, MAX_LENGTH, MAX_DISTANCE);
    var l := pos - offset - 1;
    LzEncoder.CommonLengthExact(data, l, pos, limit, 0);
    var c := LzEncoder.CommonLength(data, l, pos, limit, 0);
    assert c >= length by {
      var k := if c < length then pos + c else pos;
      assert data[k] == data[k - offset - 1];
    }
    assert LzEncoder.Beats(data, pos, limit, LzEncoder.LongestRepetition(data, pos, MAX_LENGTH, MAX_DISTANCE), l);
  }
}
