/** Decoding what any encoder of the format lays out. */
module LzRoundTrip {
  import opened Bytes
  import opened ByteFrame
  import opened LzFormat
  import opened LzDecoder

  /** The bytes of the input that have not been read. */
  function Unread(f: Frame): seq<byte>
    requires f.Valid()
  {
    f.buf[f.index..]
  }

  /** f goes on as wire says. Unless whole, f may lack one final zero: reads beyond the end yield zero. */
  ghost predicate GoesOn(f: Frame, wire: seq<byte>, whole: bool)
  {
    && f.Valid() && f.used == |f.buf|
    && (f.err ==> f.index == f.used && !whole)
    && (Unread(f) == wire || (!whole && Unread(f) + [0] == wire))
  }

  /** The reader stands before the events es. */
  ghost predicate Faces(r: Reader, es: seq<Event>, whole: bool)
  {
    && r.Sound() && r.src.Plain?
    && (r.shift > 0 ==> r.flag % Pow2(r.shift) == FlagBits(es, r.shift))
    && GoesOn(r.src.frame, Wire(es, r.shift), whole)
  }

  /** Reading the head of an input that may lack one final zero byte. */
  lemma TakeHead(f: Frame, head: byte, tail: seq<byte>, whole: bool)
    requires GoesOn(f, [head] + tail, whole)
    ensures var (b, next) := f.ReadByte(); b == head && GoesOn(next, tail, whole)
  {
    var wire := [head] + tail;
    assert wire[0] == head && wire[1..] == tail;
    if f.index < |f.buf| {
      assert Unread(f) == [f.buf[f.index]] + f.buf[f.index + 1..];
      if Unread(f) + [0] == wire {
        assert (Unread(f) + [0])[1..] == f.buf[f.index + 1..] + [0];
        assert (Unread(f) + [0])[0] == f.buf[f.index];
      } else {
        assert Unread(f)[0] == f.buf[f.index];
      }
    } else {
      assert Unread(f) == [];
      assert wire == [0];
      assert tail == [];
    }
  }

  lemma NextByteFaces(r: Reader, es: seq<Event>, whole: bool)
    requires Faces(r, es, whole) && es != [] && es[0].Byte?
    ensures var (b, next) := ReaderByte(r); b == es[0].value && Faces(next, es[1..], whole)
  {
    TakeHead(r.src.frame, es[0].value, Wire(es[1..], r.shift), whole);
  }

  lemma NextBitFaces(r: Reader, es: seq<Event>, whole: bool)
    requires Faces(r, es, whole) && es != [] && es[0].Bit?
    ensures var (b, next) := NextBit(r); b == (if es[0].on then 1 else 0) && Faces(next, es[1..], whole)
  {
    if r.shift == 0 {
      FirstBitFaces(r, es, whole);
    } else {
      LaterBitFaces(r, es, whole);
    }
  }

  lemma FirstBitFaces(r: Reader, es: seq<Event>, whole: bool)
    requires Faces(r, es, whole) && es != [] && es[0].Bit? && r.shift == 0
    ensures var (b, next) := NextBit(r); b == (if es[0].on then 1 else 0) && Faces(next, es[1..], whole)
  {
    TakeHead(r.src.frame, FlagBits(es, 8), Wire(es[1..], 7), whole);
  }

  lemma LaterBitFaces(r: Reader, es: seq<Event>, whole: bool)
    requires Faces(r, es, whole) && es != [] && es[0].Bit? && r.shift > 0
    ensures var (b, next) := NextBit(r); b == (if es[0].on then 1 else 0) && Faces(next, es[1..], whole)
  {
    BitBelow(r.flag, r.shift - 1);
    SplitUnique(BitAt(r.flag, r.shift - 1), r.flag % Pow2(r.shift - 1), es[0].on, FlagBits(es[1..], r.shift - 1), Pow2(r.shift - 1));
  }

  lemma SplitUnique(b: nat, low: nat, on: bool, rest: nat, m: nat)
    requires b <= 1 && low < m && rest < m
    requires b * m + low == (if on then m else 0) + rest
    ensures b == (if on then 1 else 0) && low == rest
  {
    if b == 1 {
      assert b * m == m;
    } else {
      assert b * m == 0;
    }
  }

  lemma {:induction false} NextBitsFaces(r: Reader, value: nat, count: nat, es: seq<Event>, whole: bool)
    requires count <= 8 && value < Pow2(count) && Faces(r, BitEvents(value, count) + es, whole)
    ensures NextBits(r, count).0 == value && Faces(NextBits(r, count).1, es, whole)
    decreases count
  {
    if count == 0 {
      assert BitEvents(value, count) + es == es;
    } else {
      var low := value % Pow2(count - 1);
      var r1 := FirstOfBits(r, value, count, es, whole);
      NextBitsFaces(r1, low, count - 1, es, whole);
      NextBitsCons(r, count, NextBit(r).0, r1, low, value, NextBits(r1, count - 1).1);
    }
  }

  lemma FirstOfBits(r: Reader, value: nat, count: nat, es: seq<Event>, whole: bool) returns (r1: Reader)
    requires 0 < count <= 8 && value < Pow2(count) && Faces(r, BitEvents(value, count) + es, whole)
    ensures r1 == NextBit(r).1 && value % Pow2(count - 1) < Pow2(count - 1)
    ensures Faces(r1, BitEvents(value % Pow2(count - 1), count - 1) + es, whole)
    ensures value == (if NextBit(r).0 == 1 then Pow2(count - 1) else 0) + value % Pow2(count - 1)
  {
    var all := BitEvents(value, count) + es;
    NextBitFaces(r, all, whole);
    BitEventsStrip(value, count);
    assert all[1..] == BitEvents(value % Pow2(count - 1), count - 1) + es;
    r1 := NextBit(r).1;
  }

  /** Bits above the ones printed do not matter. */
  lemma BitEventsStrip(value: nat, count: nat)
    requires 1 <= count <= 8 && value < Pow2(count)
    ensures BitEvents(value, count)[1..] == BitEvents(value % Pow2(count - 1), count - 1)
    ensures value == (if BitEvents(value, count)[0].on then Pow2(count - 1) else 0) + value % Pow2(count - 1)
  {
    var m := Pow2(count - 1);
    assert Pow2(count) == 2 * m;
    BitEventsLow(value, count - 1, count - 1);
    if value < m {
      QuotientUnique(value, m, 0, value);
    } else {
      QuotientUnique(value, m, 1, value - m);
    }
  }

  lemma {:induction false} BitEventsLow(value: nat, count: nat, above: nat)
    requires count <= above <= 8
    ensures BitEvents(value % Pow2(above), count) == BitEvents(value, count)
  {
    if count > 0 {
      BitEventsLow(value, count - 1, above);
      LowBit(value, count - 1, above);
    }
  }

  lemma {:induction false} LowBit(value: nat, k: nat, above: nat)
    requires k < above <= 8
    ensures value % Pow2(above) / Pow2(k) % 2 == value / Pow2(k) % 2
    decreases above
  {
    var m := Pow2(above - 1);
    assert Pow2(above) == 2 * m;
    Halves(value, m);
    var bit := value / m % 2;
    var cut := value % Pow2(above);
    QuotientUnique(cut, m, bit, value % m);
    if k < above - 1 {
      LowBit(value, k, above - 1);
      LowBit(cut, k, above - 1);
    }
  }

  // ------------------------------------------------------------------
  // One token.

  lemma {:induction false} CopyBackSpells(data: seq<byte>, pos: nat, offset: nat, length: nat, n: nat)
    requires offset < pos && pos + length <= |data| <= n
    requires CopyOf(data, pos, offset, length)
    ensures CopyBack(data[..pos], offset, length, n) == Just(data[..pos + length])
    decreases length
  {
    if length > 0 {
      assert data[..pos] + [data[pos]] == data[..pos + 1];
      CopyBackSpells(data, pos + 1, offset, length - 1, n);
    }
  }

  lemma ReadOne(r: Reader, e: Event, more: seq<Event>, whole: bool)
    requires Faces(r, [e] + more, whole)
    ensures e.Byte? ==> ReaderByte(r).0 == e.value && Faces(ReaderByte(r).1, more, whole)
    ensures e.Bit? ==> NextBit(r).0 == (if e.on then 1 else 0) && Faces(NextBit(r).1, more, whole)
  {
    assert ([e] + more)[1..] == more;
    if e.Byte? {
      NextByteFaces(r, [e] + more, whole);
    } else {
      NextBitFaces(r, [e] + more, whole);
    }
  }

  /** The decoder has read this token, and the events more are still ahead. */
  ghost predicate Reads(i: (Item, Reader), t: Token, more: seq<Event>, whole: bool) {
    i.0 == Coded(t) && Faces(i.1, more, whole)
  }

  /** In front of the events of a token the decoder reads that token. */
  lemma ItemReads(r: Reader, t: Token, more: seq<Event>, whole: bool)
    requires t.Encodable() && Faces(r, TokenEvents(t) + more, whole)
    ensures Reads(NextItem(r), t, more, whole)
  {
    if t.Literal? {
      LiteralReads(r, t.value, more, whole);
    } else if t.length <= 6 && t.offset <= 0xff {
      ShortReads(r, t, more, whole);
    } else {
      LongReads(r, t, more, whole);
    }
  }

  lemma LiteralReads(r: Reader, v: byte, more: seq<Event>, whole: bool)
    requires Faces(r, TokenEvents(Literal(v)) + more, whole)
    ensures Reads(NextItem(r), Literal(v), more, whole)
  {
    assert TokenEvents(Literal(v)) + more == [Bit(false)] + ([Byte(v)] + more);
    ReadOne(r, Bit(false), [Byte(v)] + more, whole);
    ReadOne(NextBit(r).1, Byte(v), more, whole);
  }

  lemma ShortReads(r: Reader, t: Token, more: seq<Event>, whole: bool)
    requires t.Match? && t.Encodable() && t.length <= 6 && t.offset <= 0xff && Faces(r, TokenEvents(t) + more, whole)
    ensures Reads(NextItem(r), t, more, whole)
  {
    var tail := [Byte(t.offset)] + more;
    assert TokenEvents(t) + more == [Bit(true)] + ([Bit(false)] + (BitEvents(t.length - 3, 2) + tail));
    var r1 := FlagsRead(r, false, BitEvents(t.length - 3, 2) + tail, whole);
    ShortTail(r1, t, more, whole);
  }

  lemma ShortTail(r: Reader, t: Token, more: seq<Event>, whole: bool)
    requires t.Match? && t.Encodable() && t.length <= 6 && t.offset <= 0xff
    requires Faces(r, BitEvents(t.length - 3, 2) + ([Byte(t.offset)] + more), whole)
    ensures Reads(NextShort(r), t, more, whole)
  {
    NextBitsFaces(r, t.length - 3, 2, [Byte(t.offset)] + more, whole);
    ReadOne(NextBits(r, 2).1, Byte(t.offset), more, whole);
  }

  lemma LongReads(r: Reader, t: Token, more: seq<Event>, whole: bool)
    requires t.Match? && t.Encodable() && !(t.length <= 6 && t.offset <= 0xff) && Faces(r, TokenEvents(t) + more, whole)
    ensures Reads(NextItem(r), t, more, whole)
  {
    LongLayout(t, more);
    var r1 := FlagsRead(r, true, HeaderBytes(t) + (LengthEvents(t.length) + more), whole);
    HeaderReads(r1, t, more, whole);
  }

  lemma LongLayout(t: Token, more: seq<Event>)
    requires t.Match? && t.Encodable() && !(t.length <= 6 && t.offset <= 0xff)
    ensures TokenEvents(t) + more == [Bit(true)] + ([Bit(true)] + (HeaderBytes(t) + (LengthEvents(t.length) + more)))
  {
    var h, l := HeaderBytes(t), LengthEvents(t.length);
    assert TokenEvents(t) == [Bit(true), Bit(true)] + h + l;
    assert ([Bit(true), Bit(true)] + h + l) + more == [Bit(true)] + ([Bit(true)] + (h + (l + more)));
  }

  /** The two flag bits of a match. */
  lemma FlagsRead(r: Reader, long: bool, tail: seq<Event>, whole: bool) returns (r1: Reader)
    requires Faces(r, [Bit(true)] + ([Bit(long)] + tail), whole)
    ensures Faces(r1, tail, whole)
    ensures NextItem(r) == if long then NextLong(r1) else NextShort(r1)
  {
    ReadOne(r, Bit(true), [Bit(long)] + tail, whole);
    var r0 := NextBit(r).1;
    ReadOne(r0, Bit(long), tail, whole);
    r1 := NextBit(r0).1;
  }

  lemma HeaderReads(r: Reader, t: Token, more: seq<Event>, whole: bool)
    requires t.Match? && t.Encodable() && Faces(r, HeaderBytes(t) + (LengthEvents(t.length) + more), whole)
    ensures Reads(NextLong(r), t, more, whole)
  {
    var tail := LengthEvents(t.length) + more;
    var hi, lo := HeaderHolds(t);
    assert HeaderBytes(t) + tail == [Byte(hi)] + ([Byte(lo)] + tail);
    var r2 := TwoBytes(r, hi, lo, if t.length <= 9 then t.length - 2 else 0, t.offset, tail, whole);
    LengthReads(r2, t, more, whole);
  }

  lemma TwoBytes(r: Reader, hi: byte, lo: byte, length: nat, offset: nat, tail: seq<Event>, whole: bool) returns (r2: Reader)
    requires Faces(r, [Byte(hi)] + ([Byte(lo)] + tail), whole)
    requires length == hi / 32 && offset == hi % 32 * 256 + lo
    ensures Faces(r2, tail, whole) && NextLong(r) == NextLength(r2, length, offset)
  {
    ReadOne(r, Byte(hi), [Byte(lo)] + tail, whole);
    var r1 := ReaderByte(r).1;
    ReadOne(r1, Byte(lo), tail, whole);
    r2 := ReaderByte(r1).1;
  }

  lemma LengthReads(r: Reader, t: Token, more: seq<Event>, whole: bool)
    requires t.Match? && t.Encodable() && Faces(r, LengthEvents(t.length) + more, whole)
    ensures Reads(NextLength(r, if t.length <= 9 then t.length - 2 else 0, t.offset), t, more, whole)
  {
    if t.length <= 9 {
      assert LengthEvents(t.length) + more == more;
    } else if t.length <= 25 {
      var tail := BitEvents(t.length - 10, 4) + more;
      assert LengthEvents(t.length) + more == [Bit(false)] + tail;
      ReadOne(r, Bit(false), tail, whole);
      NextBitsFaces(NextBit(r).1, t.length - 10, 4, more, whole);
    } else {
      var tail := [Byte(t.length - 26)] + more;
      assert LengthEvents(t.length) + more == [Bit(true)] + tail;
      ReadOne(r, Bit(true), tail, whole);
      ReadOne(NextBit(r).1, Byte(t.length - 26), more, whole);
    }
  }

  lemma HeaderHolds(t: Token) returns (hi: byte, lo: byte)
    requires t.Match? && t.Encodable()
    ensures HeaderBytes(t) == [Byte(hi), Byte(lo)]
    ensures hi % 32 * 256 + lo == t.offset && hi / 32 == (if t.length <= 9 then t.length - 2 else 0)
  {
    hi, lo := HeaderBytes(t)[0].value, HeaderBytes(t)[1].value;
    var q := t.offset / 256;
    assert q < 32;
  }

  /** The decoder's state after the token's copy, with the events more still ahead. */
  ghost predicate Continues(o: Outcome, out: seq<byte>, more: seq<Event>, whole: bool) {
    o.Done? && o.out == out && Faces(o.rest, more, whole)
  }

  /** Reading t in front of the events more appends the bytes t stands for. */
  lemma StepSpells(r: Reader, t: Token, more: seq<Event>, data: seq<byte>, pos: nat, n: nat, whole: bool)
    requires t.Encodable() && pos + t.Size() <= |data| <= n
    requires t.Literal? ==> data[pos] == t.value
    requires t.Match? ==> t.offset < pos && CopyOf(data, pos, t.offset, t.length)
    requires Faces(r, TokenEvents(t) + more, whole)
    ensures Continues(Step(r, data[..pos], n), data[..pos + t.Size()], more, whole)
  {
    ItemReads(r, t, more, whole);
    if t.Literal? {
      assert data[..pos] + [data[pos]] == data[..pos + 1];
    } else {
      CopyBackSpells(data, pos, t.offset, t.length, n);
    }
  }

  lemma StepTo(r: Reader, t: Token, more: seq<Event>, data: seq<byte>, pos: nat, next: nat, n: nat, whole: bool) returns (r1: Reader)
    requires t.Encodable() && next == pos + t.Size() && next <= |data| <= n && pos < n
    requires t.Literal? ==> data[pos] == t.value
    requires t.Match? ==> t.offset < pos && CopyOf(data, pos, t.offset, t.length)
    requires Faces(r, TokenEvents(t) + more, whole)
    ensures Step(r, data[..pos], n) == Done(data[..next], r1) && Faces(r1, more, whole)
  {
    StepSpells(r, t, more, data, pos, n, whole);
    r1 := Step(r, data[..pos], n).rest;
  }

  // ------------------------------------------------------------------
  // Any token list.

  function DataBytes(es: seq<Event>): nat {
    if es == [] then 0 else (if es[0].Byte? then 1 else 0) + DataBytes(es[1..])
  }

  lemma {:induction false} WireHoldsData(es: seq<Event>, s: nat)
    requires s <= 7
    ensures |Wire(es, s)| >= DataBytes(es)
    decreases |es|
  {
    if es == [] {
    } else if es[0].Byte? {
      WireHoldsData(es[1..], s);
    } else {
      WireHoldsData(es[1..], if s > 0 then s - 1 else 7);
    }
  }

  lemma {:induction false} DataBytesConcat(es: seq<Event>, more: seq<Event>)
    ensures DataBytes(es + more) == DataBytes(es) + DataBytes(more)
  {
    if es == [] {
      assert es + more == more;
    } else {
      assert (es + more)[1..] == es[1..] + more;
      DataBytesConcat(es[1..], more);
    }
  }

  /** Every token carries a data byte; one that ends in flag bits carries two. */
  lemma TokenData(t: Token)
    requires t.Encodable()
    ensures DataBytes(TokenEvents(t)) >= (if t.EndsInBits() then 2 else 1)
  {
    if t.Literal? {
      assert DataBytes([Byte(t.value)]) == 1;
    } else if t.length <= 6 && t.offset <= 0xff {
      DataBytesConcat([Bit(true), Bit(false)] + BitEvents(t.length - 3, 2), [Byte(t.offset)]);
    } else {
      DataBytesConcat([Bit(true), Bit(true)] + HeaderBytes(t), LengthEvents(t.length));
      DataBytesConcat([Bit(true), Bit(true)], HeaderBytes(t));
      var h := HeaderBytes(t);
      assert DataBytes(h[1..]) == 1 + DataBytes(h[1..][1..]);
    }
  }

  lemma {:induction false} EventsData(ts: seq<Token>)
    requires ts != [] && forall t :: t in ts ==> t.Encodable()
    ensures DataBytes(Events(ts)) >= (if ts[|ts| - 1].EndsInBits() then 2 else 1)
  {
    DataBytesConcat(TokenEvents(ts[0]), Events(ts[1..]));
    TokenData(ts[0]);
    if |ts| > 1 {
      EventsData(ts[1..]);
    }
  }

  /** While tokens are left the decoder does not run out of input. */
  lemma InputLeft(r: Reader, ts: seq<Token>, whole: bool)
    requires ts != [] && forall t :: t in ts ==> t.Encodable()
    requires Faces(r, Events(ts), whole)
    requires whole || ts[|ts| - 1].EndsInBits()
    ensures r.src.More()
  {
    WireHoldsData(Events(ts), r.shift);
    EventsData(ts);
  }

  lemma InputEnds(r: Reader, out: seq<byte>, n: nat, whole: bool)
    requires Faces(r, [], whole) && |out| <= n
    ensures Decoded(r, out, n) == Done(out, r)
  {
    var f := r.src.frame;
    assert Wire([], r.shift) == [];
    assert |Unread(f) + [0]| > 0;
    assert |Unread(f)| == 0;
  }

  /**
   * The decoder turns the layout of any token list that spells data back into data,
   * and stops there. When the list ends in flag bits the input may lack its last byte
   * if that byte is zero.
   */
  lemma {:induction false} DecodedSpells(r: Reader, ts: seq<Token>, es: seq<Event>, data: seq<byte>, pos: nat, n: nat, whole: bool)
    requires |data| <= n && Spells(ts, data, pos)
    requires pos <= |data| && forall t :: t in ts ==> t.Encodable()
    requires es == Events(ts) && Faces(r, es, whole)
    requires whole || (ts != [] ==> ts[|ts| - 1].EndsInBits())
    ensures Decoded(r, data[..pos], n).Done? && Decoded(r, data[..pos], n).out == data
    ensures whole ==> !Decoded(r, data[..pos], n).rest.src.frame.err
    decreases |ts|
  {
    if ts == [] {
      assert data[..pos] == data;
      InputEnds(r, data, n, whole);
    } else {
      InputLeft(r, ts, whole);
      var rest, after, next := ts[1..], Events(ts[1..]), pos + ts[0].Size();
      SpellsEncodable(rest, data, next);
      assert rest != [] ==> rest[|rest| - 1] == ts[|ts| - 1];
      var r1 := StepTo(r, ts[0], after, data, pos, next, n, whole);
      DecodedOnce(r, data[..pos], n, data[..next], r1);
      DecodedSpells(r1, rest, after, data, next, n, whole);
    }
  }
}
