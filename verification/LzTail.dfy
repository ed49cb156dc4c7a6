/**
 * The last flag byte. The final flush drops it when no data byte is pending, which happens
 * only when the length bits of a 10 to 25 byte match spill into a new group. Those bits are
 * read back as zeros, so the decoder makes that match shorter.
 */
module LzTail {
  import opened Bytes
  import opened LzFormat
  import opened LzEncoder
  import opened LzRoundTrip

  /** The value of the length bits in a flag byte that the final flush drops. */
  function Lost(data: seq<byte>): nat {
    var st := FinalState(data);
    if st.pending != [] then 0 else st.flag / Pow2(st.shift)
  }

  lemma EncodedWhole(data: seq<byte>)
    requires FinalState(data).pending != []
    ensures Encoded(data) == Wire(EncodeEvents(data, 0), 0)
  {
    var es := EncodeEvents(data, 0);
    assert es + [] == es;
    WriteAllCompletes(Start, es, []);
    var st := FinalState(data);
    assert Completed(st, []) == st.out + [st.flag] + st.pending;
  }

  // ------------------------------------------------------------------
  // Writing only bits.

  /** Bits that still fit in the register leave the pending bytes pending. */
  lemma {:induction false} BitsFit(st: State, es: seq<Event>)
    requires st.Valid() && st.shift < 8 && |es| <= st.shift && forall e :: e in es ==> e.Bit?
    ensures var r := WriteAll(st, es); r.pending == st.pending && r.shift == st.shift - |es|
    decreases |es|
  {
    if es != [] {
      BitsFit(Write(st, es[0]), es[1..]);
    }
  }

  /** Bits that do not fit open one new group and nothing is pending behind it. */
  lemma {:induction false} BitsSpill(st: State, es: seq<Event>)
    requires st.Valid() && st.shift < 8 && st.shift < |es| <= 8 && forall e :: e in es ==> e.Bit?
    ensures var r := WriteAll(st, es); r.pending == [] && r.shift == 8 - (|es| - st.shift)
    decreases |es|
  {
    if st.shift == 0 {
      BitsFit(Write(st, es[0]), es[1..]);
    } else {
      BitsSpill(Write(st, es[0]), es[1..]);
    }
  }

  /** The five bits behind a 10 to 25 byte match: a zero and four length bits. */
  function FiveBits(v: nat): (es: seq<Event>)
    requires v < 16
    ensures |es| == 5 && forall e :: e in es ==> e.Bit?
  {
    [Bit(false)] + BitEvents(v, 4)
  }

  lemma FiveBitsAre(v: nat)
    requires v < 16
    ensures FiveBits(v) == [Bit(false), Bit(v / 8 % 2 == 1), Bit(v / 4 % 2 == 1), Bit(v / 2 % 2 == 1), Bit(v % 2 == 1)]
  {
    assert BitEvents(v, 1) == [Bit(v % 2 == 1)] + BitEvents(v, 0);
    assert BitEvents(v, 2) == [Bit(v / 2 % 2 == 1)] + BitEvents(v, 1);
    assert BitEvents(v, 3) == [Bit(v / 4 % 2 == 1)] + BitEvents(v, 2);
  }

  /** Bits of s events of es, then one group with the rest. */
  lemma {:induction false} WireOfBits(es: seq<Event>, s: nat)
    requires s <= 7 && s < |es| <= 8 && forall e :: e in es ==> e.Bit?
    ensures Wire(es, s) == [FlagBits(es[s..], 8)]
    decreases s
  {
    assert es[0] in es;
    if s == 0 {
      WireEmpty(es[1..], 7);
      assert es[0..] == es;
    } else {
      WireOfBits(es[1..], s - 1);
      assert es[1..][s - 1..] == es[s..];
    }
  }

  lemma {:induction false} WireEmpty(es: seq<Event>, s: nat)
    requires |es| <= s <= 7 && forall e :: e in es ==> e.Bit?
    ensures Wire(es, s) == []
    decreases s
  {
    if es != [] {
      assert es[0] in es;
      WireEmpty(es[1..], s - 1);
    }
  }

  lemma {:induction false} FlagBitsPrefix(es: seq<Event>, es': seq<Event>, s: nat)
    requires s <= 8 && s <= |es| && s <= |es'| && es[..s] == es'[..s]
    requires forall e :: e in es ==> e.Bit?
    ensures FlagBits(es, s) == FlagBits(es', s)
    decreases s
  {
    if s > 0 {
      assert es[0] in es;
      assert es[0] == es[..s][0] == es'[..s][0] == es'[0];
      assert es[1..][..s - 1] == es[..s][1..];
      assert es'[1..][..s - 1] == es'[..s][1..];
      FlagBitsPrefix(es[1..], es'[1..], s - 1);
    }
  }

  /** Bits worth nothing. */
  function ZeroBits(k: nat): (es: seq<Event>)
    ensures |es| == k
    ensures forall e :: e in es ==> e == Bit(false)
  {
    seq(k, i => Bit(false))
  }

  lemma {:induction false} FlagBitsOfZeros(k: nat, s: nat)
    requires s <= 8
    ensures FlagBits(ZeroBits(k), s) == 0
    decreases k
  {
    if k > 0 && s > 0 {
      assert ZeroBits(k)[1..] == ZeroBits(k - 1);
      FlagBitsOfZeros(k - 1, s - 1);
    }
  }

  /** count bits at the top of a register of s bits. */
  lemma {:induction false} FlagBitsOfNumber(v: nat, count: nat, s: nat)
    requires count <= s <= 8 && v < Pow2(count)
    ensures FlagBits(BitEvents(v, count), s) == v * Pow2(s - count)
    decreases count
  {
    if count > 0 {
      BitEventsStrip(v, count);
      var low := v % Pow2(count - 1);
      FlagBitsOfNumber(low, count - 1, s - 1);
      var top := if BitEvents(v, count)[0].on then Pow2(count - 1) else 0;
      TopOfNumber(v, top, low, count, s);
    }
  }

  lemma TopOfNumber(v: nat, top: nat, low: nat, count: nat, s: nat)
    requires 0 < count <= s <= 8 && v == top + low && (top == 0 || top == Pow2(count - 1))
    ensures v * Pow2(s - count) == (if top == 0 then 0 else Pow2(s - 1)) + low * Pow2(s - count)
  {
    Pow2Product(count - 1, s - count);
    assert (top + low) * Pow2(s - count) == top * Pow2(s - count) + low * Pow2(s - count);
  }

  lemma Pow2Product(a: nat, b: nat)
    requires a + b <= 8
    ensures Pow2(a) * Pow2(b) == Pow2(a + b)
  {
    match a
    case 0 => case 1 => case 2 => case 3 => case 4 => case 5 => case 6 => case 7 => case 8 =>
  }

  /** Clearing the bits of v from position s on. */
  lemma ClearTail(v: nat, s: nat)
    requires v < 16 && s <= 4
    ensures var low := v % Pow2(5 - s);
            && FlagBits(FiveBits(v)[s..], 8) == low * Pow2(3 + s)
            && FiveBits(v - low) == FiveBits(v)[..s] + ZeroBits(5 - s)
  {
    var low := v % Pow2(5 - s);
    SuffixOfFive(v, s);
    BitEventsLow(v, 5 - s, 5 - s);
    FlagBitsOfNumber(low, 5 - s, 8);
    ClearedList(v, s);
  }

  lemma ClearedList(v: nat, s: nat)
    requires v < 16 && s <= 4
    ensures FiveBits(v - v % Pow2(5 - s)) == FiveBits(v)[..s] + ZeroBits(5 - s)
  {
    ClearedBits(v, s);
    FiveCleared(v, v - v % Pow2(5 - s), s);
  }

  lemma FiveCleared(v: nat, w: nat, s: nat)
    requires v < 16 && w < 16 && s <= 4 && w % 2 == 0
    requires w / 8 % 2 == (if s > 1 then v / 8 % 2 else 0) && w / 4 % 2 == (if s > 2 then v / 4 % 2 else 0)
    requires w / 2 % 2 == (if s > 3 then v / 2 % 2 else 0)
    ensures FiveBits(w) == FiveBits(v)[..s] + ZeroBits(5 - s)
  {
    FiveBitsAre(v);
    FiveBitsAre(w);
    var es, cut := FiveBits(w), FiveBits(v)[..s] + ZeroBits(5 - s);
    SameFive(es, cut, FiveBits(v), s);
  }

  lemma SameFive(es: seq<Event>, cut: seq<Event>, whole: seq<Event>, s: nat)
    requires |es| == |whole| == 5 && s <= 4 && cut == whole[..s] + ZeroBits(5 - s)
    requires forall j :: 0 <= j < 5 ==> es[j] == if j < s then whole[j] else Bit(false)
    ensures es == cut
  {
  }

  lemma SuffixOfFive(v: nat, s: nat)
    requires v < 16 && s <= 4
    ensures FiveBits(v)[s..] == BitEvents(v, 5 - s)
  {
    assert BitEvents(v, 5) == FiveBits(v);
    assert BitEvents(v, 4) == FiveBits(v)[1..];
    assert BitEvents(v, 3) == BitEvents(v, 4)[1..] == FiveBits(v)[2..];
    assert BitEvents(v, 2) == BitEvents(v, 3)[1..] == FiveBits(v)[3..];
    assert BitEvents(v, 1) == BitEvents(v, 2)[1..] == FiveBits(v)[4..];
  }

  lemma ClearedBits(v: nat, s: nat)
    requires v < 16 && s <= 4
    ensures var w := v - v % Pow2(5 - s);
            && w / 8 % 2 == (if s > 1 then v / 8 % 2 else 0)
            && w / 4 % 2 == (if s > 2 then v / 4 % 2 else 0)
            && w / 2 % 2 == (if s > 3 then v / 2 % 2 else 0)
            && w % 2 == 0
  {
    match s
    case 0 => case 1 => case 2 => case 3 => case 4 =>
  }

  // ------------------------------------------------------------------
  // The last token.

  lemma {:induction false} EventsSnoc(ts: seq<Token>, t: Token)
    requires t.Encodable() && forall u :: u in ts ==> u.Encodable()
    ensures Events(ts + [t]) == Events(ts) + TokenEvents(t)
  {
    if ts == [] {
      assert ts + [t] == [t];
      assert Events([t]) == TokenEvents(t) + Events([]);
    } else {
      assert (ts + [t])[1..] == ts[1..] + [t];
      EventsSnoc(ts[1..], t);
    }
  }

  /** A token that does not end in flag bits leaves a byte pending. */
  lemma TokenPends(st: State, t: Token)
    requires st.Valid() && t.Encodable() && !t.EndsInBits()
    ensures WriteAll(st, TokenEvents(t)).pending != []
  {
    if t.Literal? {
      LiteralForm(st, t.value);
    } else if t.length <= 6 && t.offset <= 0xff {
      ShortForm(st, t);
    } else {
      LongForm(st, t);
      if t.length > 9 {
        LengthForm(AfterHeader(st, t), t.length);
      }
    }
  }

  lemma RemainderBelow(v: nat, d: nat)
    requires d > 0
    ensures v % d <= v
  {
    if v < d {
      QuotientUnique(v, d, 0, v);
    }
  }

  /** What five length bits that spill leave behind, and what clearing the spilt ones would leave. */
  lemma SpiltBits(st: State, v: nat)
    requires st.Valid() && st.shift <= 4 && v < 16
    ensures var fin, low := WriteAll(st, FiveBits(v)), v % Pow2(5 - st.shift);
            && fin.flag / Pow2(fin.shift) == low
            && Completed(st, FiveBits(v - low)) == fin.out + [0]
  {
    var s := st.shift;
    var low := v % Pow2(5 - s);
    ClearTail(v, s);
    CutBits(v, low, s);
    SpiltList(st, FiveBits(v), FiveBits(v - low), low * Pow2(3 + s));
    QuotientUnique(low * Pow2(3 + s), Pow2(3 + s), low, 0);
  }

  lemma SpiltList(st: State, es: seq<Event>, cut: seq<Event>, last: byte)
    requires st.Valid() && st.shift <= 4 && |es| == |cut| == 5
    requires forall e :: e in es || e in cut ==> e.Bit?
    requires FlagBits(es[st.shift..], 8) == last && FlagBits(cut[st.shift..], 8) == 0
    requires FlagBits(cut, st.shift) == FlagBits(es, st.shift)
    ensures var fin := WriteAll(st, es);
            fin.flag == last && fin.shift == 3 + st.shift && Completed(st, cut) == fin.out + [0]
  {
    var fin := WriteAll(st, es);
    BitsSpill(st, es);
    var head := SwapLast(st, es, cut, last);
    NothingToCome(st, es, fin);
    LastOf(fin.out, fin.flag, head, last);
  }

  lemma SwapLast(st: State, es: seq<Event>, cut: seq<Event>, last: byte) returns (head: seq<byte>)
    requires st.Valid() && st.shift <= 4 && |es| == |cut| == 5
    requires forall e :: e in es || e in cut ==> e.Bit?
    requires FlagBits(es[st.shift..], 8) == last && FlagBits(cut[st.shift..], 8) == 0
    requires FlagBits(cut, st.shift) == FlagBits(es, st.shift)
    ensures Completed(st, es) == head + [last] && Completed(st, cut) == head + [0]
  {
    CompletedBits(st, es, last);
    CompletedBits(st, cut, 0);
    head := st.out + [st.flag + FlagBits(es, st.shift)] + st.pending;
  }

  lemma NothingToCome(st: State, es: seq<Event>, fin: State)
    requires Startable(st, es) && fin == WriteAll(st, es) && fin.shift < 8 && fin.pending == []
    ensures Completed(st, es) == fin.out + [fin.flag]
  {
    assert es + [] == es;
    WriteAllCompletes(st, es, []);
  }

  lemma CompletedBits(st: State, es: seq<Event>, last: byte)
    requires st.Valid() && st.shift < |es| <= 8 && st.shift <= 7 && forall e :: e in es ==> e.Bit?
    requires FlagBits(es[st.shift..], 8) == last
    ensures Completed(st, es) == st.out + [st.flag + FlagBits(es, st.shift)] + st.pending + [last]
  {
    WireOfBits(es, st.shift);
  }

  lemma CutBits(v: nat, low: nat, s: nat)
    requires v < 16 && s <= 4 && low <= v && FiveBits(v - low) == FiveBits(v)[..s] + ZeroBits(5 - s)
    ensures FlagBits(FiveBits(v - low)[s..], 8) == 0
    ensures FlagBits(FiveBits(v - low), s) == FlagBits(FiveBits(v), s)
  {
    assert FiveBits(v - low)[s..] == ZeroBits(5 - s);
    FlagBitsOfZeros(5 - s, 8);
    FlagBitsPrefix(FiveBits(v), FiveBits(v - low), s);
  }

  lemma LastOf<T>(a: seq<T>, x: T, b: seq<T>, y: T)
    requires a + [x] == b + [y]
    ensures a == b && x == y
  {
    assert a == (a + [x])[..|a|] && b == (b + [y])[..|b|];
    assert (a + [x])[|a|] == x && (b + [y])[|b|] == y;
  }

  /** Shortening the last match spells correspondingly less. */
  lemma {:induction false} SpellsShortened(ts: seq<Token>, t: Token, k: nat, data: seq<byte>, pos: nat)
    requires t.Match? && t.Encodable() && k + MIN_LENGTH <= t.length
    requires Spells(ts + [t], data, pos)
    ensures k <= |data| && Spells(ts + [Match(t.length - k, t.offset)], data[..|data| - k], pos)
    decreases |ts|
  {
    var t' := Match(t.length - k, t.offset);
    var all, all' := ts + [t], ts + [t'];
    if ts == [] {
      assert all[1..] == [] && all'[1..] == [];
    } else {
      assert all[1..] == ts[1..] + [t] && all'[1..] == ts[1..] + [t'];
      SpellsShortened(ts[1..], t, k, data, pos + ts[0].Size());
      SpellsEncodable(all'[1..], data[..|data| - k], pos + ts[0].Size());
    }
  }

  /**
   * When the last flag byte is dropped, the bytes left are, but for one final zero byte, the
   * layout of a token list whose last match is shorter by the lost amount.
   */
  lemma DroppedTail(data: seq<byte>) returns (ts: seq<Token>)
    requires data != [] && FinalState(data).pending == []
    ensures Lost(data) <= |data| && Lost(data) < 16 && Spells(ts, data[..|data| - Lost(data)], 0)
    ensures ts != [] && ts[|ts| - 1].EndsInBits() && forall t :: t in ts ==> t.Encodable()
    ensures Wire(Events(ts), 0) == Encoded(data) + [0]
  {
    var init, t := SplitGreedy(data);
    var st := WriteAll(Start, Events(init));
    if !t.EndsInBits() {
      TokenPends(st, t);
      assert false;
    }
    var low := SpiltToken(st, t);
    var t' := Match(t.length - low, t.offset);
    SpellsShortened(init, t, low, data, 0);
    ts := init + [t'];
    DroppedWire(init, t', Encoded(data));
  }

  lemma DroppedWire(init: seq<Token>, t: Token, out: seq<byte>)
    requires t.Encodable() && (forall u :: u in init ==> u.Encodable()) && Startable(Start, Events(init))
    requires var st := WriteAll(Start, Events(init));
             Startable(st, TokenEvents(t)) && Completed(st, TokenEvents(t)) == out + [0]
    ensures Wire(Events(init + [t]), 0) == out + [0]
  {
    EventsSnoc(init, t);
    WriteAllCompletes(Start, Events(init), TokenEvents(t));
  }

  /** The encoder's last token. */
  lemma SplitGreedy(data: seq<byte>) returns (init: seq<Token>, t: Token)
    requires data != []
    ensures Greedy(data, 0) == init + [t] && Spells(init + [t], data, 0)
    ensures t.Encodable() && forall u :: u in init ==> u.Encodable()
    ensures Startable(Start, Events(init))
    ensures FinalState(data) == WriteAll(WriteAll(Start, Events(init)), TokenEvents(t))
  {
    var all := Greedy(data, 0);
    GreedySpells(data, 0);
    SpellsEncodable(all, data, 0);
    init, t := all[..|all| - 1], all[|all| - 1];
    assert all == init + [t];
    EventsSnoc(init, t);
    WriteAllAppend(Start, Events(init), TokenEvents(t));
  }

  lemma SpiltToken(st: State, t: Token) returns (low: nat)
    requires st.Valid() && t.Encodable() && t.EndsInBits()
    requires WriteAll(st, TokenEvents(t)).pending == []
    ensures low < 16 && low + 10 <= t.length
    ensures var fin := WriteAll(st, TokenEvents(t));
            && fin.flag / Pow2(fin.shift) == low
            && Completed(st, TokenEvents(Match(t.length - low, t.offset))) == fin.out + [0]
  {
    var after := ExtendedForm(st, t);
    var v := t.length - 10;
    if after.shift >= 5 {
      BitsFit(after, FiveBits(v));
      assert false;
    }
    RemainderBelow(v, Pow2(5 - after.shift));
    low := v % Pow2(5 - after.shift);
    SpiltBits(after, v);
    assert Completed(st, TokenEvents(Match(t.length - low, t.offset))) == Completed(after, FiveBits(t.length - low - 10));
  }

  /** A 10 to 25 byte match is its header, which is the same for all of them, and five bits. */
  lemma ExtendedForm(st: State, t: Token) returns (after: State)
    requires st.Valid() && t.Encodable() && t.EndsInBits()
    ensures after.Valid() && after.shift < 8 && after.pending != []
    ensures WriteAll(st, TokenEvents(t)) == WriteAll(after, FiveBits(t.length - 10))
    ensures forall l: nat {:trigger Match(l, t.offset)} :: 10 <= l <= 25 ==>
              Completed(st, TokenEvents(Match(l, t.offset))) == Completed(after, FiveBits(l - 10))
  {
    after := AfterHeader(st, t);
    LongForm(st, t);
    forall l: nat | 10 <= l <= 25
      ensures Completed(st, TokenEvents(Match(l, t.offset))) == Completed(after, FiveBits(l - 10))
    {
      var t' := Match(l, t.offset);
      assert HeaderBytes(t') == HeaderBytes(t);
      HeaderCompletes(st, t');
    }
  }

  lemma HeaderCompletes(st: State, t: Token)
    requires st.Valid() && t.Match? && t.Encodable() && t.length > 9
    ensures Completed(AfterHeader(st, t), LengthEvents(t.length)) == Completed(st, TokenEvents(t))
  {
    var hi, lo, tail := HeaderBytes(t)[0], HeaderBytes(t)[1], LengthEvents(t.length);
    var head := [Bit(true), Bit(true), hi, lo];
    assert TokenEvents(t) == head + tail;
    WriteAllCompletes(st, head, tail);
    assert head == [Bit(true)] + ([Bit(true)] + ([hi] + ([lo] + [])));
    WriteAllCons(st, Bit(true), [Bit(true)] + ([hi] + ([lo] + [])));
    var s1 := Write(st, Bit(true));
    WriteAllCons(s1, Bit(true), [hi] + ([lo] + []));
    var s2 := Write(s1, Bit(true));
    WriteAllCons(s2, hi, [lo] + []);
    WriteAllCons(Write(s2, hi), lo, []);
  }
}
