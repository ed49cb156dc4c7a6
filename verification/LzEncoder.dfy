/** The greedy LZ77 encoder with its lazily flushed flag groups. */
module LzEncoder {
  import opened Bytes
  import opened LzFormat

  /** The value of the encoder's mutable state. shift == 8 means that no bit has been written yet. */
  datatype State = State(out: seq<byte>, flag: byte, shift: nat, pending: seq<byte>)
  {
    /** Bits not yet used are clear; before the first bit there is nothing at all. */
    predicate Valid() {
      && shift <= 8
      && flag % Pow2(shift) == 0
      && (shift == 8 ==> out == [] && flag == 0 && pending == [])
    }

    /** A group never buffers more than one byte beyond the bits it has used. */
    predicate Bounded() {
      shift <= 8 && |pending| <= 8 - shift + 1
    }
  }

  const Start := State([], 0, 8, [])

  /** flag with bit k set, as an OR with 1 << k leaves it. */
  function SetBit(flag: byte, k: nat): (r: byte)
    requires k <= 7
    ensures flag % Pow2(k + 1) == 0 ==> r == flag + Pow2(k)
    ensures flag % Pow2(k + 1) == 0 ==> r % Pow2(k) == 0
  {
    BitBelow(flag, k);
    if BitAt(flag, k) == 1 then flag else flag + Pow2(k)
  }

  function Flush(st: State): State {
    State(st.out + [st.flag] + st.pending, 0, st.shift, [])
  }

  function Write(st: State, e: Event): (r: State)
    requires st.Valid() && (e.Byte? ==> st.shift < 8)
    ensures r.Valid() && r.shift < 8
  {
    match e
    case Byte(b) => st.(pending := st.pending + [b])
    case Bit(on) =>
      var turned := Turned(st);
      if on then turned.(flag := SetBit(turned.flag, turned.shift)) else turned
  }

  /** The register moved on to its next bit. */
  function Turned(st: State): (r: State)
    requires st.Valid()
    ensures r.Valid() && r.shift < 8 && r.flag % Pow2(r.shift + 1) == 0
  {
    if st.shift == 0 then Flush(st).(shift := 7) else st.(shift := st.shift - 1)
  }

  predicate Startable(st: State, es: seq<Event>) {
    st.Valid() && (es != [] && es[0].Byte? ==> st.shift < 8)
  }

  function WriteAll(st: State, es: seq<Event>): (r: State)
    requires Startable(st, es)
    ensures r.Valid() && (es != [] || st.shift < 8 ==> r.shift < 8)
    decreases |es|
  {
    if es == [] then st else WriteAll(Write(st, es[0]), es[1..])
  }

  /** The last flush: a flag byte with no data byte behind it is dropped. */
  function Finish(st: State): seq<byte> {
    if st.pending == [] then st.out else st.out + [st.flag] + st.pending
  }

  // ------------------------------------------------------------------
  // The bytes written are the layout of the events.

  /** The output if the events in es were still to come and no flag byte were dropped. */
  ghost function Completed(st: State, es: seq<Event>): seq<byte>
    requires st.Valid()
  {
    if st.shift == 8 then Wire(es, 0)
    else st.out + [st.flag + FlagBits(es, st.shift)] + st.pending + Wire(es, st.shift)
  }

  lemma WriteCompletes(st: State, es: seq<Event>)
    requires Startable(st, es) && es != []
    ensures Completed(Write(st, es[0]), es[1..]) == Completed(st, es)
  {
    if es[0].Byte? {
      assert st.pending + [es[0].value] + Wire(es[1..], st.shift) == st.pending + Wire(es, st.shift);
    } else if st.shift == 0 {
      assert Completed(st, es) == st.out + [st.flag] + st.pending + ([FlagBits(es, 8)] + Wire(es[1..], 7));
    } else {
      WriteBit(st, es);
    }
  }

  lemma WriteBit(st: State, es: seq<Event>)
    requires st.Valid() && es != [] && es[0].Bit? && st.shift > 0
    ensures Completed(Write(st, es[0]), es[1..]) == Completed(st, es)
  {
    var next := Write(st, es[0]);
    assert next.flag == st.flag + if es[0].on then Pow2(st.shift - 1) else 0;
    assert next.flag + FlagBits(es[1..], next.shift) == st.flag + FlagBits(es, st.shift);
  }

  lemma {:induction false} WriteAllCompletes(st: State, es: seq<Event>, more: seq<Event>)
    requires Startable(st, es) && Startable(WriteAll(st, es), more)
    ensures Startable(st, es + more)
    ensures Completed(WriteAll(st, es), more) == Completed(st, es + more)
    decreases |es|
  {
    if es == [] {
      assert es + more == more;
    } else {
      WriteAllCompletes(Write(st, es[0]), es[1..], more);
      FirstCompletes(st, es, more);
    }
  }

  lemma FirstCompletes(st: State, es: seq<Event>, more: seq<Event>)
    requires Startable(st, es) && es != []
    ensures Startable(st, es + more) && Completed(Write(st, es[0]), es[1..] + more) == Completed(st, es + more)
  {
    assert (es + more)[1..] == es[1..] + more;
    WriteCompletes(st, es + more);
  }

  lemma {:induction false} WriteAllAppend(st: State, es: seq<Event>, more: seq<Event>)
    requires Startable(st, es) && Startable(WriteAll(st, es), more)
    ensures Startable(st, es + more)
    ensures WriteAll(st, es + more) == WriteAll(WriteAll(st, es), more)
    decreases |es|
  {
    if es == [] {
      assert es + more == more;
    } else {
      WriteAllAppend(Write(st, es[0]), es[1..], more);
      assert (es + more)[1..] == es[1..] + more;
    }
  }

  /** Writing i + 1 bits of a number is writing the first, and then the others. */
  lemma ReverseNext(st: State, on: bool, value: nat, i: nat)
    requires st.Valid() && i < 8 && on == (value / Pow2(i) % 2 == 1)
    ensures WriteAll(st, BitEvents(value, i + 1)) == WriteAll(Write(st, Bit(on)), BitEvents(value, i))
  {
    WriteAllCons(st, Bit(on), BitEvents(value, i));
  }

  lemma WriteAllCons(st: State, e: Event, es: seq<Event>)
    requires Startable(st, [e])
    ensures WriteAll(st, [e] + es) == WriteAll(Write(st, e), es)
  {
    assert ([e] + es)[1..] == es;
  }

  // ------------------------------------------------------------------
  // The size of a group.

  /** How an event changes |pending| + shift, at most: a bit spends one or starts a new group, a byte adds one. */
  function Load(v: nat, e: Event): nat { if e.Byte? then v + 1 else if v > 8 then v - 1 else 7 }

  /** An upper bound for |pending| + shift at any time during es. */
  function Peak(v: nat, es: seq<Event>): nat
    decreases |es|
  {
    if es == [] then v
    else
      var rest := Peak(Load(v, es[0]), es[1..]);
      if v < rest then rest else v
  }

  lemma {:induction false} PeakBounds(st: State, es: seq<Event>, v: nat, k: nat)
    requires Startable(st, es) && |st.pending| + st.shift <= v && k <= |es|
    ensures Startable(st, es[..k])
    ensures var r := WriteAll(st, es[..k]); |r.pending| + r.shift <= Peak(v, es)
    decreases |es|
  {
    if k > 0 {
      assert es[..k][1..] == es[1..][..k - 1];
      PeakBounds(Write(st, es[0]), es[1..], Load(v, es[0]), k - 1);
    } else {
      assert es[..k] == [];
    }
  }

  lemma {:induction false} PeakOfBits(v: nat, value: nat, count: nat, es: seq<Event>)
    requires count <= 8 && v <= 8 && Peak(if count == 0 then v else 7, es) <= 9
    ensures Peak(v, BitEvents(value, count) + es) <= 9
    decreases count
  {
    if count == 0 {
      assert BitEvents(value, count) + es == es;
    } else {
      assert (BitEvents(value, count) + es)[1..] == BitEvents(value, count - 1) + es;
      PeakOfBits(7, value, count - 1, es);
    }
  }

  lemma PeakCons(v: nat, e: Event, es: seq<Event>)
    requires v <= 9 && Peak(Load(v, e), es) <= 9
    ensures Peak(v, [e] + es) <= 9
  {
    assert ([e] + es)[1..] == es;
  }

  lemma PeakOfToken(t: Token)
    requires t.Encodable()
    ensures Peak(9, TokenEvents(t)) <= 9
  {
    if t.Literal? {
      PeakCons(8, Byte(t.value), []);
      PeakCons(9, Bit(false), [Byte(t.value)]);
    } else if t.length <= 6 && t.offset <= 0xff {
      PeakOfShort(t);
    } else {
      PeakOfLong(t);
    }
  }

  lemma PeakOfShort(t: Token)
    requires t.Match? && t.Encodable() && t.length <= 6 && t.offset <= 0xff
    ensures Peak(9, TokenEvents(t)) <= 9
  {
    var bits := BitEvents(t.length - 3, 2) + [Byte(t.offset)];
    assert TokenEvents(t) == [Bit(true)] + ([Bit(false)] + bits);
    PeakCons(7, Byte(t.offset), []);
    PeakOfBits(7, t.length - 3, 2, [Byte(t.offset)]);
    PeakCons(8, Bit(false), bits);
    PeakCons(9, Bit(true), [Bit(false)] + bits);
  }

  lemma PeakOfLong(t: Token)
    requires t.Match? && t.Encodable() && !(t.length <= 6 && t.offset <= 0xff)
    ensures Peak(9, TokenEvents(t)) <= 9
  {
    var hi, lo, tail := HeaderBytes(t)[0], HeaderBytes(t)[1], LengthEvents(t.length);
    assert TokenEvents(t) == [Bit(true)] + ([Bit(true)] + ([hi] + ([lo] + tail)));
    PeakOfLength(t.length);
    PeakCons(8, lo, tail);
    PeakCons(7, hi, [lo] + tail);
    PeakCons(8, Bit(true), [hi] + ([lo] + tail));
    PeakCons(9, Bit(true), [Bit(true)] + ([hi] + ([lo] + tail)));
  }

  lemma PeakOfLength(length: nat)
    requires MIN_LENGTH <= length <= MAX_LENGTH
    ensures Peak(9, LengthEvents(length)) <= 9
  {
    if 10 <= length <= 25 {
      var bits := BitEvents(length - 10, 4);
      assert bits + [] == bits;
      PeakOfBits(8, length - 10, 4, []);
      PeakCons(9, Bit(false), bits);
    } else if length > 25 {
      assert LengthEvents(length) == [Bit(true)] + [Byte(length - 26)];
      PeakCons(8, Byte(length - 26), []);
      PeakCons(9, Bit(true), [Byte(length - 26)]);
    }
  }

  /** At no time while a token is written does a group hold more than nine bytes, far from the 1024 of its array. */
  lemma TokenKeepsBounded(st: State, t: Token, k: nat)
    requires t.Encodable() && st.Valid() && st.Bounded() && k <= |TokenEvents(t)|
    ensures Startable(st, TokenEvents(t)[..k]) && WriteAll(st, TokenEvents(t)[..k]).Bounded()
  {
    PeakBounds(st, TokenEvents(t), 9, k);
    PeakOfToken(t);
  }

  /** Nor at any time of any run of the encoder. */
  lemma {:induction false} EventsKeepBounded(st: State, ts: seq<Token>, k: nat)
    requires (forall t :: t in ts ==> t.Encodable()) && st.Valid() && st.Bounded() && k <= |Events(ts)|
    ensures Startable(st, Events(ts)[..k]) && WriteAll(st, Events(ts)[..k]).Bounded()
    decreases |ts|
  {
    if ts == [] {
      assert Events(ts)[..k] == [];
    } else {
      var es, rest := TokenEvents(ts[0]), Events(ts[1..]);
      if k <= |es| {
        assert Events(ts)[..k] == es[..k];
        TokenKeepsBounded(st, ts[0], k);
      } else {
        assert es[..|es|] == es && Events(ts)[..k] == es + rest[..k - |es|];
        TokenKeepsBounded(st, ts[0], |es|);
        EventsKeepBounded(WriteAll(st, es), ts[1..], k - |es|);
        WriteAllAppend(st, es, rest[..k - |es|]);
      }
    }
  }

  // ------------------------------------------------------------------
  // The longest match in the window.

  /** How far data at left and at pos agree, from index k up to limit. */
  function CommonLength(data: seq<byte>, left: nat, pos: nat, limit: nat, k: nat): (c: nat)
    requires left < pos && pos + limit <= |data| && k <= limit
    ensures k <= c <= limit
    decreases limit - k
  {
    if k < limit && data[left + k] == data[pos + k]
    then CommonLength(data, left, pos, limit, k + 1)
    else k
  }

  datatype Found = Found(length: nat, offset: nat)

  /** The first of the longest usable matches at left and later; best is what was found before. */
  function Search(data: seq<byte>, left: nat, pos: nat, limit: nat, best: Found): Found
    requires left <= pos && pos + limit <= |data|
    decreases pos - left
  {
    if left == pos then best
    else
      var c := CommonLength(data, left, pos, limit, 0);
      Search(data, left + 1, pos, limit,
             if c >= MIN_LENGTH && c > best.length then Found(c, pos - left - 1) else best)
  }

  function Threshold(data: seq<byte>, pos: nat, level: nat): nat
    requires pos <= |data|
  {
    if |data| - pos < level then |data| - pos else level
  }

  function WindowStart(pos: nat, distance: nat): nat {
    if pos < distance then 0 else pos - distance
  }

  function LongestRepetition(data: seq<byte>, pos: nat, level: nat, distance: nat): Found
    requires pos <= |data|
  {
    var limit := Threshold(data, pos, level);
    if pos == 0 || limit < MIN_LENGTH then Found(0, 0)
    else Search(data, WindowStart(pos, distance), pos, limit, Found(0, 0))
  }

  /** f is a match of at least three bytes at window position pos - f.offset - 1, or nothing. */
  ghost predicate Genuine(data: seq<byte>, pos: nat, limit: nat, f: Found)
    requires pos + limit <= |data|
  {
    if f.length == 0 then f.offset == 0
    else MIN_LENGTH <= f.length <= limit && f.offset < pos && CopyOf(data, pos, f.offset, f.length)
  }

  /** data at left and at pos agree for exactly this long, or as long as limit allows. */
  lemma {:induction false} CommonLengthExact(data: seq<byte>, left: nat, pos: nat, limit: nat, k: nat)
    requires left < pos && pos + limit <= |data| && k <= limit
    ensures var c := CommonLength(data, left, pos, limit, k);
            && (forall i :: pos + k <= i < pos + c ==> data[i] == data[i - (pos - left - 1) - 1])
            && (c < limit ==> data[left + c] != data[pos + c])
    decreases limit - k
  {
    if k < limit && data[left + k] == data[pos + k] {
      CommonLengthExact(data, left, pos, limit, k + 1);
    }
  }

  lemma {:induction false} SearchGenuine(data: seq<byte>, left: nat, pos: nat, limit: nat, best: Found)
    requires left <= pos && pos + limit <= |data| && Genuine(data, pos, limit, best)
    ensures var f := Search(data, left, pos, limit, best);
            Genuine(data, pos, limit, f) && (f == best || (f.length > best.length && f.offset < pos - left))
    decreases pos - left
  {
    if left < pos {
      CommonLengthExact(data, left, pos, limit, 0);
      var c := CommonLength(data, left, pos, limit, 0);
      var next := if c >= MIN_LENGTH && c > best.length then Found(c, pos - left - 1) else best;
      SearchGenuine(data, left + 1, pos, limit, next);
    }
  }

  /** f is at least as good as window position l: longer, or as long and no nearer. */
  ghost predicate Beats(data: seq<byte>, pos: nat, limit: nat, f: Found, l: nat)
    requires l < pos && pos + limit <= |data|
  {
    var c := CommonLength(data, l, pos, limit, 0);
    c < MIN_LENGTH || c < f.length || (c == f.length && pos - l - 1 <= f.offset)
  }

  lemma {:induction false} SearchBeats(data: seq<byte>, left: nat, pos: nat, limit: nat, best: Found, l: nat)
    requires left <= pos && pos + limit <= |data| && l < pos
    requires l < left ==> Beats(data, pos, limit, best, l)
    requires best.length > 0 ==> best.offset >= pos - left
    ensures Beats(data, pos, limit, Search(data, left, pos, limit, best), l)
    decreases pos - left
  {
    if left < pos {
      var c := CommonLength(data, left, pos, limit, 0);
      var next := if c >= MIN_LENGTH && c > best.length then Found(c, pos - left - 1) else best;
      SearchBeats(data, left + 1, pos, limit, next, l);
    }
  }

  /**
   * The search returns a genuine match, no match in the window is longer, and among equally
   * long ones it is the farthest back; it returns nothing only when there is nothing.
   */
  lemma LongestIsLongest(data: seq<byte>, pos: nat, level: nat, distance: nat)
    requires pos <= |data|
    ensures var f, limit := LongestRepetition(data, pos, level, distance), Threshold(data, pos, level);
            && Genuine(data, pos, limit, f)
            && (f.length > 0 ==> f.offset < distance)
            && (forall l: nat :: WindowStart(pos, distance) <= l < pos ==> Beats(data, pos, limit, f, l))
  {
    var limit := Threshold(data, pos, level);
    if pos > 0 && limit >= MIN_LENGTH {
      SearchGenuine(data, WindowStart(pos, distance), pos, limit, Found(0, 0));
      forall l: nat | WindowStart(pos, distance) <= l < pos
        ensures Beats(data, pos, limit, LongestRepetition(data, pos, level, distance), l)
      {
        SearchBeats(data, WindowStart(pos, distance), pos, limit, Found(0, 0), l);
      }
    }
  }

  /** The token chosen at pos. */
  function Choice(data: seq<byte>, pos: nat): (t: Token)
    requires pos < |data|
    ensures t.Encodable() && t.Size() > 0 && pos + t.Size() <= |data|
    ensures t.Literal? ==> data[pos] == t.value
    ensures t.Match? ==> t.offset < pos && CopyOf(data, pos, t.offset, t.length)
  {
    var f := LongestRepetition(data, pos, MAX_LENGTH, MAX_DISTANCE);
    LongestIsLongest(data, pos, MAX_LENGTH, MAX_DISTANCE);
    if f.length == 0 then Literal(data[pos]) else Match(f.length, f.offset)
  }

  /** The tokens the encoder chooses from pos on. */
  function Greedy(data: seq<byte>, pos: nat): (ts: seq<Token>)
    requires pos <= |data|
    decreases |data| - pos
  {
    if pos == |data| then []
    else [Choice(data, pos)] + Greedy(data, pos + Choice(data, pos).Size())
  }

  lemma {:induction false} GreedySpells(data: seq<byte>, pos: nat)
    requires pos <= |data|
    ensures Spells(Greedy(data, pos), data, pos)
    decreases |data| - pos
  {
    if pos < |data| {
      var next := pos + Choice(data, pos).Size();
      GreedySpells(data, next);
      assert Greedy(data, pos)[1..] == Greedy(data, next);
    }
  }

  /** The byte that carries a long length is never the escape of the raw run. */
  predicate NoEscape(t: Token)
    requires t.Match? && t.Encodable()
  {
    forall e :: e in LengthEvents(t.length) && e.Byte? ==> e.value <= 254
  }

  /** Every match of the encoder is of 3 to 280 bytes, from the last 768, in a form without the escape. */
  lemma {:induction false} GreedyMatches(data: seq<byte>, pos: nat)
    requires pos <= |data|
    ensures forall t :: t in Greedy(data, pos) && t.Match? ==>
                          MIN_LENGTH <= t.length <= MAX_LENGTH && t.offset < MAX_DISTANCE && t.Encodable() && NoEscape(t)
    decreases |data| - pos
  {
    if pos < |data| {
      var t := Choice(data, pos);
      LongestIsLongest(data, pos, MAX_LENGTH, MAX_DISTANCE);
      GreedyMatches(data, pos + t.Size());
      if t.Match? {
        LengthByte(t);
      }
    }
  }

  lemma LengthByte(t: Token)
    requires t.Match? && t.Encodable()
    ensures NoEscape(t)
  {
    if 10 <= t.length <= 25 {
      assert forall e :: e in BitEvents(t.length - 10, 4) ==> e.Bit?;
    }
  }

  /** The encoder's events for data, and the state they leave. */
  function EncodeEvents(data: seq<byte>, pos: nat): seq<Event>
    requires pos <= |data|
  {
    GreedySpells(data, pos);
    SpellsEncodable(Greedy(data, pos), data, pos);
    Events(Greedy(data, pos))
  }

  function FinalState(data: seq<byte>): (st: State)
    ensures st.Valid()
  {
    WriteAll(Start, EncodeEvents(data, 0))
  }

  /** No group of a run of the encoder ever holds more than nine bytes. */
  lemma GroupsBounded(data: seq<byte>, k: nat)
    requires k <= |EncodeEvents(data, 0)|
    ensures Startable(Start, EncodeEvents(data, 0)[..k]) && |WriteAll(Start, EncodeEvents(data, 0)[..k]).pending| <= 9
  {
    GreedySpells(data, 0);
    SpellsEncodable(Greedy(data, 0), data, 0);
    EventsKeepBounded(Start, Greedy(data, 0), k);
  }

  /** The compressed form of data. */
  function Encoded(data: seq<byte>): seq<byte> {
    Finish(FinalState(data))
  }

  // ------------------------------------------------------------------
  // The encoder itself.

  class Encoder {
    var flag: byte
    var shiftIndex: int
    const toWrite: array<byte>
    var indexToWrite: nat
    var out: seq<byte>

    ghost predicate Valid()
      reads this, toWrite
    {
      toWrite.Length == 1024 && indexToWrite <= 1024 && 0 <= shiftIndex <= 8 && Value().Valid()
    }

    ghost function Value(): State
      requires indexToWrite <= toWrite.Length && shiftIndex >= 0
      reads this, toWrite
    {
      State(out, flag, shiftIndex, toWrite[..indexToWrite])
    }

    constructor ()
      ensures Valid() && fresh(toWrite) && Value() == Start
    {
      flag, shiftIndex, indexToWrite, out := 0, 8, 0, [];
      toWrite := new byte[1024](i => 0);
    }

    method FlushFlag(final: bool)
      requires Valid() && (shiftIndex < 8 || final)
      modifies this
      ensures toWrite.Length == 1024 && shiftIndex == old(shiftIndex) && flag == 0 && indexToWrite == 0
      ensures out == old(if final then Finish(Value()) else Flush(Value()).out)
    {
      if !final || indexToWrite > 0 {
        out := out + [flag];
      }
      flag := 0;
      out := out + toWrite[..indexToWrite];
      indexToWrite := 0;
    }

    method SetFlag(value: bool)
      requires Valid()
      modifies this
      ensures Valid() && Value() == Write(old(Value()), Bit(value))
      ensures indexToWrite <= old(indexToWrite)
    {
      Turn();
      if value {
        flag := SetBit(flag, shiftIndex);
      }
    }

    method Turn()
      requires Valid()
      modifies this
      ensures Valid() && Value() == Turned(old(Value())) && indexToWrite <= old(indexToWrite)
    {
      if shiftIndex <= 0 {
        FlushFlag(false);
        shiftIndex := 7;
      } else {
        shiftIndex := shiftIndex - 1;
      }
    }

    method SetFlagsReverse(value: byte, count: nat)
      requires Valid() && count <= 8
      modifies this
      ensures Valid() && Value() == WriteAll(old(Value()), BitEvents(value, count))
      ensures indexToWrite <= old(indexToWrite)
    {
      for i := count downto 0
        invariant Valid() && indexToWrite <= old(indexToWrite)
        invariant WriteAll(Value(), BitEvents(value, i)) == WriteAll(old(Value()), BitEvents(value, count))
      {
        ghost var before := Value();
        var on := value / Pow2(i) % 2 == 1;
        SetFlag(on);
        ReverseNext(before, on, value, i);
      }
    }

    method WriteByte(b: byte)
      requires Valid() && indexToWrite < 1024 && shiftIndex < 8
      modifies this, toWrite
      ensures Valid() && Value() == Write(old(Value()), Byte(b))
      ensures indexToWrite == old(indexToWrite) + 1
    {
      toWrite[indexToWrite] := b;
      indexToWrite := indexToWrite + 1;
    }

    /** One match: the short form, or the long form with its three ways to give the length. */
    method WriteMatch(repLen: nat, repOff: nat)
      requires Valid() && indexToWrite <= 9
      requires Match(repLen, repOff).Encodable()
      modifies this, toWrite
      ensures Valid() && Value() == WriteAll(old(Value()), TokenEvents(Match(repLen, repOff)))
    {
      if repLen <= 6 && repOff <= 0xff {
        WriteShort(repLen, repOff);
      } else {
        ghost var start, t := Value(), Match(repLen, repOff);
        SetFlag(true);
        SetFlag(true);
        WriteHeader(repLen, repOff);
        assert Value() == AfterHeader(start, t);
        LongForm(start, t);
        if repLen > 9 {
          WriteLength(repLen);
        }
      }
    }

    /** A match of up to six bytes from the last 256. */
    method WriteShort(repLen: nat, repOff: nat)
      requires Valid() && indexToWrite <= 9 && Match(repLen, repOff).Encodable() && repLen <= 6 && repOff <= 0xff
      modifies this, toWrite
      ensures Valid() && Value() == WriteAll(old(Value()), TokenEvents(Match(repLen, repOff)))
    {
      ghost var start, t := Value(), Match(repLen, repOff);
      SetFlag(true);
      SetFlag(false);
      ghost var flagged := Write(Write(start, Bit(true)), Bit(false));
      SetFlagsReverse(repLen - 3, 2);
      assert Value() == WriteAll(flagged, BitEvents(repLen - 3, 2));
      WriteByte(repOff);
      ShortForm(start, t);
    }

    /** The two bytes of a long match: the offset, and a length of up to nine. */
    method WriteHeader(repLen: nat, repOff: nat)
      requires Valid() && indexToWrite <= 9 && shiftIndex < 8 && Match(repLen, repOff).Encodable()
      modifies this, toWrite
      ensures var h := HeaderBytes(Match(repLen, repOff));
              Valid() && indexToWrite <= old(indexToWrite) + 2 && Value() == Write(Write(old(Value()), h[0]), h[1])
    {
      var u16 := repOff;
      if repLen <= 9 {
        u16 := u16 + (repLen - 2) * 0x2000;
      }
      ghost var t := Match(repLen, repOff);
      assert u16 / 256 == HeaderBytes(t)[0].value && u16 % 256 == HeaderBytes(t)[1].value;
      WriteByte(u16 / 256);
      WriteByte(u16 % 256);
    }

    /** One round of the encoding loop: a literal byte or the longest match at pos. */
    method EncodeAt(data: seq<byte>, pos: nat) returns (next: nat, ghost t: Token)
      requires Valid() && indexToWrite <= 9 && pos < |data|
      modifies this, toWrite
      ensures t == Choice(data, pos) && next == pos + t.Size()
      ensures Valid() && Value() == WriteAll(old(Value()), TokenEvents(t))
    {
      var repLen, repOff := LzLongestRepetition(data, pos, MAX_LENGTH, MAX_DISTANCE);
      t := Choice(data, pos);
      assert t == if repLen == 0 then Literal(data[pos]) else Match(repLen, repOff);
      if repLen == 0 {
        LiteralForm(Value(), data[pos]);
        SetFlag(false);
        WriteByte(data[pos]);
        next := pos + 1;
      } else {
        WriteMatch(repLen, repOff);
        next := pos + repLen;
      }
    }

    method WriteLength(repLen: nat)
      requires Valid() && indexToWrite <= 11 && shiftIndex < 8 && 10 <= repLen <= MAX_LENGTH
      modifies this, toWrite
      ensures Valid() && Value() == WriteAll(old(Value()), LengthEvents(repLen))
    {
      ghost var start := Value();
      if repLen <= 25 {
        SetFlag(false);
        SetFlagsReverse(repLen - 10, 4);
      } else {
        SetFlag(true);
        WriteByte(repLen - 0x1a);
      }
      LengthForm(start, repLen);
    }
  }

  method LzLongestRepetition(data: seq<byte>, pos: nat, compressionLevel: nat, maxIndexDist: nat)
    returns (matchLen: nat, encodedOffset: nat)
    requires pos <= |data|
    ensures Found(matchLen, encodedOffset) == LongestRepetition(data, pos, compressionLevel, maxIndexDist)
  {
    var threshold := compressionLevel;
    if |data| - pos < threshold {
      threshold := |data| - pos;
    }
    if pos == 0 || threshold < MIN_LENGTH {
      return 0, 0;
    }
    var left := if pos < maxIndexDist then 0 else pos - maxIndexDist;
    matchLen, encodedOffset := 0, 0;
    while left < pos
      invariant left <= pos && matchLen <= threshold
      invariant Search(data, left, pos, threshold, Found(matchLen, encodedOffset))
             == LongestRepetition(data, pos, compressionLevel, maxIndexDist)
      decreases pos - left
    {
      var curLen := 0;
      while curLen < threshold && data[left + curLen] == data[pos + curLen]
        invariant curLen <= threshold
        invariant CommonLength(data, left, pos, threshold, curLen) == CommonLength(data, left, pos, threshold, 0)
      {
        curLen := curLen + 1;
      }
      if curLen >= MIN_LENGTH && curLen > matchLen {
        matchLen, encodedOffset := curLen, pos - left - 1;
        if matchLen >= threshold {
          SearchSaturated(data, left + 1, pos, threshold, Found(matchLen, encodedOffset));
          return;
        }
      }
      left := left + 1;
    }
  }

  /** Once a match is as long as allowed the rest of the window cannot change the answer. */
  lemma {:induction false} SearchSaturated(data: seq<byte>, left: nat, pos: nat, limit: nat, best: Found)
    requires left <= pos && pos + limit <= |data| && best.length >= limit
    ensures Search(data, left, pos, limit, best) == best
    decreases pos - left
  {
    if left < pos {
      SearchSaturated(data, left + 1, pos, limit, best);
    }
  }

  method LzEncode(data: seq<byte>) returns (out: seq<byte>)
    ensures out == Encoded(data)
  {
    var enc := new Encoder();
    ghost var es, final := EncodeEvents(data, 0), FinalState(data);
    var pos := 0;
    while pos < |data|
      invariant pos <= |data| && es == EncodeEvents(data, pos)
      invariant fresh(enc) && fresh(enc.toWrite) && enc.Valid()
      invariant OnTheWay(enc.Value(), es, final)
    {
      pos, es := EncodeNext(enc, data, pos, es, final);
    }
    enc.FlushFlag(true);
    out := enc.out;
  }

  method EncodeNext(enc: Encoder, data: seq<byte>, pos: nat, ghost es: seq<Event>, ghost final: State)
      returns (next: nat, ghost rest: seq<Event>)
    requires pos < |data| && es == EncodeEvents(data, pos) && enc.Valid() && OnTheWay(enc.Value(), es, final)
    modifies enc, enc.toWrite
    ensures enc.Valid() && pos < next <= |data| && rest == EncodeEvents(data, next) && OnTheWay(enc.Value(), rest, final)
  {
    ghost var st, t := enc.Value(), Choice(data, pos);
    next, t := enc.EncodeAt(data, pos);
    rest := EventsBehind(data, pos, t);
    WriteToken(st, t, es, rest, final);
  }

  /** Writing the events es leads from st to the final state. */
  ghost predicate OnTheWay(st: State, es: seq<Event>, final: State)
  {
    st.Bounded() && Startable(st, es) && WriteAll(st, es) == final
  }

  /** Writing the next token keeps to the way. */
  lemma WriteToken(st: State, t: Token, es: seq<Event>, rest: seq<Event>, final: State)
    requires t.Encodable() && es == TokenEvents(t) + rest && (rest == [] || rest[0].Bit?)
    requires OnTheWay(st, es, final)
    ensures OnTheWay(WriteAll(st, TokenEvents(t)), rest, final)
  {
    assert TokenEvents(t)[..|TokenEvents(t)|] == TokenEvents(t);
    TokenKeepsBounded(st, t, |TokenEvents(t)|);
    WriteAllAppend(st, TokenEvents(t), rest);
  }

  /** The events behind the token chosen at pos. */
  lemma EventsBehind(data: seq<byte>, pos: nat, t: Token) returns (rest: seq<Event>)
    requires pos < |data| && t == Choice(data, pos)
    ensures rest == EncodeEvents(data, pos + t.Size()) && (rest == [] || rest[0].Bit?)
    ensures EncodeEvents(data, pos) == TokenEvents(t) + rest
  {
    rest := EncodeEvents(data, pos + t.Size());
  }

  lemma LiteralForm(st: State, b: byte)
    requires st.Valid()
    ensures WriteAll(st, TokenEvents(Literal(b))) == Write(Write(st, Bit(false)), Byte(b))
  {
    WriteAllCons(st, Bit(false), [Byte(b)]);
  }

  lemma ShortForm(st: State, t: Token)
    requires st.Valid() && t.Match? && t.Encodable() && t.length <= 6 && t.offset <= 0xff
    ensures WriteAll(st, TokenEvents(t)) ==
            Write(WriteAll(Write(Write(st, Bit(true)), Bit(false)), BitEvents(t.length - 3, 2)), Byte(t.offset))
  {
    var bits := BitEvents(t.length - 3, 2);
    var s1 := Write(st, Bit(true));
    assert TokenEvents(t) == [Bit(true)] + ([Bit(false)] + (bits + [Byte(t.offset)]));
    WriteAllCons(st, Bit(true), [Bit(false)] + (bits + [Byte(t.offset)]));
    WriteAllCons(s1, Bit(false), bits + [Byte(t.offset)]);
    WriteAllAppend(Write(s1, Bit(false)), bits, [Byte(t.offset)]);
  }

  function AfterHeader(st: State, t: Token): (r: State)
    requires st.Valid() && t.Match? && t.Encodable()
    ensures r.Valid() && r.shift < 8
  {
    Write(Write(Write(Write(st, Bit(true)), Bit(true)), HeaderBytes(t)[0]), HeaderBytes(t)[1])
  }

  lemma LongForm(st: State, t: Token)
    requires st.Valid() && t.Match? && t.Encodable() && !(t.length <= 6 && t.offset <= 0xff)
    ensures WriteAll(st, TokenEvents(t)) == WriteAll(AfterHeader(st, t), LengthEvents(t.length))
  {
    var hi, lo, tail := HeaderBytes(t)[0], HeaderBytes(t)[1], LengthEvents(t.length);
    assert TokenEvents(t) == [Bit(true)] + ([Bit(true)] + ([hi] + ([lo] + tail)));
    WriteAllCons(st, Bit(true), [Bit(true)] + ([hi] + ([lo] + tail)));
    var s1 := Write(st, Bit(true));
    WriteAllCons(s1, Bit(true), [hi] + ([lo] + tail));
    var s2 := Write(s1, Bit(true));
    WriteAllCons(s2, hi, [lo] + tail);
    WriteAllCons(Write(s2, hi), lo, tail);
  }

  lemma LengthForm(st: State, length: nat)
    requires st.Valid() && st.shift < 8 && 10 <= length <= MAX_LENGTH
    ensures WriteAll(st, LengthEvents(length)) ==
            if length <= 25 then WriteAll(Write(st, Bit(false)), BitEvents(length - 10, 4))
            else Write(Write(st, Bit(true)), Byte(length - 26))
  {
    if length <= 25 {
      WriteAllCons(st, Bit(false), BitEvents(length - 10, 4));
    } else {
      assert LengthEvents(length) == [Bit(true)] + [Byte(length - 26)];
      WriteAllCons(st, Bit(true), [Byte(length - 26)]);
    }
  }
}
