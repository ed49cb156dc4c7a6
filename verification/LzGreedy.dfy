/** Which tokens the encoder chooses: the longest stretch that repeats, and a letter only where none does. */
module LzGreedy {
  import opened Bytes
  import opened LzFormat
  import opened LzEncoder
  import JpkRoundTrip

  /** From pos on, length bytes repeat those that stand offset + 1 bytes earlier. */
  ghost predicate Repeats(data: seq<byte>, pos: nat, offset: nat, length: nat) {
    && offset < pos && offset < 768 && 3 <= length <= 280 && pos + length <= |data|
    && forall k :: pos <= k < pos + length ==> data[k] == data[k - offset - 1]
  }

  /** The best token at pos: of all stretches that repeat the longest, of those the farthest back, or else the letter. */
  ghost predicate Best(data: seq<byte>, pos: nat, t: Token) {
    match t
    case Literal(x) =>
      pos < |data| && x == data[pos] && forall offset: nat, length: nat :: !Repeats(data, pos, offset, length)
    case Match(n, back) =>
      Repeats(data, pos, back, n)
      && forall offset: nat, length: nat :: Repeats(data, pos, offset, length) ==> length < n || (length == n && offset <= back)
  }

  lemma ChoiceBest(data: seq<byte>, pos: nat)
    requires pos < |data|
    ensures Best(data, pos, Choice(data, pos))
  {
    LongestIsLongest(data, pos, MAX_LENGTH, MAX_DISTANCE);
    var f := LongestRepetition(data, pos, MAX_LENGTH, MAX_DISTANCE);
    if f.length > 0 {
      assert Repeats(data, pos, f.offset, f.length);
    }
    forall offset: nat, length: nat | Repeats(data, pos, offset, length)
      ensures f.length > length || (f.length == length && f.offset >= offset)
    {
      JpkRoundTrip.NoLongerMatch(data, pos, offset, length);
    }
  }

  /** How many bytes the tokens stand for. */
  function Length(ts: seq<Token>): nat {
    if ts == [] then 0 else ts[0].Size() + Length(ts[1..])
  }

  lemma LengthFirst(ts: seq<Token>, i: nat)
    requires i < |ts|
    ensures Length(ts[..i + 1]) == ts[0].Size() + Length(ts[1..][..i])
  {
    assert ts[..i + 1][0] == ts[0] && ts[..i + 1][1..] == ts[1..][..i];
  }

  /** Every token is good at its place. */
  ghost predicate Each(good: (nat, Token) -> bool, pos: nat, ts: seq<Token>) {
    forall i :: 0 <= i < |ts| ==> good(pos + Length(ts[..i]), ts[i])
  }

  lemma EachCons(good: (nat, Token) -> bool, pos: nat, ts: seq<Token>)
    requires ts != []
    ensures Each(good, pos, ts) <==> good(pos, ts[0]) && Each(good, pos + ts[0].Size(), ts[1..])
  {
    assert ts[..0] == [] && Length(ts[..0]) == 0;
    forall i | 0 <= i < |ts| - 1
      ensures Length(ts[..i + 1]) == ts[0].Size() + Length(ts[1..][..i]) && ts[1..][i] == ts[i + 1]
    {
      LengthFirst(ts, i);
    }
    if Each(good, pos, ts) {
      forall i | 0 <= i < |ts[1..]|
        ensures good(pos + ts[0].Size() + Length(ts[1..][..i]), ts[1..][i])
      {
        assert good(pos + Length(ts[..i + 1]), ts[i + 1]);
      }
    }
    if good(pos, ts[0]) && Each(good, pos + ts[0].Size(), ts[1..]) {
      forall i | 0 <= i < |ts|
        ensures good(pos + Length(ts[..i]), ts[i])
      {
        if i > 0 {
          assert good(pos + ts[0].Size() + Length(ts[1..][..i - 1]), ts[1..][i - 1]);
        }
      }
    }
  }

  lemma BestOnce(data: seq<byte>, pos: nat, t: Token, t': Token)
    requires Best(data, pos, t) && Best(data, pos, t')
    ensures t == t'
  {
    if t.Match? {
      assert Repeats(data, pos, t.offset, t.length);
    }
    if t'.Match? {
      assert Repeats(data, pos, t'.offset, t'.length);
    }
  }

  lemma BestIff(data: seq<byte>, pos: nat, t: Token)
    ensures Best(data, pos, t) <==> pos < |data| && t == Choice(data, pos)
  {
    if pos < |data| {
      ChoiceBest(data, pos);
      if Best(data, pos, t) {
        BestOnce(data, pos, t, Choice(data, pos));
      }
    }
  }

  lemma GreedyCons(data: seq<byte>, pos: nat, ts: seq<Token>)
    requires pos < |data| && ts != []
    ensures ts == Greedy(data, pos) <==> ts[0] == Choice(data, pos) && ts[1..] == Greedy(data, pos + Choice(data, pos).Size())
  {
    assert ts == [ts[0]] + ts[1..];
  }

  lemma {:induction false} GreedyEach(data: seq<byte>, good: (nat, Token) -> bool, pos: nat, ts: seq<Token>)
    requires forall p: nat, t :: good(p, t) <==> p < |data| && t == Choice(data, p)
    requires pos <= |data|
    ensures ts == Greedy(data, pos) <==> pos + Length(ts) == |data| && Each(good, pos, ts)
    decreases |data| - pos
  {
    if ts != [] {
      EachCons(good, pos, ts);
      if pos < |data| {
        GreedyCons(data, pos, ts);
        GreedyEach(data, good, pos + Choice(data, pos).Size(), ts[1..]);
      }
    }
  }

  /** The encoder's list is the one list, as long as the data, of which every token is the best at its place. */
  lemma GreedyBest(data: seq<byte>, ts: seq<Token>)
    ensures ts == Greedy(data, 0) <==>
            Length(ts) == |data| && forall i :: 0 <= i < |ts| ==> Best(data, Length(ts[..i]), ts[i])
  {
    var good := (p: nat, t: Token) => p < |data| && t == Choice(data, p);
    GreedyEach(data, good, 0, ts);
    forall i | 0 <= i < |ts|
      ensures good(Length(ts[..i]), ts[i]) <==> Best(data, Length(ts[..i]), ts[i])
    {
      BestIff(data, Length(ts[..i]), ts[i]);
    }
  }

  // ------------------------------------------------------------------
  // "abcabc": three letters and a match of the short form.

  const TWICE: seq<byte> := [0x61, 0x62, 0x63, 0x61, 0x62, 0x63]

  lemma TwiceTokens(data: seq<byte>, a: byte, b: byte, c: byte)
    requires data == [a, b, c, a, b, c] && a != b && b != c && c != a
    ensures Greedy(data, 0) == [Literal(a), Literal(b), Literal(c), Match(3, 2)]
  {
    var ts := [Literal(a), Literal(b), Literal(c), Match(3, 2)];
    LetterBest(data, 0);
    LetterBest(data, 1);
    LetterBest(data, 2);
    assert Best(data, 3, ts[3]) by {
      assert Repeats(data, 3, 2, 3);
    }
    BestNext(data, 0, ts[0]);
    BestNext(data, 1, ts[1]);
    BestNext(data, 2, ts[2]);
    BestNext(data, 3, ts[3]);
    assert Greedy(data, 6) == [];
  }

  /** A byte that did not occur before is a letter. */
  lemma LetterBest(data: seq<byte>, pos: nat)
    requires pos < |data| && data[pos] !in data[..pos]
    ensures Best(data, pos, Literal(data[pos]))
  {
    forall offset: nat, length: nat | offset < pos
      ensures !Repeats(data, pos, offset, length)
    {
      assert data[pos - offset - 1] == data[..pos][pos - offset - 1];
    }
  }

  lemma BestNext(data: seq<byte>, pos: nat, t: Token)
    requires pos < |data| && Best(data, pos, t)
    ensures pos + t.Size() <= |data| && Greedy(data, pos) == [t] + Greedy(data, pos + t.Size())
  {
    BestIff(data, pos, t);
  }

  /** It packs to a flag byte 0001_0000, the letters and the offset 2. */
  lemma TwicePacked()
    ensures Encoded(TWICE) == [0x10, 0x61, 0x62, 0x63, 0x02]
  {
    TwiceTokens(TWICE, 0x61, 0x62, 0x63);
    TwiceWritten(TWICE, 0x61, 0x62, 0x63);
  }

  lemma TwiceWritten(data: seq<byte>, a: byte, b: byte, c: byte)
    requires Greedy(data, 0) == [Literal(a), Literal(b), Literal(c), Match(3, 2)]
    ensures Encoded(data) == [0x10, a, b, c, 2]
  {
    var last := [Match(3, 2)];
    var st := ThreeLetters(a, b, c, last);
    MatchLast(st);
    assert Greedy(data, 0) == [Literal(a)] + ([Literal(b)] + ([Literal(c)] + last));
    assert FinalState(data) == WriteAll(st, Events(last));
  }

  lemma ThreeLetters(a: byte, b: byte, c: byte, ts: seq<Token>) returns (st: State)
    requires forall t :: t in ts ==> t.Encodable()
    ensures st == State([], 0, 5, [a, b, c]) && st.Valid()
    ensures WriteAll(Start, Events([Literal(a)] + ([Literal(b)] + ([Literal(c)] + ts)))) == WriteAll(st, Events(ts))
  {
    var t2 := [Literal(c)] + ts;
    var t1 := [Literal(b)] + t2;
    st := LetterFirst(Start, a, t1);
    st := LetterFirst(st, b, t2);
    st := LetterFirst(st, c, ts);
  }

  lemma MatchLast(st: State)
    requires st.Valid() && st.flag == 0 && st.shift == 5
    ensures WriteAll(st, Events([Match(3, 2)])) == State(st.out, 0x10, 1, st.pending + [2])
  {
    WriteFirst(st, [Match(3, 2)]);
    TwiceMatch(st);
    assert [Match(3, 2)][1..] == [];
  }

  /** A letter takes one flag bit, which stays clear, and one byte. */
  lemma LetterFirst(st: State, x: byte, ts: seq<Token>) returns (next: State)
    requires st.Valid() && st.shift > 0 && forall t :: t in ts ==> t.Encodable()
    ensures next == State(st.out, st.flag, st.shift - 1, st.pending + [x]) && next.Valid()
    ensures WriteAll(st, Events([Literal(x)] + ts)) == WriteAll(next, Events(ts))
  {
    next := Write(Write(st, Bit(false)), Byte(x));
    WriteFirst(st, [Literal(x)] + ts);
    LiteralForm(st, x);
    assert ([Literal(x)] + ts)[1..] == ts;
  }

  lemma TwiceMatch(st: State)
    requires st.Valid() && st.flag == 0 && st.shift == 5
    ensures WriteAll(st, TokenEvents(Match(3, 2))) == State(st.out, 0x10, 1, st.pending + [2])
  {
    ShortForm(st, Match(3, 2));
    var flagged := Write(Write(st, Bit(true)), Bit(false));
    assert flagged == State(st.out, 0x10, 3, st.pending);
    assert BitEvents(0, 2) == [Bit(false), Bit(false)];
    assert [Bit(false), Bit(false)][1..] == [Bit(false)] && [Bit(false)][1..] == [];
  }

  /** The events of the first token come first. */
  lemma WriteFirst(st: State, ts: seq<Token>)
    requires st.Valid() && ts != [] && forall t :: t in ts ==> t.Encodable()
    ensures WriteAll(st, Events(ts)) == WriteAll(WriteAll(st, TokenEvents(ts[0])), Events(ts[1..]))
  {
    WriteAllAppend(st, TokenEvents(ts[0]), Events(ts[1..]));
  }
}
