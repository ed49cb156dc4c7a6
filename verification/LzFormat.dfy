/**
 * The JPK type-3 wire format: flag bits grouped eight to a byte, MSB first, each
 * flag byte followed by the data bytes written while its bits were being used.
 */
module LzFormat {
  import opened Bytes

  const MIN_LENGTH := 3
  const MAX_LENGTH := 280
  const MAX_DISTANCE := 0x300
  const OFFSET_LIMIT := 0x2000

  /** What an encoder emits and a decoder consumes, in program order. */
  datatype Event = Bit(on: bool) | Byte(value: byte)

  /** A literal byte, or a copy of length bytes from offset + 1 bytes back. */
  datatype Token = Literal(value: byte) | Match(length: nat, offset: nat)
  {
    predicate Encodable() {
      Match? ==> MIN_LENGTH <= length <= MAX_LENGTH && offset < OFFSET_LIMIT
    }

    function Size(): nat {
      if Literal? then 1 else length
    }

    /** The flag bits that carry a length follow all data bytes of this token. */
    predicate EndsInBits() {
      Match? && 10 <= length <= 25
    }
  }

  function Pow2(k: nat): (p: nat)
    requires k <= 8
    ensures 1 <= p <= 256
  {
    match k
    case 0 => 1
    case 1 => 2
    case 2 => 4
    case 3 => 8
    case 4 => 16
    case 5 => 32
    case 6 => 64
    case 7 => 128
    case 8 => 256
  }

  /** Bit k of a byte, as a shift and a mask read it. */
  function BitAt(v: byte, k: nat): (b: nat)
    requires k <= 7
    ensures b <= 1
  {
    v / Pow2(k) % 2
  }

  /** The low k + 1 bits are bit k followed by the low k bits. */
  lemma BitBelow(v: byte, k: nat)
    requires k <= 7
    ensures v % Pow2(k + 1) == BitAt(v, k) * Pow2(k) + v % Pow2(k)
    ensures v % Pow2(k + 1) == 0 ==> BitAt(v, k) == 0 && v + Pow2(k) < 256 && (v + Pow2(k)) % Pow2(k) == 0
  {
    Halves(v, Pow2(k));
    assert Pow2(k + 1) == 2 * Pow2(k);
    if v % Pow2(k + 1) == 0 {
      QuotientUnique(v + Pow2(k), Pow2(k), v / Pow2(k) + 1, 0);
      Fits(v, k);
    }
  }

  lemma Halves(v: nat, m: nat)
    requires m > 0
    ensures v % (2 * m) == (v / m % 2) * m + v % m
  {
    var q, r := v / m, v % m;
    var h, b := q / 2, q % 2;
    assert v == h * (2 * m) + (b * m + r) by {
      assert v == q * m + r;
      assert q * m == (2 * h + b) * m == h * (2 * m) + b * m;
    }
    assert 0 <= b * m + r < 2 * m;
    QuotientUnique(v, 2 * m, h, b * m + r);
  }

  lemma Fits(v: byte, k: nat)
    requires k <= 7 && v % Pow2(k + 1) == 0
    ensures v + Pow2(k) < 256
  {
    match k
    case 0 => case 1 => case 2 => case 3 => case 4 => case 5 => case 6 => case 7 =>
  }

  /** The low count bits of value, most significant first. */
  function BitEvents(value: nat, count: nat): (es: seq<Event>)
    requires count <= 8
    ensures |es| == count
    ensures forall e :: e in es ==> e.Bit?
  {
    if count == 0 then []
    else [Bit(value / Pow2(count - 1) % 2 == 1)] + BitEvents(value, count - 1)
  }

  function TokenEvents(t: Token): (es: seq<Event>)
    requires t.Encodable()
    ensures es != [] && es[0].Bit?
  {
    if t.Literal? then [Bit(false), Byte(t.value)]
    else if t.length <= 6 && t.offset <= 0xff then
      [Bit(true), Bit(false)] + BitEvents(t.length - 3, 2) + [Byte(t.offset)]
    else
      [Bit(true), Bit(true)] + HeaderBytes(t) + LengthEvents(t.length)
  }

  /** The 16-bit offset header; a length up to 9 shares its top three bits. */
  function HeaderBytes(t: Token): (es: seq<Event>)
    requires t.Match? && t.Encodable()
    ensures |es| == 2 && es[0].Byte? && es[1].Byte?
  {
    var high := t.offset / 256 + (if t.length <= 9 then 32 * (t.length - 2) else 0);
    [Byte(high), Byte(t.offset % 256)]
  }

  function LengthEvents(length: nat): seq<Event>
    requires MIN_LENGTH <= length <= MAX_LENGTH
  {
    if length <= 9 then []
    else if length <= 25 then [Bit(false)] + BitEvents(length - 10, 4)
    else [Bit(true), Byte(length - 26)]
  }

  function Events(ts: seq<Token>): seq<Event>
    requires forall t :: t in ts ==> t.Encodable()
  {
    if ts == [] then [] else TokenEvents(ts[0]) + Events(ts[1..])
  }

  // ------------------------------------------------------------------
  // Layout of events as bytes.

  /** The next s flag bits among es as a number, first bit most significant, padded with zeros. */
  function FlagBits(es: seq<Event>, s: nat): (v: nat)
    requires s <= 8
    ensures v < Pow2(s)
    decreases |es|
  {
    if s == 0 || es == [] then 0
    else if es[0].Byte? then FlagBits(es[1..], s)
    else (if es[0].on then Pow2(s - 1) else 0) + FlagBits(es[1..], s - 1)
  }

  /** The bytes still to come when s bits of the flag byte already emitted are unused. */
  function Wire(es: seq<Event>, s: nat): seq<byte>
    requires s <= 7
    decreases |es|
  {
    if es == [] then []
    else if es[0].Byte? then [es[0].value] + Wire(es[1..], s)
    else if s > 0 then Wire(es[1..], s - 1)
    else [FlagBits(es, 8)] + Wire(es[1..], 7)
  }

  // ------------------------------------------------------------------
  // What a token list means.

  /** ts, applied after the first pos bytes of data, spells out the rest of data. */
  ghost predicate Spells(ts: seq<Token>, data: seq<byte>, pos: nat)
    decreases |ts|
  {
    if ts == [] then pos == |data|
    else
      && ts[0].Encodable()
      && pos + ts[0].Size() <= |data|
      && (ts[0].Literal? ==> data[pos] == ts[0].value)
      && (ts[0].Match? ==> ts[0].offset < pos && CopyOf(data, pos, ts[0].offset, ts[0].length))
      && Spells(ts[1..], data, pos + ts[0].Size())
  }

  /** The length bytes at pos repeat those offset + 1 earlier; the two stretches may overlap. */
  ghost predicate CopyOf(data: seq<byte>, pos: nat, offset: nat, length: nat)
    requires offset < pos && pos + length <= |data|
  {
    forall k :: pos <= k < pos + length ==> data[k] == data[k - offset - 1]
  }

  lemma {:induction false} SpellsEncodable(ts: seq<Token>, data: seq<byte>, pos: nat)
    requires Spells(ts, data, pos)
    ensures forall t :: t in ts ==> t.Encodable()
    ensures pos <= |data|
    decreases |ts|
  {
    if ts != [] {
      SpellsEncodable(ts[1..], data, pos + ts[0].Size());
    }
  }
}
