/** The LZ decoding loop, over plain bytes (type 3) or Huffman-coded bytes (type 4). */
module LzDecoder {
  import opened Bytes
  import opened ByteFrame
  import opened LzFormat
  import opened Orbits

  // ------------------------------------------------------------------
  // Where the bytes come from.

  /**
   * Plain: the next byte of the buffer. Huffman: the next leaf of the tree whose table starts at tableOffset,
   * found by bits that are read from dataOffset on. Endless: a search for a leaf that goes on for ever.
   */
  datatype Source =
    | Plain(frame: Frame)
    | Huffman(frame: Frame, tableLen: int, tableOffset: nat, dataOffset: int, hfFlag: byte, hfShift: nat)
    | Endless(frame: Frame)
  {
    ghost predicate Sound() {
      frame.Valid() && (Huffman? ==> hfShift <= 7 && (tableLen >= 0x100 ==> dataOffset >= 0))
    }

    /** What a single bit needs. */
    ghost predicate Readable() {
      Huffman? && frame.Valid() && hfShift <= 7 && dataOffset >= 0
    }

    /** The bit stream, which begins where the table ends, begins within the data. */
    ghost predicate Fits() {
      && !Endless?
      && (Huffman? && tableLen >= 0x100 ==> frame.used == |frame.buf| && (frame.err || dataOffset <= frame.used))
    }

    /** How many more edges can be followed before the bits run out and every read gives zero. */
    function EdgesLeft(): nat
      requires Huffman?
    {
      if frame.err || dataOffset > frame.used then 0 else (frame.used - dataOffset) * 8 + hfShift + 1
    }

    /** Reading plain bytes moves the cursor and the error; a search without end stays one. */
    ghost predicate SameStream(other: Source) {
      && other.Plain? == Plain? && (Endless? ==> other.Endless?) && (Fits() ==> other.Fits())
      && (Plain? ==> other.frame.buf == frame.buf && other.frame.used == frame.used && other.frame.order == frame.order
                     && (frame.err ==> other.frame.err))
    }

    /** Type 3 also stops when its input is used up. */
    predicate More() {
      Plain? ==> frame.index < frame.used
    }
  }

  /** Where the entry of node for bit starts, relative to the table. */
  function EntryOffset(node: nat, bit: nat): nat
    requires node >= 0x100 && bit <= 1
  {
    (node * 2 - 0x200 + bit) * 2
  }

  /** One bit of the Huffman stream; a used-up register is refilled from dataOffset. */
  function HuffmanBit(s: Source): (r: (nat, Source))
    requires s.Readable()
    ensures r.0 <= 1 && r.1.Readable() && r.1.tableLen == s.tableLen && (s.Fits() ==> r.1.Fits())
    ensures s.Fits() && s.tableLen >= 0x100 ==> r.1.frame.err || r.1.EdgesLeft() < s.EdgesLeft()
  {
    if s.hfShift == 0 then
      var (flag, frame) := s.frame.SeekStart(s.dataOffset).ReadByte();
      (BitAt(flag, 7), s.(frame := frame, hfFlag := flag, hfShift := 7, dataOffset := s.dataOffset + 1))
    else
      (BitAt(s.hfFlag, s.hfShift - 1), s.(hfShift := s.hfShift - 1))
  }

  /** The child of node on the side of the next bit. */
  function Edge(s: Source, node: nat): (r: (int, Source))
    requires s.Readable() && node >= 0x100
    ensures r.1.Readable() && r.1.tableLen == s.tableLen && (s.Fits() ==> r.1.Fits())
    ensures s.Fits() && s.tableLen >= 0x100 ==> r.0 < 0x100 || r.1.EdgesLeft() < s.EdgesLeft()
  {
    var (bit, s1) := HuffmanBit(s);
    var (child, frame) := s1.frame.SeekStart(s.tableOffset + EntryOffset(node, bit)).ReadSigned(2);
    (child, s1.(frame := frame))
  }

  /** The node reached over at most n edges, and the stream behind it. */
  function Edges(s: Source, node: int, n: nat): (r: (int, Source))
    requires s.Readable()
    ensures r.1.Readable() && (s.Fits() ==> r.1.Fits())
    decreases n
  {
    if n == 0 || node < 0x100 then (node, s)
    else
      var (child, s1) := Edge(s, node);
      Edges(s1, child, n - 1)
  }

  /** Over any table that fits into the data a walk ends, at the latest with the bit behind the last one. */
  lemma {:induction false} WalkEnds(s: Source, node: int, n: nat)
    requires s.Readable() && s.Fits() && s.tableLen >= 0x100 && s.EdgesLeft() < n
    ensures Edges(s, node, n).0 < 0x100
    decreases n
  {
    if node >= 0x100 {
      var (child, s1) := Edge(s, node);
      if child >= 0x100 {
        WalkEnds(s1, child, n - 1);
      }
    }
  }

  /** A walk is a repeated step. */
  ghost function Follow(x: (int, Source)): (int, Source) {
    if x.1.Readable() && x.0 >= 0x100 then Edge(x.1, x.0) else x
  }

  predicate Leaf(x: (int, Source)) { x.0 < 0x100 }

  lemma {:induction false} WalkOrbit(s: Source, node: int, n: nat)
    requires s.Readable()
    ensures Edges(s, node, n) == Orbit(Follow, Leaf, (node, s), n)
    decreases n
  {
    if n > 0 && node >= 0x100 {
      var (child, s1) := Edge(s, node);
      WalkOrbit(s1, child, n - 1);
    }
  }

  /** At a leaf, further edges change nothing. */
  lemma MoreEdges(s: Source, node: int, n: nat, m: nat)
    requires s.Readable() && n <= m && Edges(s, node, n).0 < 0x100
    ensures Edges(s, node, m) == Edges(s, node, n)
  {
    WalkOrbit(s, node, n);
    WalkOrbit(s, node, m);
    OrbitSplits(Follow, Leaf, (node, s), n, m - n);
    OrbitStays(Follow, Leaf, Orbit(Follow, Leaf, (node, s), n), m - n);
  }

  /** The walk from a node meets a leaf, a number below 0x100. */
  ghost predicate Ends(s: Source, node: int)
    requires s.Readable()
  {
    exists n: nat :: Edges(s, node, n).0 < 0x100
  }

  /** Follows one edge of the tree per bit until a leaf. */
  ghost function Walk(s: Source, node: int): (r: (int, Source))
    requires s.Readable()
    ensures r.0 < 0x100 && !r.1.Plain? && r.1.Sound() && (s.tableLen >= 0x100 && s.Fits() ==> r.1.Fits())
  {
    if Ends(s, node) then
      var n: nat :| Edges(s, node, n).0 < 0x100;
      Edges(s, node, n)
    else
      assert s.tableLen >= 0x100 ==> !s.Fits() by {
        if s.tableLen >= 0x100 && s.Fits() {
          WalkEnds(s, node, s.EdgesLeft() + 1);
        }
      }
      (0, Endless(s.frame))
  }

  lemma WalkIs(s: Source, node: int, n: nat)
    requires s.Readable() && Edges(s, node, n).0 < 0x100
    ensures Walk(s, node) == Edges(s, node, n)
  {
    var m: nat :| Edges(s, node, m).0 < 0x100 && Walk(s, node) == Edges(s, node, m);
    if m <= n {
      MoreEdges(s, node, m, n);
    } else {
      MoreEdges(s, node, n, m);
    }
  }

  ghost function NextByte(s: Source): (r: (byte, Source))
    requires s.Sound()
    ensures r.1.Sound() && s.SameStream(r.1)
  {
    match s
    case Plain(frame) =>
      var (b, next) := frame.ReadByte();
      (b, Plain(next))
    case Huffman(_, tableLen, _, _, _, _) =>
      if tableLen < 0x100 then (tableLen % 256, s)
      else
        var (leaf, next) := Walk(s, tableLen);
        (leaf % 256, next)
    case Endless(_) => (0, s)
  }

  // ------------------------------------------------------------------
  // The flag register on top of the source.

  /** shift counts the unused bits of flag. */
  datatype Reader = Reader(src: Source, flag: byte, shift: nat)
  {
    ghost predicate Sound() {
      src.Sound() && shift <= 7
    }
  }

  ghost function NextBit(r: Reader): (b: (nat, Reader))
    requires r.Sound()
    ensures b.0 <= 1 && b.1.Sound() && r.src.SameStream(b.1.src)
  {
    if r.shift == 0 then
      var (flag, src) := NextByte(r.src);
      (BitAt(flag, 7), Reader(src, flag, 7))
    else
      (BitAt(r.flag, r.shift - 1), r.(shift := r.shift - 1))
  }

  ghost function ReaderByte(r: Reader): (b: (byte, Reader))
    requires r.Sound()
    ensures b.1.Sound() && r.src.SameStream(b.1.src)
  {
    var (x, src) := NextByte(r.src);
    (x, r.(src := src))
  }

  /** count bits as a number, first bit most significant. */
  ghost function NextBits(r: Reader, count: nat): (v: (nat, Reader))
    requires r.Sound() && count <= 8
    decreases count
    ensures v.0 < Pow2(count) && v.1.Sound() && r.src.SameStream(v.1.src)
  {
    if count == 0 then (0, r)
    else
      var (b, r1) := NextBit(r);
      var (v, r2) := NextBits(r1, count - 1);
      ((if b == 1 then Pow2(count - 1) else 0) + v, r2)
  }

  /** What is read later is read only if the first bit is. */
  lemma NextBitsReturn(r: Reader, count: nat)
    requires r.Sound() && 0 < count <= 8 && !NextBits(r, count).1.src.Endless?
    ensures !NextBit(r).1.src.Endless? && !NextBits(NextBit(r).1, count - 1).1.src.Endless?
  {
  }

  lemma NextBitsCons(r: Reader, count: nat, b: nat, r1: Reader, low: nat, v: nat, r2: Reader)
    requires r.Sound() && r1.Sound() && 0 < count <= 8
    requires (b, r1) == NextBit(r) && (low, r2) == NextBits(r1, count - 1)
    requires v == (if b == 1 then Pow2(count - 1) else 0) + low
    ensures (v, r2) == NextBits(r, count)
  {
  }

  // ------------------------------------------------------------------
  // Reading one token.

  /** A token, or the escape that is followed by raw bytes. */
  datatype Item = Coded(token: Token) | Raw(count: nat)
  {
    predicate Grows() { if Raw? then count > 0 else token.Size() > 0 }
  }

  ghost function NextItem(r: Reader): (i: (Item, Reader))
    requires r.Sound()
    ensures i.0.Grows() && i.1.Sound() && r.src.SameStream(i.1.src)
  {
    var (b0, r0) := NextBit(r);
    if b0 == 0 then
      var (x, r1) := ReaderByte(r0);
      (Coded(Literal(x)), r1)
    else NextMatch(r0)
  }

  ghost function NextMatch(r: Reader): (i: (Item, Reader))
    requires r.Sound()
    ensures i.0.Grows() && i.1.Sound() && r.src.SameStream(i.1.src)
  {
    var (b1, r1) := NextBit(r);
    if b1 == 0 then NextShort(r1) else NextLong(r1)
  }

  ghost function NextShort(r: Reader): (i: (Item, Reader))
    requires r.Sound()
    ensures i.0.Grows() && i.1.Sound() && r.src.SameStream(i.1.src)
  {
    var (length, r1) := NextBits(r, 2);
    var (offset, r2) := ReaderByte(r1);
    (Coded(Match(length + 3, offset)), r2)
  }

  ghost function NextLong(r: Reader): (i: (Item, Reader))
    requires r.Sound()
    ensures i.0.Grows() && i.1.Sound() && r.src.SameStream(i.1.src)
  {
    var (hi, r1) := ReaderByte(r);
    var (lo, r2) := ReaderByte(r1);
    NextHeader(r2, hi, lo)
  }

  /** The three upper bits are a length, the others an offset. */
  ghost function NextHeader(r: Reader, hi: nat, lo: nat): (i: (Item, Reader))
    requires r.Sound()
    ensures i.0.Grows() && i.1.Sound() && r.src.SameStream(i.1.src)
  {
    NextLength(r, hi / 32, hi % 32 * 256 + lo)
  }

  ghost function NextLength(r: Reader, length: nat, offset: nat): (i: (Item, Reader))
    requires r.Sound()
    ensures i.0.Grows() && i.1.Sound() && r.src.SameStream(i.1.src)
  {
    if length != 0 then (Coded(Match(length + 2, offset)), r)
    else
      var (b, r1) := NextBit(r);
      if b == 0 then NextNibble(r1, offset) else NextExtra(r1, offset)
  }

  ghost function NextNibble(r: Reader, offset: nat): (i: (Item, Reader))
    requires r.Sound()
    ensures i.0.Grows() && i.1.Sound() && r.src.SameStream(i.1.src)
  {
    var (extra, r1) := NextBits(r, 4);
    (Coded(Match(extra + 2 + 8, offset)), r1)
  }

  ghost function NextExtra(r: Reader, offset: nat): (i: (Item, Reader))
    requires r.Sound()
    ensures i.0.Grows() && i.1.Sound() && r.src.SameStream(i.1.src)
  {
    var (extra, r1) := ReaderByte(r);
    (if extra == 0xFF then Raw(offset + 0x1B) else Coded(Match(extra + 0x1a, offset)), r1)
  }

  // ------------------------------------------------------------------
  // The decoding loop.

  /** An index outside the output buffer panics; what is behind an endless search is never reached. */
  datatype Outcome = Panic(rest: Reader) | Done(out: seq<byte>, rest: Reader)
  {
    predicate Hangs() { rest.src.Endless? }
  }

  /** length bytes copied one by one from offset + 1 back, in a buffer of n bytes. */
  function CopyBack(out: seq<byte>, offset: nat, length: nat, n: nat): (r: Maybe<seq<byte>>)
    ensures r.Just? ==> |r.value| == |out| + length && r.value[..|out|] == out && (length > 0 ==> |r.value| <= n)
    decreases length
  {
    if length == 0 then Just(out)
    else if |out| >= n || offset >= |out| then Nothing
    else CopyBack(out + [out[|out| - offset - 1]], offset, length - 1, n)
  }

  /** An escaped run of raw bytes; only the Huffman decoder stops it at the end of the buffer. */
  ghost function RawRun(r: Reader, out: seq<byte>, count: nat, n: nat): (o: Outcome)
    requires r.Sound() && |out| <= n
    ensures o.rest.Sound() && r.src.SameStream(o.rest.src) && (o.Done? ==> |out| <= |o.out| <= n)
    ensures o.Done? && count > 0 && |out| < n ==> |out| < |o.out|
    decreases count
  {
    if count == 0 then Done(out, r)
    else if |out| >= n then (if r.src.Plain? then Panic(r) else Done(out, r))
    else
      var (x, r1) := ReaderByte(r);
      RawRun(r1, out + [x], count - 1, n)
  }

  /** What the item in front of r adds to the output. */
  ghost function Apply(i: Item, r: Reader, out: seq<byte>, n: nat): (o: Outcome)
    requires r.Sound() && i.Grows() && |out| < n
    ensures o.rest.Sound() && r.src.SameStream(o.rest.src) && (o.Done? ==> |out| < |o.out| <= n)
  {
    match i
    case Raw(count) => RawRun(r, out, count, n)
    case Coded(Literal(x)) => Done(out + [x], r)
    case Coded(Match(length, offset)) =>
      var copy := CopyBack(out, offset, length, n);
      if copy.Just? then Done(copy.value, r) else Panic(r)
  }

  /** One token: a literal, or one of the back-reference forms. */
  ghost function Step(r: Reader, out: seq<byte>, n: nat): (o: Outcome)
    requires r.Sound() && |out| < n
    ensures o.rest.Sound() && r.src.SameStream(o.rest.src) && (o.Done? ==> |out| < |o.out| <= n)
  {
    var (i, r1) := NextItem(r);
    Apply(i, r1, out, n)
  }

  /** The bytes decoded into a buffer of n bytes, of which out is already filled. */
  ghost function Decoded(r: Reader, out: seq<byte>, n: nat): (o: Outcome)
    requires r.Sound() && |out| <= n
    ensures o.rest.Sound() && r.src.SameStream(o.rest.src) && (o.Done? ==> |out| <= |o.out| <= n)
    decreases n - |out|
  {
    if |out| == n || !r.src.More() then Done(out, r)
    else
      var o := Step(r, out, n);
      if o.Done? then Decoded(o.rest, o.out, n) else o
  }

  /** One step of decoding. */
  lemma DecodedNext(r: Reader, out: seq<byte>, n: nat)
    requires r.Sound() && |out| < n && r.src.More()
    ensures Decoded(r, out, n) ==
            var o := Step(r, out, n);
            if o.Done? then Decoded(o.rest, o.out, n) else o
  {
  }

  lemma DecodedOnce(r: Reader, out: seq<byte>, n: nat, next: seq<byte>, r1: Reader)
    requires r.Sound() && |out| < n && r.src.More() && Step(r, out, n) == Done(next, r1)
    ensures r1.Sound() && |next| <= n && Decoded(r, out, n) == Decoded(r1, next, n)
  {
  }
}
