/** The type-4 decoder does on Huffman-coded bytes what the type-3 decoder does on those bytes. */
module Hfi {
  import opened Bytes
  import opened ByteFrame
  import opened LzFormat
  import opened LzDecoder
  import opened LzRoundTrip
  import opened JpkRoundTrip
  import Jpk
  import LzEncoder

  // ------------------------------------------------------------------
  // The table.

  /** Where the bit stream of a table starts. */
  function StreamStart(tableLen: int, tableOffset: nat): int {
    tableOffset + tableLen * 4 - 0x3fc
  }

  /**
   * The entries of the nodes 0x100 to tableLen lie one behind the other, two bytes each, from
   * the table's first byte to the byte where the bit stream starts.
   */
  lemma TableTiles(tableLen: int, tableOffset: nat, address: nat)
    requires tableLen >= 0x100
    ensures tableOffset <= address < StreamStart(tableLen, tableOffset) <==>
            exists node: nat, bit: nat :: 0x100 <= node <= tableLen && bit <= 1
              && tableOffset + EntryOffset(node, bit) <= address < tableOffset + EntryOffset(node, bit) + 2
  {
    if tableOffset <= address < StreamStart(tableLen, tableOffset) {
      var k := (address - tableOffset) / 2;
      var node, bit := 0x100 + k / 2, k % 2;
      assert EntryOffset(node, bit) == 2 * k;
    }
  }

  lemma EntriesDisjoint(node: nat, bit: nat, node': nat, bit': nat)
    requires node >= 0x100 && node' >= 0x100 && bit <= 1 && bit' <= 1
    requires (node, bit) != (node', bit')
    ensures EntryOffset(node, bit) + 2 <= EntryOffset(node', bit') || EntryOffset(node', bit') + 2 <= EntryOffset(node, bit)
  {
  }

  // ------------------------------------------------------------------
  // Where walks end.

  /** A table cut off behind the root's left child, which is the root, and one more byte; the bit stream would begin outside. */
  ghost predicate Stuck(s: Source) {
    && s.Readable() && !s.frame.err && s.frame.order.Little? && s.frame.used == |s.frame.buf| == s.tableOffset + 3
    && s.frame.buf[s.tableOffset..] == [0, 1, 0] && s.dataOffset > s.frame.used && s.hfFlag == 0
    && (s.frame.index == s.tableOffset + 2 || (s.frame.index == s.tableOffset && s.hfShift == 0))
  }

  lemma EdgeStuck(s: Source, node: nat)
    requires Stuck(s) && node == 0x100
    ensures Edge(s, node).0 == node && Stuck(Edge(s, node).1)
  {
    var t, bs := s.tableOffset, s.frame.buf;
    assert bs[t] == bs[t..][0] && bs[t + 2] == bs[t..][2];
    assert forall k: nat :: k <= 7 ==> BitAt(0, k) == 0;
    assert bs[t..t + 2] == bs[t..][..2] == [0, 1];
    DecodeRoot();
  }

  lemma DecodeRoot()
    ensures Signed(Decode([0, 1], Little), 2) == 0x100
  {
    assert Decode([0, 1][1..], Little) == 1 by { DecodeOne(1, Little); assert [0, 1][1..] == [1]; }
  }

  lemma {:induction false} StuckForEver(s: Source, node: nat, n: nat)
    requires Stuck(s) && node == 0x100
    ensures Edges(s, node, n).0 == node
    decreases n
  {
    if n > 0 {
      EdgeStuck(s, node);
      StuckForEver(Edge(s, node).1, node, n - 1);
    }
  }

  /** A container with such a table. */
  function Truncated(size: nat): seq<byte> { Jpk.Header(4, size) + [0, 1, 0, 1, 0] }

  /** Unpacking it never returns: the very first walk visits the root for ever. */
  lemma TruncatedNeverReturns(size: nat)
    requires 0 < size < SIZE_LIMIT
    ensures Jpk.Unpacked(Truncated(size)) == Jpk.NeverReturns
  {
    var p := Truncated(size);
    assert p[..Jpk.HEADER_SIZE] == Jpk.Header(4, size);
    ReadHeader(p, 4, size);
    assert p[Jpk.HEADER_SIZE..] == [0, 1, 0, 1, 0];
    var s := TruncatedSource(p);
    forall n: nat
      ensures Edges(s, s.tableLen, n).0 >= 0x100
    {
      StuckForEver(s, s.tableLen, n);
    }
    EndlessHangs(Reader(s, 0, 0), size);
  }

  lemma EndlessHangs(r: Reader, n: nat)
    requires r.Sound() && r.src.Huffman? && r.shift == 0 && NextByte(r.src).1.Endless? && n > 0
    ensures Decoded(r, [], n).Hangs()
  {
    assert NextBit(r).1.src.Endless?;
    DecodedNext(r, [], n);
  }

  /** Unpacking returns whenever there is no table, or it fits into the data, whatever it holds. */
  lemma FittingReturns(data: seq<byte>)
    requires var info := Jpk.ReadInfo(data);
             Jpk.Recognised(info) && info.kind == 4 && info.start >= 0 ==>
               var s := Jpk.SourceOf(info); s.tableLen >= 0x100 ==> s.dataOffset <= |data|
    ensures !Jpk.Unpacked(data).NeverReturns?
  {
  }

  lemma TruncatedSource(p: seq<byte>) returns (s: Source)
    requires |p| == Jpk.HEADER_SIZE + 5 && p[Jpk.HEADER_SIZE..] == [0, 1, 0, 1, 0]
    ensures s == Jpk.HuffmanAt(FrameOf(p).(order := Little, index := Jpk.HEADER_SIZE)) && s.tableLen == 0x100 && Stuck(s)
  {
    s := Jpk.HuffmanAt(FrameOf(p).(order := Little, index := Jpk.HEADER_SIZE));
    assert p[Jpk.HEADER_SIZE..Jpk.HEADER_SIZE + 2] == p[Jpk.HEADER_SIZE..][..2] == [0, 1];
    DecodeRoot();
    assert p[Jpk.HEADER_SIZE + 2..] == p[Jpk.HEADER_SIZE..][2..] == [0, 1, 0];
  }

  // ------------------------------------------------------------------
  // The decoded byte stream.

  ghost function After(s: Source, k: nat): (r: Source)
    requires s.Sound()
    ensures r.Sound() && s.SameStream(r)
  {
    if k == 0 then s else NextByte(After(s, k - 1)).1
  }

  /** The first k bytes that s yields. */
  ghost function Stream(s: Source, k: nat): (bs: seq<byte>)
    requires s.Sound()
    ensures |bs| == k
  {
    seq(k, i requires 0 <= i < k => NextByte(After(s, i)).0)
  }

  ghost predicate Yields(s: Source, bytes: seq<byte>) {
    && s.Sound() && s.Huffman? && !After(s, |bytes|).Endless?
    && forall i :: 0 <= i < |bytes| ==> bytes[i] == NextByte(After(s, i)).0
  }

  lemma {:induction false} EndlessStays(s: Source, i: nat, k: nat)
    requires s.Sound() && i <= k && !After(s, k).Endless?
    ensures !After(s, i).Endless?
    decreases k
  {
    if i < k {
      EndlessStays(s, i, k - 1);
    }
  }

  /** p reads bytes, the stream of s, and has not run over its end; h reads the stream from s itself. */
  ghost predicate Abreast(p: Reader, h: Reader, s: Source, bytes: seq<byte>)
  {
    && Yields(s, bytes)
    && p.Sound() && p.src.Plain? && p.flag == h.flag && p.shift == h.shift
    && p.src.frame.buf == bytes && p.src.frame.used == |bytes| && !p.src.frame.err
    && p.src.frame.index <= |bytes| && h.src == After(s, p.src.frame.index) && !h.src.Endless?
  }

  predicate Overran(r: Reader) { r.src.frame.err }

  lemma ByteAbreast(p: Reader, h: Reader, s: Source, bytes: seq<byte>, x: byte, p1: Reader) returns (h1: Reader)
    requires Abreast(p, h, s, bytes) && (x, p1) == ReaderByte(p) && !Overran(p1)
    ensures (x, h1) == ReaderByte(h) && Abreast(p1, h1, s, bytes)
  {
    h1 := StreamSide(h, s, bytes, p.src.frame.index, x);
  }

  lemma StreamSide(h: Reader, s: Source, bytes: seq<byte>, i: nat, x: byte) returns (h1: Reader)
    requires Yields(s, bytes) && i < |bytes| && h.src == After(s, i) && x == bytes[i] && h.shift <= 7
    ensures (x, h1) == ReaderByte(h) && h1.src == After(s, i + 1) && h1.flag == h.flag && h1.shift == h.shift
    ensures !h1.src.Endless?
  {
    EndlessStays(s, i + 1, |bytes|);
    h1 := ReaderByte(h).1;
  }

  lemma BitAbreast(p: Reader, h: Reader, s: Source, bytes: seq<byte>, b: nat, p1: Reader) returns (h1: Reader)
    requires Abreast(p, h, s, bytes) && (b, p1) == NextBit(p) && !Overran(p1)
    ensures (b, h1) == NextBit(h) && Abreast(p1, h1, s, bytes)
  {
    if p.shift == 0 {
      var (x, p2) := ReaderByte(p);
      var h2 := ByteAbreast(p, h, s, bytes, x, p2);
      h1 := Reader(h2.src, x, 7);
    } else {
      h1 := h.(shift := h.shift - 1);
    }
  }

  /** Both sides read the same number. */
  ghost predicate Equal(v: (nat, Reader), v': (nat, Reader), s: Source, bytes: seq<byte>) {
    v.0 == v'.0 && Abreast(v.1, v'.1, s, bytes)
  }

  lemma {:induction false} BitsAbreast(p: Reader, h: Reader, count: nat, s: Source, bytes: seq<byte>)
    requires Abreast(p, h, s, bytes) && h.Sound() && count <= 8 && !Overran(NextBits(p, count).1)
    ensures Equal(NextBits(p, count), NextBits(h, count), s, bytes)
    decreases count
  {
    if count > 0 {
      var h1 := FirstAbreast(p, h, count, s, bytes);
      var p1, b := NextBit(p).1, NextBit(p).0;
      BitsAbreast(p1, h1, count - 1, s, bytes);
      BitsEqual(p, h, count, b, p1, h1, NextBits(p1, count - 1), NextBits(h1, count - 1), s, bytes);
    }
  }

  lemma BitsEqual(p: Reader, h: Reader, count: nat, b: nat, p1: Reader, h1: Reader, v: (nat, Reader), v': (nat, Reader),
                  s: Source, bytes: seq<byte>)
    requires p.Sound() && h.Sound() && p1.Sound() && h1.Sound() && 0 < count <= 8
    requires (b, p1) == NextBit(p) && (b, h1) == NextBit(h)
    requires v == NextBits(p1, count - 1) && v' == NextBits(h1, count - 1) && Equal(v, v', s, bytes)
    ensures Equal(NextBits(p, count), NextBits(h, count), s, bytes)
  {
    var n := (if b == 1 then Pow2(count - 1) else 0) + v.0;
    NextBitsCons(p, count, b, p1, v.0, n, v.1);
    NextBitsCons(h, count, b, h1, v'.0, n, v'.1);
    assert NextBits(p, count) == (n, v.1) && NextBits(h, count) == (n, v'.1);
  }

  lemma FirstAbreast(p: Reader, h: Reader, count: nat, s: Source, bytes: seq<byte>) returns (h1: Reader)
    requires Abreast(p, h, s, bytes) && h.Sound() && 0 < count <= 8 && !Overran(NextBits(p, count).1)
    ensures NextBit(h) == (NextBit(p).0, h1) && Abreast(NextBit(p).1, h1, s, bytes)
    ensures !Overran(NextBits(NextBit(p).1, count - 1).1)
  {
    h1 := BitAbreast(p, h, s, bytes, NextBit(p).0, NextBit(p).1);
  }

  // ------------------------------------------------------------------
  // The same item, and the same step.

  /** Both sides read the same item. */
  ghost predicate Agree(i: (Item, Reader), i': (Item, Reader), s: Source, bytes: seq<byte>) {
    i.0 == i'.0 && Abreast(i.1, i'.1, s, bytes)
  }

  lemma ItemAbreast(p: Reader, h: Reader, s: Source, bytes: seq<byte>)
    requires Abreast(p, h, s, bytes) && !Overran(NextItem(p).1)
    ensures Agree(NextItem(p), NextItem(h), s, bytes)
  {
    var (b, p1) := NextBit(p);
    var h1 := BitAbreast(p, h, s, bytes, b, p1);
    if b == 0 {
      var (x, p2) := ReaderByte(p1);
      var h2 := ByteAbreast(p1, h1, s, bytes, x, p2);
    } else {
      MatchAbreast(p1, h1, s, bytes);
    }
  }

  lemma MatchAbreast(p: Reader, h: Reader, s: Source, bytes: seq<byte>)
    requires Abreast(p, h, s, bytes) && !Overran(NextMatch(p).1)
    ensures Agree(NextMatch(p), NextMatch(h), s, bytes)
  {
    var (b, p1) := NextBit(p);
    var h1 := BitAbreast(p, h, s, bytes, b, p1);
    if b == 0 {
      ShortAbreast(p1, h1, s, bytes);
    } else {
      LongAbreast(p1, h1, s, bytes);
    }
  }

  lemma ShortAbreast(p: Reader, h: Reader, s: Source, bytes: seq<byte>)
    requires Abreast(p, h, s, bytes) && !Overran(NextShort(p).1)
    ensures Agree(NextShort(p), NextShort(h), s, bytes)
  {
    var p1 := NextBits(p, 2).1;
    var (offset, p2) := ReaderByte(p1);
    BitsAbreast(p, h, 2, s, bytes);
    var h2 := ByteAbreast(p1, NextBits(h, 2).1, s, bytes, offset, p2);
  }

  lemma LongAbreast(p: Reader, h: Reader, s: Source, bytes: seq<byte>)
    requires Abreast(p, h, s, bytes) && !Overran(NextLong(p).1)
    ensures Agree(NextLong(p), NextLong(h), s, bytes)
  {
    var (hi, p1) := ReaderByte(p);
    var (lo, p2) := ReaderByte(p1);
    var h1 := ByteAbreast(p, h, s, bytes, hi, p1);
    var h2 := ByteAbreast(p1, h1, s, bytes, lo, p2);
    HeaderAbreast(p2, h2, hi, lo, s, bytes);
  }

  lemma HeaderAbreast(p: Reader, h: Reader, hi: nat, lo: nat, s: Source, bytes: seq<byte>)
    requires Abreast(p, h, s, bytes) && !Overran(NextHeader(p, hi, lo).1)
    ensures Agree(NextHeader(p, hi, lo), NextHeader(h, hi, lo), s, bytes)
  {
    var length, offset := hi / 32, hi % 32 * 256 + lo;
    assert NextHeader(p, hi, lo) == NextLength(p, length, offset) && NextHeader(h, hi, lo) == NextLength(h, length, offset);
    LengthAbreast(p, h, length, offset, s, bytes);
  }

  lemma LengthAbreast(p: Reader, h: Reader, length: nat, offset: nat, s: Source, bytes: seq<byte>)
    requires Abreast(p, h, s, bytes) && !Overran(NextLength(p, length, offset).1)
    ensures Agree(NextLength(p, length, offset), NextLength(h, length, offset), s, bytes)
  {
    if length == 0 {
      var (b, p1) := NextBit(p);
      var h1 := BitAbreast(p, h, s, bytes, b, p1);
      if b == 0 {
        BitsAbreast(p1, h1, 4, s, bytes);
      } else {
        var (x, p2) := ReaderByte(p1);
        var h2 := ByteAbreast(p1, h1, s, bytes, x, p2);
      }
    }
  }

  /** Both steps succeed alike. */
  ghost predicate Alike(o: Outcome, o': Outcome, s: Source, bytes: seq<byte>) {
    o.Done? && o'.Done? && o.out == o'.out && Abreast(o.rest, o'.rest, s, bytes)
  }

  /** The plain decoder's step succeeds within its input. */
  predicate Succeeds(o: Outcome) { o.Done? && !Overran(o.rest) }

  lemma {:induction false} RawAbreast(p: Reader, h: Reader, out: seq<byte>, count: nat, n: nat, s: Source, bytes: seq<byte>)
    requires Abreast(p, h, s, bytes) && |out| <= n && Succeeds(RawRun(p, out, count, n))
    ensures Alike(RawRun(p, out, count, n), RawRun(h, out, count, n), s, bytes)
    decreases count
  {
    if count > 0 {
      var (x, p1) := ReaderByte(p);
      var h1 := ByteAbreast(p, h, s, bytes, x, p1);
      RawAbreast(p1, h1, out + [x], count - 1, n, s, bytes);
    }
  }

  lemma StepAbreast(p: Reader, h: Reader, out: seq<byte>, n: nat, s: Source, bytes: seq<byte>)
    requires Abreast(p, h, s, bytes) && |out| < n && Succeeds(Step(p, out, n))
    ensures Alike(Step(p, out, n), Step(h, out, n), s, bytes)
  {
    var (i, p1) := NextItem(p);
    ItemAbreast(p, h, s, bytes);
    if i.Raw? {
      RawAbreast(p1, NextItem(h).1, out, i.count, n, s, bytes);
    }
  }

  /**
   * Whenever the plain decoder fills its buffer from the given bytes of the Huffman stream
   * without reading beyond them, the Huffman decoder fills it with the same bytes.
   */
  lemma {:induction false} DecodedAbreast(p: Reader, h: Reader, out: seq<byte>, n: nat, s: Source, bytes: seq<byte>)
    requires Abreast(p, h, s, bytes) && |out| <= n
    requires Succeeds(Decoded(p, out, n)) && |Decoded(p, out, n).out| == n
    ensures Decoded(h, out, n).Done? && Decoded(h, out, n).out == Decoded(p, out, n).out && !Decoded(h, out, n).Hangs()
    decreases n - |out|
  {
    if |out| < n {
      assert p.src.More();
      var o := Step(p, out, n);
      StepAbreast(p, h, out, n, s, bytes);
      var h1 := Step(h, out, n).rest;
      DecodedAbreast(o.rest, h1, o.out, n, s, bytes);
    }
  }

  /** The two decoders from their start. */
  lemma HuffmanRefinesPlain(s: Source, k: nat, n: nat)
    requires s.Sound() && s.Huffman? && !After(s, k).Endless?
    requires var o := Decoded(Reader(Plain(FrameOf(Stream(s, k))), 0, 0), [], n);
             Succeeds(o) && |o.out| == n
    ensures Decoded(Reader(s, 0, 0), [], n).Done? && !Decoded(Reader(s, 0, 0), [], n).Hangs()
    ensures Decoded(Reader(s, 0, 0), [], n).out == Decoded(Reader(Plain(FrameOf(Stream(s, k))), 0, 0), [], n).out
  {
    DecodedAbreast(Reader(Plain(FrameOf(Stream(s, k))), 0, 0), Reader(s, 0, 0), [], n, s, Stream(s, k));
  }

  /** Huffman-coding the encoder's output loses nothing when its last flag byte was kept. */
  lemma HuffmanDecodesEncoded(s: Source, data: seq<byte>)
    requires s.Sound() && s.Huffman? && LzEncoder.FinalState(data).pending != []
    requires !After(s, |LzEncoder.Encoded(data)|).Endless? && Stream(s, |LzEncoder.Encoded(data)|) == LzEncoder.Encoded(data)
    ensures Decoded(Reader(s, 0, 0), [], |data|).Done? && !Decoded(Reader(s, 0, 0), [], |data|).Hangs()
    ensures Decoded(Reader(s, 0, 0), [], |data|).out == data
  {
    var k := |LzEncoder.Encoded(data)|;
    var r := Reader(Plain(FrameOf(Stream(s, k))), 0, 0);
    assert Unread(r.src.frame) == LzEncoder.Encoded(data);
    DecodedWhole(r, data);
    HuffmanRefinesPlain(s, k, |data|);
  }
}
