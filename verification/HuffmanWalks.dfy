/** Which walks over a Huffman table end. */
module HuffmanWalks {
  import opened Bytes
  import opened ByteFrame
  import opened LzFormat
  import opened LzDecoder
  import opened Orbits

  // ------------------------------------------------------------------
  // A bit stream that would begin behind the data: only the cursor, the bit register and the node matter.

  /** The same table, in data in front of the bit stream. */
  ghost predicate Beyond(s: Source, data: seq<byte>, order: Order, tableOffset: nat) {
    && s.Readable() && s.frame.buf == data && s.frame.used == |data| && s.frame.order == order && s.tableOffset == tableOffset
    && !s.frame.err && s.dataOffset > |data|
  }

  /** The place of a state among those with the same table: node, cursor and bit register. */
  function Kind(x: (int, Source), size: nat): nat {
    if x.0 < 0 || !x.1.Huffman? then 0 else Joined(Joined(Joined(x.0, x.1.frame.index, size + 1), x.1.hfFlag, 256), x.1.hfShift, 8)
  }

  function Joined(high: nat, low: nat, base: nat): nat { high * base + low }

  lemma JoinedBelow(high: nat, low: nat, base: nat, bound: nat)
    requires high < bound && low < base
    ensures Joined(high, low, base) < bound * base
  {
    assert high * base <= (bound - 1) * base;
  }

  lemma JoinedApart(high: nat, low: nat, high': nat, low': nat, base: nat)
    requires low < base && low' < base && Joined(high, low, base) == Joined(high', low', base)
    ensures high == high' && low == low'
  {
    DivisionUnique(base, high, low, high', low');
  }

  function Kinds(size: nat): nat { 0x8000 * (size + 1) * 256 * 8 }

  ghost predicate Inner(x: (int, Source), data: seq<byte>, order: Order, tableOffset: nat) {
    0x100 <= x.0 < 0x8000 && Beyond(x.1, data, order, tableOffset)
  }

  lemma KindBelow(x: (int, Source), data: seq<byte>, order: Order, tableOffset: nat)
    requires Inner(x, data, order, tableOffset)
    ensures Kind(x, |data|) < Kinds(|data|)
  {
    var size, s := |data| + 1, x.1;
    var a := Joined(x.0, s.frame.index, size);
    JoinedBelow(x.0, s.frame.index, size, 0x8000);
    JoinedBelow(a, s.hfFlag, 256, 0x8000 * size);
    JoinedBelow(Joined(a, s.hfFlag, 256), s.hfShift, 8, 0x8000 * size * 256);
  }

  lemma KindDecides(x: (int, Source), y: (int, Source), data: seq<byte>, order: Order, tableOffset: nat)
    requires Inner(x, data, order, tableOffset) && Inner(y, data, order, tableOffset) && Kind(x, |data|) == Kind(y, |data|)
    ensures x.0 == y.0 && x.1.frame == y.1.frame && x.1.hfFlag == y.1.hfFlag && x.1.hfShift == y.1.hfShift
  {
    var size, s, t := |data| + 1, x.1, y.1;
    var a, b := Joined(x.0, s.frame.index, size), Joined(y.0, t.frame.index, size);
    JoinedApart(Joined(a, s.hfFlag, 256), s.hfShift, Joined(b, t.hfFlag, 256), t.hfShift, 8);
    JoinedApart(a, s.hfFlag, b, t.hfFlag, 256);
    JoinedApart(x.0, s.frame.index, y.0, t.frame.index, size);
  }

  /** An edge that leads to an inner node stays in front of the bit stream. */
  lemma EdgeInner(x: (int, Source), data: seq<byte>, order: Order, tableOffset: nat)
    requires Inner(x, data, order, tableOffset) && !Leaf(Follow(x))
    ensures Inner(Follow(x), data, order, tableOffset)
  {
    var (bit, s) := HuffmanBit(x.1);
    var f := s.frame.SeekStart(tableOffset + EntryOffset(x.0, bit));
    if f.Take(2).0.Just? {
      DecodeBounded(f.Take(2).0.value, order);
    }
  }

  lemma EdgeDecided(x: (int, Source), y: (int, Source), data: seq<byte>, order: Order, tableOffset: nat)
    requires Inner(x, data, order, tableOffset) && Inner(y, data, order, tableOffset) && Kind(x, |data|) == Kind(y, |data|)
    ensures Follow(x).0 == Follow(y).0 && Kind(Follow(x), |data|) == Kind(Follow(y), |data|)
  {
    KindDecides(x, y, data, order, tableOffset);
  }

  /** Whether a walk ends is decided by so many edges. */
  function Enough(s: Source): nat
    requires s.Huffman?
  {
    if s.frame.err || s.dataOffset <= s.frame.used then s.EdgesLeft() + 1 else Kinds(|s.frame.buf|)
  }

  /**
   * A walk ends if and only if it meets a leaf within a number of edges that is known in advance: all bits there
   * are, if the bit stream begins within the data, and else one edge for every state the decoder can be in.
   */
  lemma EndsIff(s: Source, node: int)
    requires s.Readable() && s.tableLen >= 0x100 && s.frame.used == |s.frame.buf| && node < 0x8000
    ensures Ends(s, node) <==> Edges(s, node, Enough(s)).0 < 0x100
  {
    if s.Fits() {
      WalkEnds(s, node, Enough(s));
    } else if node >= 0x100 && Ends(s, node) {
      var n: nat :| Edges(s, node, n).0 < 0x100;
      EndsBeyond(s, node, n);
    }
  }

  /** So it is with reading a byte. */
  lemma ReadsIff(s: Source)
    requires s.Huffman? && s.Sound() && s.frame.used == |s.frame.buf| && s.tableLen < 0x8000
    ensures NextByte(s).1.Endless? <==> s.tableLen >= 0x100 && Edges(s, s.tableLen, Enough(s)).0 >= 0x100
  {
    if s.tableLen >= 0x100 {
      EndsIff(s, s.tableLen);
    }
  }

  lemma EndsBeyond(s: Source, node: int, n: nat)
    requires s.Huffman? && Inner((node, s), s.frame.buf, s.frame.order, s.tableOffset) && Edges(s, node, n).0 < 0x100
    ensures Edges(s, node, Kinds(|s.frame.buf|)).0 < 0x100
  {
    var data, order, tableOffset := s.frame.buf, s.frame.order, s.tableOffset;
    var inv, kind := x => Inner(x, data, order, tableOffset), x => Kind(x, |data|);
    var bound := Kinds(|data|);
    WalkOrbit(s, node, n);
    WalkOrbit(s, node, bound);
    forall x | inv(x) && !Leaf(x)
      ensures kind(x) < bound && (!Leaf(Follow(x)) ==> inv(Follow(x)))
    {
      KindBelow(x, data, order, tableOffset);
      if !Leaf(Follow(x)) {
        EdgeInner(x, data, order, tableOffset);
      }
    }
    forall x, y | inv(x) && inv(y) && !Leaf(x) && !Leaf(y) && kind(x) == kind(y)
      ensures Leaf(Follow(x)) == Leaf(Follow(y)) && (!Leaf(Follow(x)) ==> kind(Follow(x)) == kind(Follow(y)))
    {
      EdgeDecided(x, y, data, order, tableOffset);
    }
    EndsSoon(Follow, Leaf, inv, kind, bound, (node, s), n);
  }
}
