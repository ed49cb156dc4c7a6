/** Which bytes a Huffman-coded stream stands for, said of the bytes of the table and of the stream themselves. */
module HuffmanCodes {
  import opened Bytes
  import opened ByteFrame
  import opened LzFormat
  import opened LzDecoder
  import opened Hfi
  import opened JpkRoundTrip
  import Jpk
  import LzEncoder

  // ------------------------------------------------------------------
  // The code.

  /** Each node has four bytes: its left child and its right child, low byte first. */
  predicate HasChild(d: seq<byte>, table: nat, node: nat, bit: nat) {
    node >= 0x100 && bit <= 1 && table + 4 * (node - 0x100) + 2 * bit + 2 <= |d|
  }

  function Child(d: seq<byte>, table: nat, node: nat, bit: nat): int
    requires HasChild(d, table, node, bit)
  {
    var k := table + 4 * (node - 0x100) + 2 * bit;
    var low: nat, high: nat := d[k], d[k + 1];
    var v := low + 256 * high;
    if v < 0x8000 then v else v - 0x1_0000
  }

  /** path leads from node to a leaf that stands for x. */
  predicate Leads(d: seq<byte>, table: nat, node: int, path: seq<nat>, x: byte)
    decreases |path|
  {
    if path == [] then node < 0x100 && x == node % 256
    else node >= 0x100 && HasChild(d, table, node, path[0]) && Leads(d, table, Child(d, table, node, path[0]), path[1..], x)
  }

  function Joined(paths: seq<seq<nat>>): seq<nat> {
    if paths == [] then [] else paths[0] + Joined(paths[1..])
  }

  /** bits are the paths from the root to bytes, one behind the other. */
  ghost predicate Codes(d: seq<byte>, table: nat, root: int, paths: seq<seq<nat>>, bytes: seq<byte>) {
    |paths| == |bytes| && forall i :: 0 <= i < |paths| ==> Leads(d, table, root, paths[i], bytes[i])
  }

  /** The bits stand in d from byte start on, eight to a byte, the most significant one first. */
  ghost predicate Stands(d: seq<byte>, start: int, bits: seq<nat>) {
    forall k :: 0 <= k < |bits| ==> 0 <= start + k / 8 < |d| && bits[k] == d[start + k / 8] / Pow2(7 - k % 8) % 2
  }

  // ------------------------------------------------------------------
  // The decoder's registers after k bits.

  ghost predicate At(s: Source, d: seq<byte>, table: nat, root: int, start: int, k: nat) {
    && s.Sound() && s.Huffman? && s.frame.buf == d && s.frame.used == |d| && !s.frame.err && s.frame.order.Little?
    && s.tableOffset == table && s.tableLen == root && s.dataOffset == start + (k + 7) / 8
    && s.hfShift == (8 - k % 8) % 8
    && (k % 8 != 0 ==> 0 <= start + k / 8 < |d| && s.hfFlag == d[start + k / 8])
  }

  lemma BitStands(s: Source, d: seq<byte>, table: nat, root: int, start: nat, bits: seq<nat>, k: nat)
    requires At(s, d, table, root, start, k) && Stands(d, start, bits) && k < |bits|
    ensures HuffmanBit(s).0 == bits[k] && At(HuffmanBit(s).1, d, table, root, start, k + 1)
  {
    Registers(k);
    assert bits[k] == BitAt(d[start + k / 8], 7 - k % 8);
  }

  /** How the two registers move on with one bit. */
  lemma Registers(k: nat)
    ensures k % 8 == 0 ==> (k + 7) / 8 == k / 8 && (8 - k % 8) % 8 == 0 && (8 - (k + 1) % 8) % 8 == 7
                           && (k + 1) / 8 == k / 8 && (k + 1 + 7) / 8 == (k + 7) / 8 + 1
    ensures k % 8 != 0 ==> (8 - k % 8) % 8 == 8 - k % 8 && (8 - (k + 1) % 8) % 8 == 7 - k % 8
                           && (k + 1 + 7) / 8 == (k + 7) / 8 && ((k + 1) % 8 != 0 ==> (k + 1) / 8 == k / 8)
  {
  }

  lemma DecodePair(a: byte, b: byte)
    ensures Signed(Decode([a, b], Little), 2) == if a + 256 * b < 0x8000 then a + 256 * b else a + 256 * b - 0x1_0000
  {
    assert [a, b][1..] == [b];
    DecodeOne(b, Little);
    assert Pow256(2) == 256 * 256;
  }

  lemma EdgeStands(s: Source, d: seq<byte>, table: nat, root: int, start: nat, bits: seq<nat>, k: nat, node: nat)
    requires At(s, d, table, root, start, k) && Stands(d, start, bits) && k < |bits| && HasChild(d, table, node, bits[k])
    ensures Edge(s, node).0 == Child(d, table, node, bits[k]) && At(Edge(s, node).1, d, table, root, start, k + 1)
  {
    BitStands(s, d, table, root, start, bits, k);
    var i := table + 4 * (node - 0x100) + 2 * bits[k];
    assert d[i..i + 2] == [d[i], d[i + 1]];
    DecodePair(d[i], d[i + 1]);
  }

  /** path is what the bits say from the k-th on. */
  ghost predicate Next(bits: seq<nat>, k: nat, path: seq<nat>) {
    k + |path| <= |bits| && bits[k..k + |path|] == path
  }

  lemma NextTail(bits: seq<nat>, k: nat, path: seq<nat>)
    requires Next(bits, k, path) && path != []
    ensures path[0] == bits[k] && Next(bits, k + 1, path[1..])
  {
    assert bits[k..k + |path|][1..] == bits[k + 1..k + |path|];
  }

  /** One edge more in front of a walk. */
  lemma EdgeFirst(s: Source, node: nat, n: nat, s1: Source, child: int)
    requires s.Readable() && node >= 0x100 && (child, s1) == Edge(s, node)
    ensures s1.Readable() && Edges(s, node, n + 1) == Edges(s1, child, n)
  {
  }

  lemma FirstEdge(s: Source, d: seq<byte>, table: nat, root: int, start: nat, bits: seq<nat>, k: nat,
                  node: int, path: seq<nat>, x: byte) returns (child: int, s1: Source)
    requires At(s, d, table, root, start, k) && Stands(d, start, bits) && Next(bits, k, path) && Leads(d, table, node, path, x)
    requires path != []
    ensures At(s1, d, table, root, start, k + 1) && Next(bits, k + 1, path[1..]) && Leads(d, table, child, path[1..], x)
    ensures s.Readable() && s1.Readable() && Edges(s, node, |path|) == Edges(s1, child, |path[1..]|)
  {
    NextTail(bits, k, path);
    EdgeStands(s, d, table, root, start, bits, k, node);
    child, s1 := Edge(s, node).0, Edge(s, node).1;
    EdgeFirst(s, node, |path[1..]|, s1, child);
  }

  /** The walk ended at a leaf for x, with k bits read. */
  ghost predicate Reached(r: (int, Source), d: seq<byte>, table: nat, root: int, start: int, k: nat, x: byte) {
    r.0 < 0x100 && x == r.0 % 256 && At(r.1, d, table, root, start, k)
  }

  lemma {:induction false} PathStands(s: Source, d: seq<byte>, table: nat, root: int, start: nat, bits: seq<nat>, k: nat,
                                      node: int, path: seq<nat>, x: byte, end: nat)
    requires At(s, d, table, root, start, k) && Stands(d, start, bits) && Next(bits, k, path) && Leads(d, table, node, path, x)
    requires end == k + |path|
    ensures s.Readable() && Reached(Edges(s, node, |path|), d, table, root, start, end, x)
    decreases |path|
  {
    if path == [] {
      assert Edges(s, node, 0) == (node, s);
    } else {
      var child, s1 := FirstEdge(s, d, table, root, start, bits, k, node, path, x);
      PathStands(s1, d, table, root, start, bits, k + 1, child, path[1..], x, end);
    }
  }

  lemma NextLeaf(s: Source, r: (int, Source), n: nat)
    requires s.Huffman? && s.Sound() && s.tableLen >= 0x100 && s.Readable() && r == Edges(s, s.tableLen, n) && r.0 < 0x100
    ensures NextByte(s) == (r.0 % 256, r.1)
  {
    WalkIs(s, s.tableLen, n);
  }

  lemma ByteStands(s: Source, d: seq<byte>, table: nat, root: int, start: int, bits: seq<nat>, k: nat, path: seq<nat>, x: byte,
                   end: nat)
    requires At(s, d, table, root, start, k) && Stands(d, start, bits) && (root >= 0x100 ==> start >= 0)
    requires Next(bits, k, path) && Leads(d, table, root, path, x) && end == k + |path|
    ensures NextByte(s).0 == x && At(NextByte(s).1, d, table, root, start, end)
  {
    if root < 0x100 {
      assert path == [] && end == k;
    } else {
      PathStands(s, d, table, root, start, bits, k, root, path, x, end);
      NextLeaf(s, Edges(s, root, |path|), |path|);
    }
  }

  lemma {:induction false} JoinedSplits(paths: seq<seq<nat>>, i: nat)
    requires i < |paths|
    ensures Next(Joined(paths), |Joined(paths[..i])|, paths[i])
    ensures |Joined(paths[..i + 1])| == |Joined(paths[..i])| + |paths[i]|
    decreases i
  {
    var p, rest := paths[0], paths[1..];
    assert paths[..i + 1][0] == p && paths[..i + 1][1..] == rest[..i];
    if i == 0 {
      assert paths[..1][1..] == [];
    } else {
      assert paths[..i][0] == p && paths[..i][1..] == rest[..i - 1];
      JoinedSplits(rest, i - 1);
      var k := |Joined(rest[..i - 1])|;
      assert Joined(paths)[|p| + k..|p| + k + |rest[i - 1]|] == Joined(rest)[k..k + |rest[i - 1]|];
    }
  }

  /** The registers in front of byte i. */
  ghost predicate InFront(s: Source, d: seq<byte>, table: nat, root: int, start: int, paths: seq<seq<nat>>, i: nat)
    requires s.Sound() && i <= |paths|
  {
    At(After(s, i), d, table, root, start, |Joined(paths[..i])|)
  }

  /** What the lemmas about a coded stream start from. */
  ghost predicate Carried(s: Source, d: seq<byte>, table: nat, root: int, start: int, paths: seq<seq<nat>>, bytes: seq<byte>) {
    && s.Sound() && At(s, d, table, root, start, 0) && Stands(d, start, Joined(paths)) && (root >= 0x100 ==> start >= 0)
    && Codes(d, table, root, paths, bytes)
  }

  lemma NextStands(s: Source, d: seq<byte>, table: nat, root: int, start: int, paths: seq<seq<nat>>, bytes: seq<byte>, i: nat)
    requires Carried(s, d, table, root, start, paths, bytes) && i < |bytes| && InFront(s, d, table, root, start, paths, i)
    ensures NextByte(After(s, i)).0 == bytes[i] && InFront(s, d, table, root, start, paths, i + 1)
  {
    JoinedSplits(paths, i);
    ByteStands(After(s, i), d, table, root, start, Joined(paths), |Joined(paths[..i])|, paths[i], bytes[i],
               |Joined(paths[..i + 1])|);
  }

  lemma {:induction false} AfterStands(s: Source, d: seq<byte>, table: nat, root: int, start: int, paths: seq<seq<nat>>,
                                       bytes: seq<byte>, i: nat)
    requires Carried(s, d, table, root, start, paths, bytes) && i <= |bytes|
    ensures InFront(s, d, table, root, start, paths, i)
    decreases i
  {
    if i > 0 {
      AfterStands(s, d, table, root, start, paths, bytes, i - 1);
      NextStands(s, d, table, root, start, paths, bytes, i - 1);
    }
  }

  /**
   * A table gives every byte it has a leaf for a path of left and right turns. Whatever bytes are coded by their
   * paths, packed most significant bit first behind the table, those bytes are what the decoder yields.
   */
  lemma StreamStands(s: Source, d: seq<byte>, table: nat, root: int, start: int, paths: seq<seq<nat>>, bytes: seq<byte>)
    requires Carried(s, d, table, root, start, paths, bytes)
    ensures Stream(s, |bytes|) == bytes && !After(s, |bytes|).Endless?
  {
    AfterStands(s, d, table, root, start, paths, bytes, |bytes|);
    forall i | 0 <= i < |bytes|
      ensures NextByte(After(s, i)).0 == bytes[i]
    {
      AfterStands(s, d, table, root, start, paths, bytes, i);
      NextStands(s, d, table, root, start, paths, bytes, i);
    }
  }

  // ------------------------------------------------------------------
  // A whole container.

  const TABLE := Jpk.HEADER_SIZE + 2

  /** The header, the number of the root, the table, and behind it the paths of the encoded data. */
  ghost predicate Container(p: seq<byte>, data: seq<byte>, root: nat, paths: seq<seq<nat>>) {
    && |p| >= TABLE && p[..Jpk.HEADER_SIZE] == Jpk.Header(4, |data|)
    && root < 0x8000 && p[Jpk.HEADER_SIZE] == root % 256 && p[Jpk.HEADER_SIZE + 1] == root / 256
    && Codes(p, TABLE, root, paths, LzEncoder.Encoded(data))
    && Stands(p, TABLE + 4 * (root - 0xff), Joined(paths))
  }

  /** The decoder's registers behind the number of the root. */
  lemma RootRead(p: seq<byte>, root: nat, i: nat)
    requires i + 2 <= |p| && root < 0x8000 && p[i] == root % 256 && p[i + 1] == root / 256
    ensures At(Jpk.HuffmanAt(FrameOf(p).(order := Little, index := i)), p, i + 2, root, i + 2 + 4 * (root - 0xff), 0)
  {
    assert p[i..i + 2] == [p[i], p[i + 1]];
    DecodePair(p[i], p[i + 1]);
  }

  lemma ContainerSource(p: seq<byte>, data: seq<byte>, root: nat, paths: seq<seq<nat>>)
    requires Container(p, data, root, paths) && |data| < SIZE_LIMIT
    ensures var info := Jpk.ReadInfo(p);
            && info.magic == Jpk.JKR_MAGIC && info.kind == 4 && info.start >= 0 && info.size == |data|
            && At(Jpk.SourceOf(info), p, TABLE, root, TABLE + 4 * (root - 0xff), 0)
  {
    ReadHeader(p, 4, |data|);
    RootRead(p, root, Jpk.HEADER_SIZE);
  }

  /** Unpacking such a container returns the data, when the encoder kept its last flag byte. */
  lemma UnpackCoded(p: seq<byte>, data: seq<byte>, root: nat, paths: seq<seq<nat>>)
    requires Container(p, data, root, paths) && |data| < SIZE_LIMIT && LzEncoder.FinalState(data).pending != []
    ensures Jpk.Unpacked(p) == Jpk.Bytes(data)
  {
    ContainerSource(p, data, root, paths);
    var s := Jpk.SourceOf(Jpk.ReadInfo(p));
    StreamStands(s, p, TABLE, root, TABLE + 4 * (root - 0xff), paths, LzEncoder.Encoded(data));
    HuffmanDecodesEncoded(s, data);
    Returned(p, s, data);
  }

  lemma Returned(p: seq<byte>, s: Source, data: seq<byte>)
    requires var info := Jpk.ReadInfo(p);
             info.magic == Jpk.JKR_MAGIC && info.kind == 4 && info.start >= 0 && info.size == |data| && s == Jpk.SourceOf(info)
    requires s.Sound()
    requires Decoded(Reader(s, 0, 0), [], |data|).Done? && Decoded(Reader(s, 0, 0), [], |data|).out == data
    requires !Decoded(Reader(s, 0, 0), [], |data|).Hangs()
    ensures Jpk.Unpacked(p) == Jpk.Bytes(data)
  {
    assert data + Zeros(0) == data;
  }

  // ------------------------------------------------------------------
  // A container of one letter: the left leaf of the root is 0, the right one the letter, and the paths are 0 and 1.

  lemma LetterEncoded(data: seq<byte>, x: byte)
    requires data == [x]
    ensures LzEncoder.FinalState(data).pending != [] && LzEncoder.Encoded(data) == [0, x]
  {
    assert LzEncoder.Greedy(data, 1) == [];
    assert LzEncoder.Greedy(data, 0) == [Literal(x)] + [];
    assert Events([Literal(x)]) == TokenEvents(Literal(x)) by { assert Events([Literal(x)][1..]) == []; }
    LzEncoder.LiteralForm(LzEncoder.Start, x);
  }

  lemma LetterPaths(p: seq<byte>, x: byte)
    requires |p| >= 22 && p[16] == 0 && p[17] == 1 && p[18] == 0 && p[19] == 0 && p[20] == x && p[21] == 0
    ensures Codes(p, 18, 0x100, [[0], [1]], [0, x]) && Joined([[0], [1]]) == [0, 1]
  {
    assert Leads(p, 18, 0, [], 0) && Leads(p, 18, x, [], x);
    assert [0][1..] == [] && [1][1..] == [];
    assert Child(p, 18, 0x100, 0) == 0 && Child(p, 18, 0x100, 1) == x;
    assert [[0], [1]][1..] == [[1]] && [[1]][1..] == [];
  }

  lemma LetterStands(p: seq<byte>)
    requires |p| == 23 && p[22] == 0x40
    ensures Stands(p, 22, [0, 1])
  {
    forall k | 0 <= k < 2
      ensures [0, 1][k] == p[22 + k / 8] / Pow2(7 - k % 8) % 2
    {
      assert k == 0 || k == 1;
    }
  }

  lemma LetterContainer(p: seq<byte>, data: seq<byte>, x: byte)
    requires data == [x] && p == Jpk.Header(4, |data|) + [0, 1, 0, 0, x, 0, 0x40]
    ensures Container(p, data, 0x100, [[0], [1]])
  {
    LetterEncoded(data, x);
    LetterPaths(p, x);
    LetterStands(p);
    assert p[..Jpk.HEADER_SIZE] == Jpk.Header(4, |data|);
  }

  lemma LetterUnpacks(p: seq<byte>, data: seq<byte>, x: byte)
    requires data == [x] && p == Jpk.Header(4, |data|) + [0, 1, 0, 0, x, 0, 0x40]
    ensures Jpk.Unpacked(p) == Jpk.Bytes(data)
  {
    LetterContainer(p, data, x);
    LetterEncoded(data, x);
    UnpackCoded(p, data, 0x100, [[0], [1]]);
  }
}
