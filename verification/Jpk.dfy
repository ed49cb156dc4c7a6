/** JPK containers: PackSimple, and UnpackSimple with its two decoders. */
module Jpk {
  import opened Bytes
  import opened ByteFrame
  import opened LzFormat
  import opened LzDecoder
  import LzEncoder

  const JKR_MAGIC := 0x1A524B4A
  const HEADER_SIZE := 16

  // ------------------------------------------------------------------
  // What packing and unpacking compute.

  function Header(kind: nat, size: nat): (h: seq<byte>)
    ensures |h| == HEADER_SIZE
  {
    Encode(JKR_MAGIC, 4, Little) + Encode(0x0108, 2, Little) + Encode(kind, 2, Little)
    + Encode(HEADER_SIZE, 4, Little) + Encode(size, 4, Little)
  }

  function Packed(data: seq<byte>): seq<byte> {
    Header(3, |data|) + LzEncoder.Encoded(data)
  }

  /** Output, a Go panic, or a loop without end. */
  datatype Result = Bytes(value: seq<byte>) | Panicked | NeverReturns

  /** What the header of a container says, read little-endian through the sticky error. */
  datatype Info = Info(magic: nat, kind: nat, start: int, size: int, after: Frame)

  function ReadInfo(data: seq<byte>): Info {
    var (magic, f1) := FrameOf(data).(order := Little).ReadUnsigned(4);
    var (kind, f2) := f1.SeekCurrent(2).ReadUnsigned(2);
    var (start, f3) := f2.ReadSigned(4);
    var (size, f4) := f3.ReadSigned(4);
    Info(magic, kind, start, size, f4)
  }

  /** The Huffman decoder's state in front of a table. */
  function HuffmanAt(f: Frame): (s: Source)
    ensures f.Valid() ==> s.Sound()
  {
    var (tableLen, g) := f.ReadSigned(2);
    Huffman(g, tableLen, g.index, g.index + tableLen * 4 - 0x3fc, 0, 0)
  }

  function SourceOf(info: Info): (s: Source)
    requires info.start >= 0
    ensures info.after.Valid() ==> s.Sound()
  {
    var f := info.after.SeekStart(info.start);
    if info.kind == 3 then Plain(f) else HuffmanAt(f)
  }

  predicate Recognised(info: Info) {
    info.magic == JKR_MAGIC && (info.kind == 3 || info.kind == 4)
  }

  /** The output buffer: what was decoded, and zeros where decoding stopped early. */
  function Filled(o: Outcome, n: nat): Result
    requires o.Done? ==> |o.out| <= n
  {
    if o.Hangs() then NeverReturns else if o.Panic? then Panicked else Bytes(o.out + Zeros(n - |o.out|))
  }

  /**
   * A negative start wraps the unsigned cursor. Reads that wrap it back index far outside the
   * buffer; all others fail, and a stream of zeros decodes to zeros.
   */
  function Wrapped(info: Info): Result
    requires info.start < 0 <= info.size
  {
    if !info.after.err && (if info.kind == 3 then info.start == -1 && info.size > 0 else info.start >= -2)
    then Panicked
    else Bytes(Zeros(info.size))
  }

  ghost function Unpacked(data: seq<byte>): Result {
    var info := ReadInfo(data);
    if !Recognised(info) then Bytes(data)
    else if info.size < 0 then Panicked
    else if info.start < 0 then Wrapped(info)
    else Filled(Decoded(Reader(SourceOf(info), 0, 0), [], info.size), info.size)
  }

  // ------------------------------------------------------------------
  // The decoders.

  /** Copies length bytes within the buffer; false is an index out of range. */
  method JPKCopy(outBuffer: array<byte>, offset: nat, length: nat, index: nat) returns (ok: bool, next: nat)
    requires index <= outBuffer.Length
    modifies outBuffer
    ensures next <= outBuffer.Length
    ensures ok == old(CopyBack(outBuffer[..index], offset, length, outBuffer.Length)).Just?
    ensures ok ==> outBuffer[..next] == old(CopyBack(outBuffer[..index], offset, length, outBuffer.Length)).value
    ensures ok ==> next == index + length && outBuffer[next..] == old(outBuffer[..])[next..]
  {
    next := index;
    ghost var before := outBuffer[..];
    for i := 0 to length
      invariant next == index + i <= outBuffer.Length
      invariant outBuffer[next..] == before[next..]
      invariant CopyBack(outBuffer[..next], offset, length - i, outBuffer.Length)
             == CopyBack(before[..index], offset, length, outBuffer.Length)
    {
      if next >= outBuffer.Length || offset >= next {
        return false, next;
      }
      ghost var done := outBuffer[..next];
      outBuffer[next] := outBuffer[next - offset - 1];
      next := next + 1;
      assert outBuffer[..next] == done + [done[|done| - offset - 1]];
    }
    ok := true;
  }

  lemma SuffixKept(a: seq<byte>, b: seq<byte>, i: nat, j: nat)
    requires i <= j <= |a| == |b| && a[i..] == b[i..]
    ensures a[j..] == b[j..]
  {
    assert a[j..] == a[i..][j - i..] && b[j..] == b[i..][j - i..];
  }

  /** The buffer after one step: it holds what step o says, and is untouched behind that. */
  ghost predicate Stepped(o: Outcome, ok: bool, rest: Reader, before: seq<byte>, after: seq<byte>, next: nat)
  {
    && ok == o.Done?
    && next <= |before| == |after|
    && (ok ==> o.rest == rest && after[..next] == o.out && after[next..] == before[next..])
  }

  /** The flag register and its source, for type 3 the buffer itself. */
  class JpkState {
    var shiftIndex: nat
    var flag: byte

    constructor ()
      ensures shiftIndex == 0 && flag == 0
    {
      shiftIndex, flag := 0, 0;
    }

    ghost function On(bf: Buffer): Reader
      reads this, bf, bf.buf
    {
      Reader(Plain(bf.View()), flag, shiftIndex)
    }

    method BitShift(bf: Buffer) returns (bit: nat)
      requires bf.Valid() && On(bf).Sound()
      modifies this, bf`index, bf`err
      ensures bf.Valid() && On(bf).Sound() && (bit, On(bf)) == NextBit(old(On(bf)))
    {
      if shiftIndex == 0 {
        shiftIndex := 7;
        flag := bf.ReadUint8();
      } else {
        shiftIndex := shiftIndex - 1;
      }
      bit := BitAt(flag, shiftIndex);
    }

    /** count bits, first bit most significant. */
    method Bits(bf: Buffer, count: nat) returns (v: nat)
      requires bf.Valid() && On(bf).Sound() && count <= 8
      modifies this, bf`index, bf`err
      ensures bf.Valid() && On(bf).Sound() && (v, On(bf)) == NextBits(old(On(bf)), count)
      decreases count
    {
      if count == 0 {
        return 0;
      }
      ghost var start := On(bf);
      var bit := BitShift(bf);
      ghost var mid := On(bf);
      var low := Bits(bf, count - 1);
      v := (if bit == 1 then Pow2(count - 1) else 0) + low;
      NextBitsCons(start, count, bit, mid, low, v, On(bf));
    }

    method ReadByte(bf: Buffer) returns (x: byte)
      requires bf.Valid() && On(bf).Sound()
      modifies bf`index, bf`err
      ensures bf.Valid() && On(bf).Sound() && (x, On(bf)) == ReaderByte(old(On(bf)))
    {
      x := bf.ReadUint8();
    }

    /** A literal, or a match. */
    method ReadItem(bf: Buffer) returns (i: Item)
      requires bf.Valid() && On(bf).Sound()
      modifies this, bf`index, bf`err
      ensures bf.Valid() && On(bf).Sound() && (i, On(bf)) == NextItem(old(On(bf)))
    {
      var b0 := BitShift(bf);
      if b0 == 0 {
        var x := ReadByte(bf);
        return Coded(Literal(x));
      }
      i := ReadMatch(bf);
    }

    /** A match: the short form, or a two-byte header. */
    method ReadMatch(bf: Buffer) returns (i: Item)
      requires bf.Valid() && On(bf).Sound()
      modifies this, bf`index, bf`err
      ensures bf.Valid() && On(bf).Sound() && (i, On(bf)) == NextMatch(old(On(bf)))
    {
      var b1 := BitShift(bf);
      if b1 == 0 {
        i := ReadShort(bf);
      } else {
        i := ReadLong(bf);
      }
    }

    method ReadShort(bf: Buffer) returns (i: Item)
      requires bf.Valid() && On(bf).Sound()
      modifies this, bf`index, bf`err
      ensures bf.Valid() && On(bf).Sound() && (i, On(bf)) == NextShort(old(On(bf)))
    {
      var length := Bits(bf, 2);
      var off := ReadByte(bf);
      i := Coded(Match(length + 3, off));
    }

    method ReadLong(bf: Buffer) returns (i: Item)
      requires bf.Valid() && On(bf).Sound()
      modifies this, bf`index, bf`err
      ensures bf.Valid() && On(bf).Sound() && (i, On(bf)) == NextLong(old(On(bf)))
    {
      var hi: nat := ReadByte(bf);
      var lo: nat := ReadByte(bf);
      i := ReadHeader(bf, hi, lo);
    }

    method ReadHeader(bf: Buffer, hi: nat, lo: nat) returns (i: Item)
      requires bf.Valid() && On(bf).Sound()
      modifies this, bf`index, bf`err
      ensures bf.Valid() && On(bf).Sound() && (i, On(bf)) == NextHeader(old(On(bf)), hi, lo)
    {
      i := ReadLength(bf, hi / 32, hi % 32 * 256 + lo);
    }

    /** The three ways to give the length of a match with a two-byte header, and the raw-run escape. */
    method ReadLength(bf: Buffer, length: nat, off: nat) returns (i: Item)
      requires bf.Valid() && On(bf).Sound()
      modifies this, bf`index, bf`err
      ensures bf.Valid() && On(bf).Sound() && (i, On(bf)) == NextLength(old(On(bf)), length, off)
    {
      if length != 0 {
        return Coded(Match(length + 2, off));
      }
      var b := BitShift(bf);
      if b == 0 {
        i := ReadNibble(bf, off);
      } else {
        i := ReadExtra(bf, off);
      }
    }

    method ReadNibble(bf: Buffer, off: nat) returns (i: Item)
      requires bf.Valid() && On(bf).Sound()
      modifies this, bf`index, bf`err
      ensures bf.Valid() && On(bf).Sound() && (i, On(bf)) == NextNibble(old(On(bf)), off)
    {
      var extra := Bits(bf, 4);
      i := Coded(Match(extra + 2 + 8, off));
    }

    method ReadExtra(bf: Buffer, off: nat) returns (i: Item)
      requires bf.Valid() && On(bf).Sound()
      modifies this, bf`index, bf`err
      ensures bf.Valid() && On(bf).Sound() && (i, On(bf)) == NextExtra(old(On(bf)), off)
    {
      var temp: nat := ReadByte(bf);
      if temp == 0xFF {
        return Raw(off + 0x1B);
      }
      i := Coded(Match(temp + 0x1a, off));
    }

    /** One token; false is an index out of range. */
    method DecodeToken(bf: Buffer, outBuffer: array<byte>, outIndex: nat) returns (ok: bool, next: nat)
      requires bf.Valid() && On(bf).Sound() && outIndex < outBuffer.Length && bf.buf != outBuffer
      modifies this, bf`index, bf`err, outBuffer
      ensures bf.Valid() && On(bf).Sound()
      ensures Stepped(Step(old(On(bf)), old(outBuffer[..outIndex]), outBuffer.Length), ok, On(bf),
                      old(outBuffer[..]), outBuffer[..], next)
    {
      var i := ReadItem(bf);
      ok, next := Write(bf, i, outBuffer, outIndex);
    }

    method Write(bf: Buffer, i: Item, outBuffer: array<byte>, outIndex: nat) returns (ok: bool, next: nat)
      requires bf.Valid() && On(bf).Sound() && outIndex < outBuffer.Length && bf.buf != outBuffer && i.Grows()
      modifies this, bf`index, bf`err, outBuffer
      ensures bf.Valid() && On(bf).Sound()
      ensures Stepped(Apply(i, old(On(bf)), old(outBuffer[..outIndex]), outBuffer.Length), ok, On(bf),
                      old(outBuffer[..]), outBuffer[..], next)
    {
      match i
      case Raw(count) =>
        ok, next := CopyRaw(bf, outBuffer, outIndex, count);
      case Coded(Literal(x)) =>
        ghost var out := outBuffer[..outIndex];
        outBuffer[outIndex] := x;
        assert outBuffer[..outIndex + 1] == out + [x];
        return true, outIndex + 1;
      case Coded(Match(length, off)) =>
        ok, next := JPKCopy(outBuffer, off, length, outIndex);
    }

    method CopyRaw(bf: Buffer, outBuffer: array<byte>, outIndex: nat, count: nat) returns (ok: bool, next: nat)
      requires bf.Valid() && On(bf).Sound() && outIndex <= outBuffer.Length && bf.buf != outBuffer
      modifies bf`index, bf`err, outBuffer
      ensures bf.Valid() && On(bf).Sound()
      ensures Stepped(RawRun(old(On(bf)), old(outBuffer[..outIndex]), count, outBuffer.Length), ok, On(bf),
                      old(outBuffer[..]), outBuffer[..], next)
    {
      next := outIndex;
      ghost var before := outBuffer[..];
      for i := 0 to count
        invariant bf.Valid() && On(bf).Sound()
        invariant next == outIndex + i <= outBuffer.Length
        invariant outBuffer[next..] == before[next..]
        invariant RawRun(On(bf), outBuffer[..next], count - i, outBuffer.Length)
               == RawRun(old(On(bf)), before[..outIndex], count, outBuffer.Length)
      {
        ghost var done := outBuffer[..next];
        if next >= outBuffer.Length {
          return false, next;
        }
        var x := ReadByte(bf);
        ghost var r1 := On(bf);
        outBuffer[next] := x;
        assert On(bf) == r1;
        assert before[next..][1..] == before[next + 1..];
        next := next + 1;
        assert outBuffer[..next] == done + [x];
      }
      ok := true;
    }

    method ProcessDecode(bf: Buffer, outBuffer: array<byte>) returns (ok: bool)
      requires bf.Valid() && On(bf).Sound() && bf.buf != outBuffer
      modifies this, bf`index, bf`err, outBuffer
      ensures var o := Decoded(old(On(bf)), [], outBuffer.Length);
              && ok == o.Done?
              && (ok ==> outBuffer[..] == o.out + old(outBuffer[..])[|o.out|..])
    {
      var outIndex := 0;
      ghost var before := outBuffer[..];
      ghost var goal := Decoded(On(bf), [], outBuffer.Length);
      assert outBuffer[..0] == [];
      while bf.index < bf.used && outIndex < outBuffer.Length
        invariant bf.Valid() && On(bf).Sound()
        invariant outIndex <= outBuffer.Length && outBuffer[outIndex..] == before[outIndex..]
        invariant Decoded(On(bf), outBuffer[..outIndex], outBuffer.Length) == goal
        decreases outBuffer.Length - outIndex
      {
        ghost var r, out, kept := On(bf), outBuffer[..outIndex], outBuffer[..];
        DecodedNext(r, out, outBuffer.Length);
        var next;
        ok, next := DecodeToken(bf, outBuffer, outIndex);
        if !ok {
          return;
        }
        SuffixKept(kept, before, outIndex, next);
        outIndex := next;
      }
      ok := true;
      assert outBuffer[..] == outBuffer[..outIndex] + outBuffer[outIndex..];
    }
  }

  /** The registers of the type-4 decoder: LZ flag bits on top of a Huffman bit stream and its tree table. */
  class HfiState {
    var shiftIndex: nat
    var flag: byte
    var hfShiftIndex: nat
    var hfFlag: byte
    var hfDataOffset: int
    var tableOffset: nat
    var tableLen: int

    constructor ()
      ensures shiftIndex == 0 && flag == 0 && hfShiftIndex == 0 && hfFlag == 0
    {
      shiftIndex, flag, hfShiftIndex, hfFlag, hfDataOffset, tableOffset, tableLen := 0, 0, 0, 0, 0, 0, 0;
    }

    ghost function Stream(bf: Buffer): Source
      reads this, bf, bf.buf
    {
      Huffman(bf.View(), tableLen, tableOffset, hfDataOffset, hfFlag, hfShiftIndex)
    }

    ghost function On(bf: Buffer): Reader
      reads this, bf, bf.buf
    {
      Reader(Stream(bf), flag, shiftIndex)
    }

    method HuffmanBitShift(bf: Buffer) returns (bit: nat)
      requires bf.Valid() && Stream(bf).Readable()
      modifies this, bf`index, bf`err
      ensures bf.Valid() && (bit, Stream(bf)) == HuffmanBit(old(Stream(bf)))
      ensures shiftIndex == old(shiftIndex) && flag == old(flag)
    {
      if hfShiftIndex == 0 {
        hfShiftIndex := 7;
        bf.SeekFromStart(hfDataOffset);
        hfFlag := bf.ReadUint8();
        hfDataOffset := hfDataOffset + 1;
      } else {
        hfShiftIndex := hfShiftIndex - 1;
      }
      bit := BitAt(hfFlag, hfShiftIndex);
    }

    /** Walks the tree from its root to a leaf. */
    method ReadHFByte(bf: Buffer) returns (x: byte)
      requires bf.Valid() && On(bf).Sound() && !ReaderByte(On(bf)).1.src.Endless?
      modifies this, bf`index, bf`err
      ensures bf.Valid() && On(bf).Sound() && (x, On(bf)) == ReaderByte(old(On(bf)))
    {
      var node := tableLen;
      if node >= 0x100 {
        ghost var n: nat :| Edges(Stream(bf), node, n).0 < 0x100;
        WalkIs(Stream(bf), node, n);
        node := ReadLeaf(bf, node, n);
      }
      x := node % 256;
    }

    method ReadLeaf(bf: Buffer, root: int, ghost n: nat) returns (node: int)
      requires bf.Valid() && Stream(bf).Readable() && Edges(Stream(bf), root, n).0 < 0x100
      modifies this, bf`index, bf`err
      ensures bf.Valid() && (node, Stream(bf)) == Edges(old(Stream(bf)), root, n)
      ensures shiftIndex == old(shiftIndex) && flag == old(flag)
    {
      node := root;
      ghost var left := n;
      while node >= 0x100
        invariant bf.Valid() && Stream(bf).Readable()
        invariant shiftIndex == old(shiftIndex) && flag == old(flag)
        invariant Edges(Stream(bf), node, left) == Edges(old(Stream(bf)), root, n)
        decreases left
      {
        node := Descend(bf, node);
        left := left - 1;
      }
    }

    /** One edge of the walk. */
    method Descend(bf: Buffer, node: int) returns (child: int)
      requires bf.Valid() && Stream(bf).Readable() && node >= 0x100
      modifies this, bf`index, bf`err
      ensures bf.Valid() && (child, Stream(bf)) == Edge(old(Stream(bf)), node)
      ensures shiftIndex == old(shiftIndex) && flag == old(flag)
    {
      var bit := HuffmanBitShift(bf);
      bf.SeekFromStart(tableOffset + EntryOffset(node, bit));
      child := bf.ReadInt16();
    }

    method HfiBitShift(bf: Buffer) returns (bit: nat)
      requires bf.Valid() && On(bf).Sound()
      requires !NextBit(On(bf)).1.src.Endless?
      modifies this, bf`index, bf`err
      ensures bf.Valid() && On(bf).Sound() && (bit, On(bf)) == NextBit(old(On(bf)))
    {
      if shiftIndex == 0 {
        var x := ReadHFByte(bf);
        shiftIndex, flag := 7, x;
      } else {
        shiftIndex := shiftIndex - 1;
      }
      bit := BitAt(flag, shiftIndex);
    }

    /** count bits, first bit most significant. */
    method Bits(bf: Buffer, count: nat) returns (v: nat)
      requires bf.Valid() && On(bf).Sound() && count <= 8
      requires !NextBits(On(bf), count).1.src.Endless?
      modifies this, bf`index, bf`err
      ensures bf.Valid() && On(bf).Sound() && (v, On(bf)) == NextBits(old(On(bf)), count)
      decreases count
    {
      if count == 0 {
        return 0;
      }
      ghost var start := On(bf);
      NextBitsReturn(start, count);
      var bit := HfiBitShift(bf);
      ghost var mid := On(bf);
      var low := Bits(bf, count - 1);
      v := (if bit == 1 then Pow2(count - 1) else 0) + low;
      NextBitsCons(start, count, bit, mid, low, v, On(bf));
    }

    /** A literal, or a match. */
    method ReadItem(bf: Buffer) returns (i: Item)
      requires bf.Valid() && On(bf).Sound() && !NextItem(On(bf)).1.src.Endless?
      modifies this, bf`index, bf`err
      ensures bf.Valid() && On(bf).Sound() && (i, On(bf)) == NextItem(old(On(bf)))
    {
      var b0 := HfiBitShift(bf);
      if b0 == 0 {
        var x := ReadHFByte(bf);
        return Coded(Literal(x));
      }
      i := ReadMatch(bf);
    }

    /** A match: the short form, or a two-byte header. */
    method ReadMatch(bf: Buffer) returns (i: Item)
      requires bf.Valid() && On(bf).Sound() && !NextMatch(On(bf)).1.src.Endless?
      modifies this, bf`index, bf`err
      ensures bf.Valid() && On(bf).Sound() && (i, On(bf)) == NextMatch(old(On(bf)))
    {
      var b1 := HfiBitShift(bf);
      if b1 == 0 {
        i := ReadShort(bf);
      } else {
        i := ReadLong(bf);
      }
    }

    method ReadShort(bf: Buffer) returns (i: Item)
      requires bf.Valid() && On(bf).Sound() && !NextShort(On(bf)).1.src.Endless?
      modifies this, bf`index, bf`err
      ensures bf.Valid() && On(bf).Sound() && (i, On(bf)) == NextShort(old(On(bf)))
    {
      var length := Bits(bf, 2);
      var off := ReadHFByte(bf);
      i := Coded(Match(length + 3, off));
    }

    method ReadLong(bf: Buffer) returns (i: Item)
      requires bf.Valid() && On(bf).Sound() && !NextLong(On(bf)).1.src.Endless?
      modifies this, bf`index, bf`err
      ensures bf.Valid() && On(bf).Sound() && (i, On(bf)) == NextLong(old(On(bf)))
    {
      var hi: nat := ReadHFByte(bf);
      var lo: nat := ReadHFByte(bf);
      i := ReadHeader(bf, hi, lo);
    }

    method ReadHeader(bf: Buffer, hi: nat, lo: nat) returns (i: Item)
      requires bf.Valid() && On(bf).Sound() && !NextHeader(On(bf), hi, lo).1.src.Endless?
      modifies this, bf`index, bf`err
      ensures bf.Valid() && On(bf).Sound() && (i, On(bf)) == NextHeader(old(On(bf)), hi, lo)
    {
      i := ReadLength(bf, hi / 32, hi % 32 * 256 + lo);
    }

    /** The three ways to give the length of a match with a two-byte header, and the raw-run escape. */
    method ReadLength(bf: Buffer, length: nat, off: nat) returns (i: Item)
      requires bf.Valid() && On(bf).Sound() && !NextLength(On(bf), length, off).1.src.Endless?
      modifies this, bf`index, bf`err
      ensures bf.Valid() && On(bf).Sound() && (i, On(bf)) == NextLength(old(On(bf)), length, off)
    {
      if length != 0 {
        return Coded(Match(length + 2, off));
      }
      var b := HfiBitShift(bf);
      if b == 0 {
        i := ReadNibble(bf, off);
      } else {
        i := ReadExtra(bf, off);
      }
    }

    method ReadNibble(bf: Buffer, off: nat) returns (i: Item)
      requires bf.Valid() && On(bf).Sound() && !NextNibble(On(bf), off).1.src.Endless?
      modifies this, bf`index, bf`err
      ensures bf.Valid() && On(bf).Sound() && (i, On(bf)) == NextNibble(old(On(bf)), off)
    {
      var extra := Bits(bf, 4);
      i := Coded(Match(extra + 2 + 8, off));
    }

    method ReadExtra(bf: Buffer, off: nat) returns (i: Item)
      requires bf.Valid() && On(bf).Sound() && !NextExtra(On(bf), off).1.src.Endless?
      modifies this, bf`index, bf`err
      ensures bf.Valid() && On(bf).Sound() && (i, On(bf)) == NextExtra(old(On(bf)), off)
    {
      var temp: nat := ReadHFByte(bf);
      if temp == 0xFF {
        return Raw(off + 0x1B);
      }
      i := Coded(Match(temp + 0x1a, off));
    }

    /** One token; false is an index out of range. */
    method DecodeToken(bf: Buffer, outBuffer: array<byte>, outIndex: nat) returns (ok: bool, next: nat)
      requires bf.Valid() && On(bf).Sound() && outIndex < outBuffer.Length && bf.buf != outBuffer
      requires !Step(On(bf), outBuffer[..outIndex], outBuffer.Length).Hangs()
      modifies this, bf`index, bf`err, outBuffer
      ensures bf.Valid() && On(bf).Sound()
      ensures Stepped(Step(old(On(bf)), old(outBuffer[..outIndex]), outBuffer.Length), ok, On(bf),
                      old(outBuffer[..]), outBuffer[..], next)
    {
      var i := ReadItem(bf);
      ok, next := Write(bf, i, outBuffer, outIndex);
    }

    method Write(bf: Buffer, i: Item, outBuffer: array<byte>, outIndex: nat) returns (ok: bool, next: nat)
      requires bf.Valid() && On(bf).Sound() && outIndex < outBuffer.Length && bf.buf != outBuffer && i.Grows()
      requires !Apply(i, On(bf), outBuffer[..outIndex], outBuffer.Length).Hangs()
      modifies this, bf`index, bf`err, outBuffer
      ensures bf.Valid() && On(bf).Sound()
      ensures Stepped(Apply(i, old(On(bf)), old(outBuffer[..outIndex]), outBuffer.Length), ok, On(bf),
                      old(outBuffer[..]), outBuffer[..], next)
    {
      match i
      case Raw(count) =>
        ok, next := CopyRaw(bf, outBuffer, outIndex, count);
      case Coded(Literal(x)) =>
        ghost var out := outBuffer[..outIndex];
        outBuffer[outIndex] := x;
        assert outBuffer[..outIndex + 1] == out + [x];
        return true, outIndex + 1;
      case Coded(Match(length, off)) =>
        ok, next := JPKCopy(outBuffer, off, length, outIndex);
    }

    method CopyRaw(bf: Buffer, outBuffer: array<byte>, outIndex: nat, count: nat) returns (ok: bool, next: nat)
      requires bf.Valid() && On(bf).Sound() && outIndex <= outBuffer.Length && bf.buf != outBuffer
      requires !RawRun(On(bf), outBuffer[..outIndex], count, outBuffer.Length).Hangs()
      modifies this, bf`index, bf`err, outBuffer
      ensures bf.Valid() && On(bf).Sound()
      ensures Stepped(RawRun(old(On(bf)), old(outBuffer[..outIndex]), count, outBuffer.Length), ok, On(bf),
                      old(outBuffer[..]), outBuffer[..], next)
    {
      next := outIndex;
      ghost var before := outBuffer[..];
      for i := 0 to count
        invariant bf.Valid() && On(bf).Sound()
        invariant outIndex <= next <= outBuffer.Length
        invariant outBuffer[next..] == before[next..]
        invariant RawRun(On(bf), outBuffer[..next], count - i, outBuffer.Length)
               == RawRun(old(On(bf)), before[..outIndex], count, outBuffer.Length)
      {
        ghost var done := outBuffer[..next];
        if next >= outBuffer.Length {
          return true, next;
        }
        var x := ReadHFByte(bf);
        ghost var r1 := On(bf);
        outBuffer[next] := x;
        assert On(bf) == r1;
        assert before[next..][1..] == before[next + 1..];
        next := next + 1;
        assert outBuffer[..next] == done + [x];
      }
      ok := true;
    }

    /** bf must stand on the table length that begins the block. */
    method ProcessDecode(bf: Buffer, outBuffer: array<byte>) returns (ok: bool)
      requires bf.Valid() && bf.buf != outBuffer && shiftIndex == 0 && flag == 0 && hfShiftIndex == 0 && hfFlag == 0
      requires !Decoded(Reader(HuffmanAt(bf.View()), 0, 0), [], outBuffer.Length).Hangs()
      modifies this, bf`index, bf`err, outBuffer
      ensures var o := Decoded(Reader(HuffmanAt(old(bf.View())), 0, 0), [], outBuffer.Length);
              && ok == o.Done?
              && (ok ==> outBuffer[..] == o.out + old(outBuffer[..])[|o.out|..])
    {
      Locate(bf);
      ok := DecodeTokens(bf, outBuffer);
    }

    /** The table begins behind its length, the bit stream behind the table. */
    method Locate(bf: Buffer)
      requires bf.Valid() && hfShiftIndex == 0 && hfFlag == 0
      modifies this`tableLen, this`tableOffset, this`hfDataOffset, bf`index, bf`err
      ensures bf.Valid() && Stream(bf) == HuffmanAt(old(bf.View()))
    {
      tableLen := bf.ReadInt16();
      tableOffset := bf.index;
      hfDataOffset := tableOffset + tableLen * 4 - 0x3fc;
    }

    method DecodeTokens(bf: Buffer, outBuffer: array<byte>) returns (ok: bool)
      requires bf.Valid() && bf.buf != outBuffer && On(bf).Sound()
      requires !Decoded(On(bf), [], outBuffer.Length).Hangs()
      modifies this, bf`index, bf`err, outBuffer
      ensures var o := Decoded(old(On(bf)), [], outBuffer.Length);
              && ok == o.Done?
              && (ok ==> outBuffer[..] == o.out + old(outBuffer[..])[|o.out|..])
    {
      var outIndex := 0;
      ghost var before := outBuffer[..];
      ghost var goal := Decoded(On(bf), [], outBuffer.Length);
      assert outBuffer[..0] == [];
      while outIndex < outBuffer.Length
        invariant bf.Valid() && On(bf).Sound()
        invariant outIndex <= outBuffer.Length && outBuffer[outIndex..] == before[outIndex..]
        invariant Decoded(On(bf), outBuffer[..outIndex], outBuffer.Length) == goal
      {
        ghost var r, out, kept := On(bf), outBuffer[..outIndex], outBuffer[..];
        DecodedNext(r, out, outBuffer.Length);
        var next;
        ok, next := DecodeToken(bf, outBuffer, outIndex);
        if !ok {
          return;
        }
        SuffixKept(kept, before, outIndex, next);
        outIndex := next;
      }
      ok := true;
      assert outBuffer[..] == outBuffer[..outIndex] + outBuffer[outIndex..];
    }
  }

  // ------------------------------------------------------------------
  // Containers.

  method PackSimple(data: seq<byte>) returns (out: seq<byte>)
    ensures out == Packed(data)
  {
    var compressed := LzEncoder.LzEncode(data);
    out := Header(3, |data|) + compressed;
  }

  method UnpackSimple(data: seq<byte>) returns (r: Result)
    requires !Unpacked(data).NeverReturns?
    ensures r == Unpacked(data)
  {
    var bf := new Buffer.FromBytes(data);
    bf.SetLittle();
    var magic := bf.ReadUint32();
    if magic != JKR_MAGIC {
      return Bytes(data);
    }
    bf.SeekFromCurrent(2);
    var kind := bf.ReadUint16();
    if kind != 3 && kind != 4 {
      return Bytes(data);
    }
    var start := bf.ReadInt32();
    var size := bf.ReadInt32();
    assert ReadInfo(data) == Info(magic, kind, start, size, bf.View());
    if size < 0 {
      return Panicked;
    }
    if start < 0 {
      return Wrapped(ReadInfo(data));
    }
    r := Unpack(bf, ReadInfo(data));
  }

  /** The decoder of the container's type. */
  method ProcessDecode(bf: Buffer, outBuffer: array<byte>, info: Info) returns (ok: bool)
    requires bf.Valid() && bf.buf != outBuffer && (info.kind == 3 || info.kind == 4) && info.start >= 0
    requires bf.View() == info.after.SeekStart(info.start) && !Decoded(Reader(SourceOf(info), 0, 0), [], outBuffer.Length).Hangs()
    modifies bf`index, bf`err, outBuffer
    ensures var o := Decoded(Reader(SourceOf(info), 0, 0), [], outBuffer.Length);
            && ok == o.Done?
            && (ok ==> outBuffer[..] == o.out + old(outBuffer[..])[|o.out|..])
  {
    if info.kind == 3 {
      var s := new JpkState();
      ok := s.ProcessDecode(bf, outBuffer);
    } else {
      var s := new HfiState();
      ok := s.ProcessDecode(bf, outBuffer);
    }
  }

  /** Decodes the block that starts at info.start. */
  method Unpack(bf: Buffer, info: Info) returns (r: Result)
    requires bf.Valid() && info.after == bf.View() && (info.kind == 3 || info.kind == 4)
    requires info.start >= 0 && info.size >= 0 && !Decoded(Reader(SourceOf(info), 0, 0), [], info.size).Hangs()
    modifies bf
    ensures r == Filled(Decoded(Reader(SourceOf(info), 0, 0), [], info.size), info.size)
  {
    var outBuffer := new byte[info.size](i => 0);
    assert outBuffer[..] == Zeros(info.size);
    ghost var o := Decoded(Reader(SourceOf(info), 0, 0), [], info.size);
    bf.SeekFromStart(info.start);
    var ok := ProcessDecode(bf, outBuffer, info);
    assert ok ==> Zeros(info.size)[|o.out|..] == Zeros(info.size - |o.out|);
    r := if ok then Bytes(outBuffer[..]) else Panicked;
  }
}
