/** The growable byte buffer with one cursor that every codec reads and writes. */
module ByteFrame {
  import opened Bytes

  /**
   * The value of a buffer: its whole backing store, the cursor, how much of the
   * store holds data, the byte order and the sticky read error.
   */
  datatype Frame = Frame(buf: seq<byte>, index: nat, used: nat, order: Order, err: bool)
  {
    /** The cursor may stand one byte past the data: reads are only checked against used + 1. */
    ghost predicate Valid() {
      used <= |buf| && index <= |buf| && index <= used + 1
    }

    function Data(): seq<byte>
      requires used <= |buf|
    {
      buf[..used]
    }

    predicate Readable(size: nat) {
      index + size <= |buf| && index + size <= used + 1
    }

    /** A checked read of size bytes; None leaves the sticky error set and the cursor alone. */
    function Take(size: nat): (r: (Maybe<seq<byte>>, Frame))
    {
      if err then (Nothing, this)
      else if !Readable(size) then (Nothing, this.(err := true))
      else (Just(buf[index..index + size]), this.(index := index + size))
    }

    function ReadUnsigned(size: nat): (nat, Frame)
    {
      var (bs, next) := Take(size);
      (if bs.Just? then Decode(bs.value, order) else 0, next)
    }

    function ReadByte(): (r: (byte, Frame))
      ensures r.1.buf == buf && r.1.used == used
      ensures r == ReadUnsigned(1)
    {
      if err then (0, this)
      else if !Readable(1) then (0, this.(err := true))
      else
        DecodeOne(buf[index], order);
        assert buf[index..index + 1] == [buf[index]];
        (buf[index], this.(index := index + 1))
    }

    function ReadSigned(size: nat): (int, Frame)
    {
      var (bs, next) := Take(size);
      (if bs.Just? then Signed(Decode(bs.value, order), size) else 0, next)
    }

    /** Seek from the start: beyond the data the cursor does not move. */
    function SeekStart(offset: nat): Frame {
      if offset > used then this else this.(index := offset)
    }

    function SeekCurrent(offset: int): Frame {
      if index + offset > used || index + offset < 0 then this else this.(index := index + offset)
    }

    /** The store after making room for size more bytes at the cursor. */
    function Grown(size: nat): Frame {
      if index + size > |buf|
      then this.(buf := buf + Zeros(if size > |buf| then size else |buf|))
      else this
    }

    function Put(xs: seq<byte>): (f: Frame)
      requires Valid()
      ensures f.Valid()
    {
      var g := Grown(|xs|);
      g.(buf := g.buf[..index] + xs + g.buf[index + |xs|..],
         used := if index + |xs| > used then index + |xs| else used,
         index := index + |xs|)
    }
  }

  datatype Maybe<T> = Nothing | Just(value: T)

  function FrameOf(bs: seq<byte>): (f: Frame)
    ensures f.Valid()
  {
    Frame(bs, 0, |bs|, Big, false)
  }

  function EmptyFrame(): (f: Frame)
    ensures f.Valid() && f.Data() == []
  {
    Frame(Zeros(4), 0, 0, Big, false)
  }

  class Buffer {
    var index: nat
    var used: nat
    var buf: array<byte>
    var order: Order
    var err: bool

    ghost predicate Valid()
      reads this, buf
    {
      View().Valid()
    }

    ghost function View(): Frame
      reads this, buf
    {
      Frame(buf[..], index, used, order, err)
    }

    constructor ()
      ensures Valid() && fresh(buf)
      ensures View() == EmptyFrame()
    {
      index, used, order, err := 0, 0, Big, false;
      buf := new byte[4](i => 0);
    }

    constructor FromBytes(bs: seq<byte>)
      ensures Valid() && fresh(buf)
      ensures View() == FrameOf(bs)
    {
      index, used, order, err := 0, |bs|, Big, false;
      buf := new byte[|bs|](i requires 0 <= i < |bs| => bs[i]);
      new;
      assert buf[..] == bs;
    }

    method SetLittle()
      modifies this`order
      ensures View() == old(View()).(order := Little)
    {
      order := Little;
    }

    method SetBig()
      modifies this`order
      ensures View() == old(View()).(order := Big)
    {
      order := Big;
    }

    /** Doubles the store, or adds size bytes when that is more. */
    method Grow(size: nat)
      requires index + size > buf.Length
      modifies this`buf
      ensures fresh(buf) && (index <= old(buf.Length) ==> index + size <= buf.Length)
      ensures View() == old(View().Grown(size))
    {
      var bytesToAdd := if size > buf.Length then size else buf.Length;
      var n, oldBuf := buf.Length, buf;
      var newBuf := new byte[n + bytesToAdd](i requires 0 <= i < n + bytesToAdd reads oldBuf => if i < n then oldBuf[i] else 0);
      assert newBuf[..] == buf[..] + Zeros(bytesToAdd);
      buf := newBuf;
    }

    method WriteBytes(xs: seq<byte>)
      requires Valid()
      modifies this, buf
      ensures Valid() && (buf == old(buf) || fresh(buf))
      ensures View() == old(View()).Put(xs)
    {
      if index + |xs| > buf.Length {
        Grow(|xs|);
      }
      ghost var grown := buf[..];
      assert View() == old(View()).Grown(|xs|);
      forall i | 0 <= i < |xs| {
        buf[index + i] := xs[i];
      }
      assert buf[..] == grown[..index] + xs + grown[index + |xs|..];
      var extra := index + |xs| - used;
      if extra > 0 {
        used := used + extra;
      }
      index := index + |xs|;
    }

    method WriteUint8(x: byte)
      requires Valid()
      modifies this, buf
      ensures Valid() && (buf == old(buf) || fresh(buf))
      ensures View() == old(View()).Put([x])
    {
      WriteBytes([x]);
    }

    method WriteUint16(x: nat)
      requires Valid()
      modifies this, buf
      ensures Valid() && (buf == old(buf) || fresh(buf))
      ensures View() == old(View()).Put(Encode(x, 2, old(order)))
    {
      WriteBytes(Encode(x, 2, order));
    }

    method WriteUint32(x: nat)
      requires Valid()
      modifies this, buf
      ensures Valid() && (buf == old(buf) || fresh(buf))
      ensures View() == old(View()).Put(Encode(x, 4, old(order)))
    {
      WriteBytes(Encode(x, 4, order));
    }

    method ReadBytes(size: nat) returns (x: Maybe<seq<byte>>)
      requires Valid()
      modifies this`index, this`err
      ensures Valid()
      ensures (x, View()) == old(View()).Take(size)
    {
      if err {
        return Nothing;
      }
      if index + size > buf.Length || index + size > used + 1 {
        err := true;
        return Nothing;
      }
      x := Just(buf[index..index + size]);
      assert x.value == buf[..][index..index + size];
      index := index + size;
    }

    method ReadUint8() returns (x: byte)
      requires Valid()
      modifies this`index, this`err
      ensures Valid()
      ensures (x, View()) == old(View()).ReadByte()
    {
      if err {
        return 0;
      }
      if index + 1 > buf.Length || index + 1 > used + 1 {
        err := true;
        return 0;
      }
      x := buf[index];
      index := index + 1;
    }

    method ReadUint16() returns (x: nat)
      requires Valid()
      modifies this`index, this`err
      ensures Valid()
      ensures (x, View()) == old(View()).ReadUnsigned(2)
    {
      var bs := ReadBytes(2);
      x := if bs.Just? then Decode(bs.value, order) else 0;
    }

    method ReadUint32() returns (x: nat)
      requires Valid()
      modifies this`index, this`err
      ensures Valid()
      ensures (x, View()) == old(View()).ReadUnsigned(4)
    {
      var bs := ReadBytes(4);
      x := if bs.Just? then Decode(bs.value, order) else 0;
    }

    method ReadInt16() returns (x: int)
      requires Valid()
      modifies this`index, this`err
      ensures Valid()
      ensures (x, View()) == old(View()).ReadSigned(2)
    {
      var bs := ReadBytes(2);
      x := if bs.Just? then Signed(Decode(bs.value, order), 2) else 0;
    }

    method ReadInt32() returns (x: int)
      requires Valid()
      modifies this`index, this`err
      ensures Valid()
      ensures (x, View()) == old(View()).ReadSigned(4)
    {
      var bs := ReadBytes(4);
      x := if bs.Just? then Signed(Decode(bs.value, order), 4) else 0;
    }

    method SeekFromStart(offset: nat)
      requires Valid()
      modifies this`index
      ensures Valid()
      ensures View() == old(View()).SeekStart(offset)
    {
      if offset <= used {
        index := offset;
      }
    }

    method SeekFromCurrent(offset: int)
      requires Valid()
      modifies this`index
      ensures Valid()
      ensures View() == old(View()).SeekCurrent(offset)
    {
      if 0 <= index + offset <= used {
        index := index + offset;
      }
    }
  }

  // ------------------------------------------------------------------
  // What the buffer promises its users.

  /** A write replaces the bytes under the cursor and extends the data if it must. */
  lemma PutOverwrites(f: Frame, xs: seq<byte>)
    requires f.Valid() && f.index <= f.used
    ensures f.Put(xs).Data() ==
            f.Data()[..f.index] + xs + (if f.index + |xs| <= f.used then f.Data()[f.index + |xs|..] else [])
  {
    var g := f.Put(xs);
    assert g.Data()[..f.index] == f.Data()[..f.index];
    if f.index + |xs| <= f.used {
      assert f.Grown(|xs|) == f;
      assert g.Data()[f.index + |xs|..] == f.Data()[f.index + |xs|..];
    }
  }

  lemma PutAtEnd(f: Frame, xs: seq<byte>)
    requires f.Valid() && f.index == f.used
    ensures var g := f.Put(xs);
            g.Data() == f.Data() + xs && g.index == g.used && g.err == f.err
  {
    PutOverwrites(f, xs);
    assert f.Data()[..f.index] == f.Data();
  }

  /** An entry written to a buffer: a value of 1, 2, 4 or 8 bytes, in the order in force at the time. */
  datatype Entry = Entry(value: nat, size: nat, order: Order)
  {
    ghost predicate Fits() { value < Pow256(size) }
  }

  ghost function WriteEntry(f: Frame, e: Entry): (g: Frame)
    requires f.Valid()
    ensures g.Valid()
    ensures f.index == f.used ==>
              g.Data() == f.Data() + Encode(e.value, e.size, e.order) && g.index == g.used && g.err == f.err
  {
    var turned := f.(order := e.order);
    var xs := Encode(e.value, e.size, e.order);
    if turned.index == turned.used then PutAtEnd(turned, xs); turned.Put(xs) else turned.Put(xs)
  }

  ghost function WriteAll(f: Frame, es: seq<Entry>): (g: Frame)
    requires f.Valid()
    ensures g.Valid()
    decreases |es|
  {
    if es == [] then f
    else WriteAll(WriteEntry(f, es[0]), es[1..])
  }

  /** What reading the entries' widths and orders yields, and the buffer left behind. */
  ghost function ReadAll(f: Frame, es: seq<Entry>): (seq<nat>, Frame)
    decreases |es|
  {
    if es == [] then ([], f)
    else
      var (x, g) := f.(order := es[0].order).ReadUnsigned(es[0].size);
      var (xs, h) := ReadAll(g, es[1..]);
      ([x] + xs, h)
  }

  ghost function Layout(es: seq<Entry>): seq<byte>
  {
    if es == [] then [] else Encode(es[0].value, es[0].size, es[0].order) + Layout(es[1..])
  }

  lemma {:induction false} WriteAllAppends(f: Frame, es: seq<Entry>)
    requires f.Valid() && f.index == f.used
    ensures var g := WriteAll(f, es);
            g.Data() == f.Data() + Layout(es) && g.index == g.used && g.err == f.err
    decreases |es|
  {
    if es == [] {
    } else {
      var next := WriteEntry(f, es[0]);
      WriteAllAppends(next, es[1..]);
      ConcatAssociates(f.Data(), Encode(es[0].value, es[0].size, es[0].order), Layout(es[1..]));
    }
  }

  lemma ConcatAssociates(a: seq<byte>, b: seq<byte>, c: seq<byte>)
    ensures (a + b) + c == a + (b + c)
  {
  }

  lemma {:induction false} ReadLayout(f: Frame, es: seq<Entry>)
    requires f.Valid() && !f.err
    requires forall e :: e in es ==> e.Fits()
    requires f.index + |Layout(es)| <= f.used
    requires f.buf[f.index..f.index + |Layout(es)|] == Layout(es)
    ensures var (xs, g) := ReadAll(f, es);
            |xs| == |es| && (forall i :: 0 <= i < |es| ==> xs[i] == es[i].value) && !g.err
    decreases |es|
  {
    if es == [] {
    } else {
      var e := es[0];
      var whole := Layout(es);
      assert e.Fits();
      assert f.buf[f.index..f.index + e.size] == whole[..e.size];
      assert whole[..e.size] == Encode(e.value, e.size, e.order);
      DecodeEncode(e.value, e.size, e.order);
      var g := f.(order := e.order).ReadUnsigned(e.size).1;
      assert Layout(es[1..]) == whole[e.size..];
      assert f.buf[g.index..g.index + |Layout(es[1..])|] == whole[e.size..];
      ReadLayout(g, es[1..]);
    }
  }

  /** Any sequence of typed writes, in any mixture of byte orders, reads back from the start as written. */
  lemma WritesReadBack(es: seq<Entry>)
    requires forall e :: e in es ==> e.Fits()
    ensures var (xs, g) := ReadAll(WriteAll(EmptyFrame(), es).SeekStart(0), es);
            |xs| == |es| && (forall i :: 0 <= i < |es| ==> xs[i] == es[i].value) && !g.err
  {
    WriteAllAppends(EmptyFrame(), es);
    var g := WriteAll(EmptyFrame(), es);
    assert g.Data() == Layout(es);
    assert g.buf[..g.used] == Layout(es);
    ReadLayout(g.SeekStart(0), es);
  }

  /** After the first overread every read yields zero and the cursor stays where it was. */
  lemma {:induction false} ErrorIsSticky(f: Frame, es: seq<Entry>)
    requires f.err
    ensures var (xs, g) := ReadAll(f, es);
            (forall i :: 0 <= i < |xs| ==> xs[i] == 0) && g.err && g.index == f.index && g.buf == f.buf
    decreases |es|
  {
    if es == [] {
    } else {
      ErrorIsSticky(f.(order := es[0].order), es[1..]);
    }
  }

  /** Reads are bounded by one byte more than was written: behind a single byte a second one reads as zero, a third fails. */
  lemma OneBeyond(x: byte)
    ensures var f := EmptyFrame().Put([x]).SeekStart(0);
            var (a, f1) := f.ReadByte();
            var (b, f2) := f1.ReadByte();
            var (c, f3) := f2.ReadByte();
            f.used == 1 && (a, b, c) == (x, 0, 0) && !f1.err && !f2.err && f3.err && f3.index == 2
  {
    var f := EmptyFrame().Put([x]);
    assert f.buf[0] == x && f.buf[1] == 0 && |f.buf| == 4;
  }
}
