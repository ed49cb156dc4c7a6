/** Little-endian words in a byte table, and a table that is appended to and patched in place. */
module Layout {
  import opened Bytes

  datatype Result<T> = Ok(value: T) | Failed

  const WORD_LIMIT := 0x1_0000
  const LONG_LIMIT := 0x1_0000_0000

  function Word(d: seq<byte>, p: nat): (w: nat)
    requires p + 2 <= |d|
    ensures w < WORD_LIMIT
  {
    var low: int, high: int := d[p], d[p + 1];
    low + 0x100 * high
  }

  function Long(d: seq<byte>, p: nat): (w: nat)
    requires p + 4 <= |d|
    ensures w < LONG_LIMIT
  {
    Word(d, p) + 0x1_0000 * Word(d, p + 2)
  }

  /** These are the numbers that little-endian decoding gives. */
  lemma WordsDecode(d: seq<byte>, p: nat)
    ensures p + 2 <= |d| ==> Word(d, p) == Decode(d[p..p + 2], Little)
    ensures p + 4 <= |d| ==> Long(d, p) == Decode(d[p..p + 4], Little)
  {
    if p + 2 <= |d| {
      DecodeTwo(d[p], d[p + 1]);
      assert d[p..p + 2] == [d[p], d[p + 1]];
    }
    if p + 4 <= |d| {
      var bs := d[p..p + 4];
      DecodeTwo(d[p + 2], d[p + 3]);
      assert bs == [d[p], d[p + 1], d[p + 2], d[p + 3]];
      assert bs[1..][1..] == [d[p + 2], d[p + 3]];
      assert Decode(bs, Little) == d[p] + 0x100 * Decode(bs[1..], Little);
      assert Decode(bs[1..], Little) == d[p + 1] + 0x100 * Decode(bs[1..][1..], Little);
    }
  }

  lemma DecodeTwo(a: byte, b: byte)
    ensures Decode([a, b], Little) == a + 0x100 * b
  {
    assert [a, b][1..] == [b];
    DecodeOne(b, Little);
  }

  /** The low two bytes of v. */
  function WordBytes(v: nat): (bs: seq<byte>)
    ensures |bs| == 2
  {
    [v % 0x100, v / 0x100 % 0x100]
  }

  /** The low four bytes of v. */
  function LongBytes(v: nat): (bs: seq<byte>)
    ensures |bs| == 4
  {
    WordBytes(v) + WordBytes(v / 0x1_0000)
  }

  function Patched(d: seq<byte>, p: nat, bs: seq<byte>): (r: seq<byte>)
    requires p + |bs| <= |d|
    ensures |r| == |d|
  {
    d[..p] + bs + d[p + |bs|..]
  }

  /** Zeros up to the next multiple of four. */
  function Aligned(d: seq<byte>): (r: seq<byte>)
    ensures |d| <= |r| < |d| + 4 && |r| % 4 == 0 && r[..|d|] == d
  {
    d + Zeros((4 - |d| % 4) % 4)
  }

  /** The stretch of n bytes at p of one table is the stretch at p' of another. */
  predicate Same(d: seq<byte>, p: nat, d': seq<byte>, p': nat, n: nat) {
    p + n <= |d| && p' + n <= |d'| && d[p..p + n] == d'[p'..p' + n]
  }

  /** Any part of a common stretch is a common stretch. */
  lemma SamePart(d: seq<byte>, p: nat, d': seq<byte>, p': nat, n: nat, at: nat, size: nat)
    requires Same(d, p, d', p', n) && at + size <= n
    ensures Same(d, p + at, d', p' + at, size)
  {
    PartOf(d, p, n, at, size);
    PartOf(d', p', n, at, size);
  }

  lemma PartOf(d: seq<byte>, p: nat, n: nat, at: nat, size: nat)
    requires p + n <= |d| && at + size <= n
    ensures d[p..p + n][at..at + size] == d[p + at..p + at + size]
  {
    var a, part := d[p..p + n][at..at + size], d[p + at..p + at + size];
    forall i | 0 <= i < size
      ensures a[i] == part[i]
    {
      assert a[i] == d[p..p + n][at + i] == d[p + (at + i)];
    }
  }

  lemma WordSame(d: seq<byte>, p: nat, d': seq<byte>, p': nat)
    requires Same(d, p, d', p', 2)
    ensures Word(d, p) == Word(d', p')
  {
    var a, b := d[p..p + 2], d'[p'..p' + 2];
    assert a[0] == d[p] && a[1] == d[p + 1] && b[0] == d'[p'] && b[1] == d'[p' + 1];
  }

  lemma LongSame(d: seq<byte>, p: nat, d': seq<byte>, p': nat)
    requires Same(d, p, d', p', 4)
    ensures Long(d, p) == Long(d', p')
  {
    SamePart(d, p, d', p', 4, 0, 2);
    SamePart(d, p, d', p', 4, 2, 2);
    WordSame(d, p, d', p');
    WordSame(d, p + 2, d', p' + 2);
  }

  lemma TwoDigits(v: nat)
    requires v < WORD_LIMIT
    ensures v % 0x100 + 0x100 * (v / 0x100 % 0x100) == v
  {
  }

  lemma WordPut(d: seq<byte>, p: nat, v: nat)
    requires p + 2 <= |d| && v < WORD_LIMIT
    ensures Word(Patched(d, p, WordBytes(v)), p) == v
  {
    TwoDigits(v);
  }

  lemma WordsGiven(d: seq<byte>, p: nat, low: nat, high: nat)
    requires p + 4 <= |d| && low < WORD_LIMIT && high < WORD_LIMIT
    ensures Long(Patched(d, p, WordBytes(low) + WordBytes(high)), p) == low + 0x1_0000 * high
  {
    TwoDigits(low);
    TwoDigits(high);
    var bs := WordBytes(low) + WordBytes(high);
    assert bs[0] == low % 0x100 && bs[1] == low / 0x100 % 0x100 && bs[2] == high % 0x100 && bs[3] == high / 0x100 % 0x100;
  }

  /** The low two bytes do not depend on the rest. */
  lemma LowBytes(v: nat)
    ensures WordBytes(v % 0x1_0000) == WordBytes(v)
  {
    var low, high := v % 0x1_0000, v / 0x1_0000;
    assert v == low + 0x100 * (0x100 * high);
    assert v / 0x100 == low / 0x100 + 0x100 * high;
  }

  lemma LongPut(d: seq<byte>, p: nat, v: nat)
    requires p + 4 <= |d| && v < LONG_LIMIT
    ensures Long(Patched(d, p, LongBytes(v)), p) == v
  {
    LowBytes(v);
    WordsGiven(d, p, v % 0x1_0000, v / 0x1_0000);
  }

  /** A longer number is cut to its low four bytes. */
  lemma WordGiven(b: seq<byte>, p: nat, v: nat)
    requires p + 2 <= |b| && b[p..p + 2] == WordBytes(v) && v < WORD_LIMIT
    ensures Word(b, p) == v
  {
    assert Patched(b, p, WordBytes(v)) == b;
    WordPut(b, p, v);
  }

  lemma LongGiven(b: seq<byte>, p: nat, v: nat)
    requires p + 4 <= |b| && b[p..p + 4] == LongBytes(v) && v < LONG_LIMIT
    ensures Long(b, p) == v
  {
    assert Patched(b, p, LongBytes(v)) == b;
    LongPut(b, p, v);
  }

  lemma LongPutLow(d: seq<byte>, p: nat, v: nat)
    requires p + 4 <= |d|
    ensures Long(Patched(d, p, LongBytes(v)), p) == v % LONG_LIMIT
  {
    var low, high := v % 0x1_0000, v / 0x1_0000;
    LowBytes(v);
    LowBytes(high);
    WordsGiven(d, p, low, high % 0x1_0000);
    assert high == high / 0x1_0000 * 0x1_0000 + high % 0x1_0000;
    QuotientUnique(v, LONG_LIMIT, high / 0x1_0000, low + 0x1_0000 * (high % 0x1_0000));
  }

  /** A growing table, edited in place. */
  class Draft {
    var bytes: seq<byte>

    constructor (source: seq<byte>)
      ensures bytes == source
    {
      bytes := source;
    }

    method Append(more: seq<byte>)
      modifies this
      ensures bytes == old(bytes) + more
    {
      bytes := bytes + more;
    }

    method Align()
      modifies this
      ensures bytes == Aligned(old(bytes))
    {
      ghost var source := bytes;
      var n := 0;
      while |bytes| % 4 != 0
        invariant n <= (4 - |source| % 4) % 4
        invariant bytes == source + Zeros(n)
        decreases 4 - n
      {
        assert source + Zeros(n) + [0] == source + Zeros(n + 1);
        bytes := bytes + [0];
        n := n + 1;
      }
    }

    method PutWord(p: nat, v: nat)
      requires p + 2 <= |bytes|
      modifies this
      ensures bytes == Patched(old(bytes), p, WordBytes(v))
    {
      bytes := bytes[p := v % 0x100][p + 1 := v / 0x100 % 0x100];
    }

    method PutLong(p: nat, v: nat)
      requires p + 4 <= |bytes|
      modifies this
      ensures bytes == Patched(old(bytes), p, LongBytes(v))
    {
      bytes := Patched(bytes, p, LongBytes(v));
    }
  }
}
