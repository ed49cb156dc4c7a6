/** The stored form of a box, byte by byte: what stands where, and what is read from any bytes. */
module StoredBoxes {
  import opened Bytes
  import opened Warehouse

  // ------------------------------------------------------------------
  // Writing.

  /** The four bytes of a number, the highest one first. */
  function Four(x: nat): (bs: seq<byte>)
    ensures |bs| == 4
  {
    [x / 0x100_0000 % 0x100, x / 0x1_0000 % 0x100, x / 0x100 % 0x100, x % 0x100]
  }

  function Two(x: nat): (bs: seq<byte>)
    ensures |bs| == 2
  {
    [x / 0x100 % 0x100, x % 0x100]
  }

  /** Two bytes of the count, two zeros, and twelve bytes for each stack: ID, item, quantity and the last field. */
  lemma SerializedBytes(stacks: seq<Stack>, i: nat)
    ensures Serialized(stacks)[..4] == Two(|stacks| % 0x1_0000) + [0, 0] && |Serialized(stacks)| == 4 + 12 * |stacks|
    ensures i < |stacks| ==> Serialized(stacks)[4 + 12 * i..16 + 12 * i] ==
                             Four(stacks[i].id) + Two(stacks[i].item) + Two(stacks[i].quantity) + Four(stacks[i].unk0)
  {
    EncodeTwo(|stacks| % 0x1_0000);
    EncodeTwo(0);
    if i < |stacks| {
      SerializedAt(stacks, i);
      assert 4 + i * STACK_SIZE == 4 + 12 * i && 4 + i * STACK_SIZE + STACK_SIZE == 16 + 12 * i;
      StackFields(stacks[i]);
    }
  }

  lemma StackFields(s: Stack)
    ensures StackBytes(s) == Four(s.id) + Two(s.item) + Two(s.quantity) + Four(s.unk0)
  {
    EncodeFour(s.id);
    EncodeTwo(s.item);
    EncodeTwo(s.quantity);
    EncodeFour(s.unk0);
  }

  // ------------------------------------------------------------------
  // Reading.

  function Joined(high: nat, low: nat): nat { high * 0x100 + low }

  /** The number that two bytes stand for, the higher one first. */
  function TwoAt(data: seq<byte>, p: nat): nat
    requires p + 2 <= |data|
  {
    Joined(data[p], data[p + 1])
  }

  function FourAt(data: seq<byte>, p: nat): nat
    requires p + 4 <= |data|
  {
    TwoAt(data, p) * 0x1_0000 + TwoAt(data, p + 2)
  }

  lemma TwoDecodes(data: seq<byte>, p: nat)
    requires p + 2 <= |data|
    ensures Decode(data[p..p + 2], Big) == TwoAt(data, p)
  {
    var bs := data[p..p + 2];
    assert bs == [data[p], data[p + 1]] && bs[..1] == [data[p]];
    DecodeOne(data[p], Big);
  }

  lemma FourDecodes(data: seq<byte>, p: nat)
    requires p + 4 <= |data|
    ensures Decode(data[p..p + 4], Big) == FourAt(data, p)
  {
    var bs := data[p..p + 4];
    TwoDecodes(data, p);
    assert bs == [data[p], data[p + 1], data[p + 2], data[p + 3]];
    assert bs[..3][..2] == data[p..p + 2];
    assert Decode(bs, Big) == data[p + 3] + 0x100 * Decode(bs[..3], Big);
    assert Decode(bs[..3], Big) == data[p + 2] + 0x100 * Decode(bs[..3][..2], Big);
  }

  /** How many stacks the bytes hold: as many as the count says, but no more than there is room for. */
  function Held(data: seq<byte>): nat
    requires |data| >= 4
  {
    var count, room := TwoAt(data, 0), (|data| - 4) / 12;
    if count < room then count else room
  }

  /** How many of the first i stacks have no ID of their own. */
  function Nameless(data: seq<byte>, i: nat): nat
    requires 4 + 12 * i <= |data|
  {
    if i == 0 then 0 else Nameless(data, i - 1) + if FourAt(data, 4 + 12 * (i - 1)) == 0 then 1 else 0
  }

  lemma HeldIs(data: seq<byte>)
    requires |data| >= 4
    ensures StackCount(data) == Held(data)
  {
    TwoDecodes(data, 0);
    assert data[0..2] == data[..2];
    var n, room := TwoAt(data, 0), (|data| - 4) / 12;
    assert n * 12 > |data| - 4 <==> n > room;
  }

  /** Stack i as it is stored: ID, item, quantity and the last field. */
  function RawAt(data: seq<byte>, i: nat): Stack
    requires 16 + 12 * i <= |data|
  {
    Stack(FourAt(data, 4 + 12 * i), TwoAt(data, 8 + 12 * i), TwoAt(data, 10 + 12 * i), FourAt(data, 12 + 12 * i))
  }

  lemma StoredFields(data: seq<byte>, i: nat, p: nat)
    requires 16 + 12 * i <= |data| && p == 4 + 12 * i
    ensures StoredAt(data, p) == RawAt(data, i)
  {
    FieldsDecode(data, p);
    assert p + 4 == 8 + 12 * i && p + 6 == 10 + 12 * i && p + 8 == 12 + 12 * i;
  }

  lemma FieldsDecode(data: seq<byte>, p: nat)
    requires p + 12 <= |data|
    ensures StoredAt(data, p) == Stack(FourAt(data, p), TwoAt(data, p + 4), TwoAt(data, p + 6), FourAt(data, p + 8))
  {
    FourDecodes(data, p);
    TwoDecodes(data, p + 4);
    TwoDecodes(data, p + 6);
    FourDecodes(data, p + 8);
  }

  lemma StacksAre(data: seq<byte>, n: nat)
    requires 4 + 12 * n <= |data|
    ensures forall j :: 0 <= j < n ==> Stacks(data, n)[j] == RawAt(data, j)
  {
    forall j | 0 <= j < n
      ensures Stacks(data, n)[j] == RawAt(data, j)
    {
      StackStored(data, n, j);
      StoredFields(data, j, 4 + j * STACK_SIZE);
    }
  }

  /** Naming changes nothing but zero IDs, which get the random numbers in turn. */
  lemma {:induction false} NamedAt(data: seq<byte>, stacks: seq<Stack>, random: nat -> nat, from: nat, k: nat, i: nat)
    requires 4 + 12 * (from + |stacks|) <= |data| && k == Nameless(data, from)
    requires forall j :: 0 <= j < |stacks| ==> stacks[j] == RawAt(data, from + j)
    ensures |Named(stacks, random, k)| == |stacks|
    ensures i < |stacks| ==> Named(stacks, random, k)[i] == NameOf(stacks[i], random, Nameless(data, from + i))
    decreases |stacks|
  {
    if stacks != [] {
      var rest, next := stacks[1..], AfterNaming(stacks[0], k);
      assert stacks[0] == RawAt(data, from + 0);
      assert next == Nameless(data, from + 1);
      forall j | 0 <= j < |rest|
        ensures rest[j] == RawAt(data, from + 1 + j)
      {
        assert stacks[j + 1] == RawAt(data, from + (j + 1));
      }
      NamedAt(data, rest, random, from + 1, next, if i == 0 then 0 else i - 1);
    }
  }

  lemma ReadsNamed(data: seq<byte>, random: nat -> nat)
    requires |data| >= 4
    ensures 4 + 12 * Held(data) <= |data| && Deserialized(data, random) == Named(Stacks(data, Held(data)), random, 0)
  {
    HeldIs(data);
  }

  /**
   * From any four bytes or more as many stacks are read as are held, each field big-endian at its own offset; the
   * n-th stack without an ID gets the n-th random number.
   */
  lemma DeserializedAt(data: seq<byte>, random: nat -> nat, i: nat)
    requires |data| >= 4
    ensures |Deserialized(data, random)| == Held(data) && 4 + 12 * Held(data) <= |data|
    ensures i < Held(data) ==>
              var raw := RawAt(data, i);
              Deserialized(data, random)[i] == if raw.id != 0 then raw else raw.(id := random(Nameless(data, i)))
  {
    ReadsNamed(data, random);
    StacksAre(data, Held(data));
    NamedAt(data, Stacks(data, Held(data)), random, 0, 0, i);
  }
}
