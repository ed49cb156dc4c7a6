/** What is on the wire in every run: the frame in front of a reader, field by field, from the payloads alone. */
module Wires {
  import opened Bytes
  import opened ByteFrame
  import opened PacketCipher
  import opened CryptConn
  import opened Protocol

  // ------------------------------------------------------------------
  // The key after n packets.

  function Pow3(n: nat): (p: nat)
    ensures p % 2 == 1
  {
    if n == 0 then 1 else 3 * Pow3(n - 1)
  }

  /** The solution of k(n + 1) = 3 (k(n) + 1) from 995117 on. */
  function KeyAfter(n: nat): nat {
    (Pow3(n) * 995117 + (Pow3(n + 1) - 3) / 2) % 0x1_0000_0000
  }

  lemma KeyNext(n: nat)
    ensures KeyAfter(n + 1) == Rotated(KeyAfter(n), SEND_DELTA)
  {
    var a := Pow3(n) * 995117 + (Pow3(n + 1) - 3) / 2;
    var b := Pow3(n + 1) * 995117 + (Pow3(n + 2) - 3) / 2;
    assert Pow3(n + 1) == 3 * Pow3(n) && Pow3(n + 2) == 3 * Pow3(n + 1);
    assert b == 3 * a + 3;
    TripleWraps(a);
  }

  lemma TripleWraps(a: nat)
    ensures (3 * a + 3) % WORD == 3 * ((a % WORD + 1) % WORD) % WORD
  {
    var q, r := a / WORD, a % WORD;
    var carry, low := (r + 1) / WORD, (r + 1) % WORD;
    assert 3 * a + 3 == 3 * (q + carry) * WORD + 3 * low;
    QuotientUnique(3 * a + 3, WORD, 3 * (q + carry) + 3 * low / WORD, 3 * low % WORD);
  }

  /** The combined check of a payload that is sent as the n-th, from one on. */
  function CombinedCheck(t: Tables, payload: seq<byte>, n: nat): nat {
    Ciphered(t, payload, KeyAfter(n), true, Nothing).1.combined
  }

  /** A sender knows how many payloads it sent, and the last one's check. */
  lemma {:induction false} SenderIs(t: Tables, legacy: bool, payloads: seq<seq<byte>>)
    ensures var e := SenderAfter(GameLine(t, legacy), payloads); var n := |payloads|;
            && e.sendKeyRot == KeyAfter(n) && e.sentPackets % 0x1_0000 == n % 0x1_0000
            && e.prevSend == if n == 0 then 0 else CombinedCheck(t, payloads[n - 1], n)
  {
    var line, n := GameLine(t, legacy), |payloads|;
    if n == 0 {
      assert KeyAfter(n) == START_KEY;
    } else {
      var init := payloads[..n - 1];
      SenderIs(t, legacy, init);
      KeyNext(n - 1);
      var before := SenderAfter(line, init);
      assert SenderAfter(line, payloads) == Sent(t, before, payloads[n - 1]).1;
      Counts(before.sentPackets, n - 1);
    }
  }

  lemma Counts(x: int, n: nat)
    requires x % 0x1_0000 == n % 0x1_0000
    ensures Increment(x) % 0x1_0000 == (n + 1) % 0x1_0000
  {
  }

  // ------------------------------------------------------------------
  // The frame in front.

  /** Header and body of the payload n, counted from zero, as the connection puts them on the wire. */
  ghost predicate FrameOf(t: Tables, h: Header, body: seq<byte>, sent: seq<seq<byte>>, n: nat)
    requires n < |sent|
  {
    var (coded, c) := Ciphered(t, sent[n], KeyAfter(n + 1), true, Nothing);
    && body == coded && h.check0 == c.check0 && h.check1 == c.check1 && h.check2 == c.check2
    && h.keyRotDelta == 3 && h.packetNum == n % 0x1_0000
    && h.prevCheck == (if n == 0 then 0 else CombinedCheck(t, sent[n - 1], n))
    && h.dataSize == |sent[n]| % 0x1_0000 && h.pf0 % 0x10 == 3 && h.pf0 / 0x10 == |sent[n]| / 0x1_0000 % 0x10
  }

  /** A wire that is not empty begins with the frame of the first payload not yet read. */
  ghost predicate InFront(t: Tables, wire: seq<byte>, sent: seq<seq<byte>>, n: nat) {
    wire != [] ==>
      && n < |sent| && |wire| >= HEADER_LENGTH + |sent[n]|
      && ParseHeader(wire[..HEADER_LENGTH]).Just?
      && FrameOf(t, ParseHeader(wire[..HEADER_LENGTH]).value, wire[HEADER_LENGTH..HEADER_LENGTH + |sent[n]|], sent, n)
  }

  lemma SentFrame(t: Tables, legacy: bool, sent: seq<seq<byte>>, n: nat, behind: seq<byte>)
    requires n < |sent|
    ensures InFront(t, Sent(t, SenderAfter(GameLine(t, legacy), sent[..n]), sent[n]).0 + behind, sent, n)
  {
    var e := SenderAfter(GameLine(t, legacy), sent[..n]);
    SenderIs(t, legacy, sent[..n]);
    KeyNext(n);
    var h := SentHeader(t, e, sent[n]);
    var body := Ciphered(t, sent[n], KeyAfter(n + 1), true, Nothing).0;
    HeaderRoundTrip(h);
    Flags(|sent[n]|);
    PrevCheck(t, e, sent, n);
    assert FrameOf(t, h, body, sent, n);
    FrameInFront(t, h, body, behind, sent, n);
  }

  lemma PrevCheck(t: Tables, e: End, sent: seq<seq<byte>>, n: nat)
    requires n < |sent| && e.prevSend == if n == 0 then 0 else CombinedCheck(t, sent[..n][n - 1], n)
    ensures e.prevSend == if n == 0 then 0 else CombinedCheck(t, sent[n - 1], n)
  {
  }

  lemma FrameInFront(t: Tables, h: Header, body: seq<byte>, behind: seq<byte>, sent: seq<seq<byte>>, n: nat)
    requires n < |sent| && |body| == |sent[n]| && FrameOf(t, h, body, sent, n) && ParseHeader(EncodeHeader(h)) == Just(h)
    ensures InFront(t, EncodeHeader(h) + body + behind, sent, n)
  {
    Parts(EncodeHeader(h), body, behind);
  }

  lemma Parts(head: seq<byte>, body: seq<byte>, behind: seq<byte>)
    ensures var wire := head + body + behind; wire[..|head|] == head && wire[|head|..|head| + |body|] == body
  {
  }

  lemma Flags(size: nat)
    ensures SizeFlags(size) % 0x10 == 3 && SizeFlags(size) / 0x10 == size / 0x1_0000 % 0x10
  {
    SizeDigits(size, size / 0x10_0000, size / 0x1_0000 % 0x10, size % 0x1_0000);
  }

  /** What has been read is the beginning of what was sent; the next frame is in front; the reader keeps the last check. */
  ghost predicate Ahead(t: Tables, reader: End, wire: seq<byte>, sent: seq<seq<byte>>, got: seq<seq<byte>>) {
    && got <= sent && InFront(t, wire, sent, |got|)
    && reader.prevRecv == if got == [] then 0 else CombinedCheck(t, got[|got| - 1], |got|)
  }

  lemma StepFront(t: Tables, legacy: bool, sender: End, reader: End, wire: seq<byte>, sent: seq<seq<byte>>, got: seq<seq<byte>>)
    requires InStep(GameLine(t, legacy), sender, reader, wire, sent, got)
    ensures Ahead(t, reader, wire, sent, got)
  {
    var line := GameLine(t, legacy);
    SenderIs(t, legacy, got);
    if wire != [] {
      var past, pending := SenderAfter(line, got), sent[|got|..];
      assert pending != [] && pending[0] == sent[|got|];
      SentFrame(t, legacy, sent, |got|, Frames(line, line.send(past, pending[0]).1, pending[1..]));
    }
  }

  /**
   * In every run, in both directions, the frame in front of a reader is that of the first payload it has not read: its
   * number is how many were read, and its previous check is the one the reader keeps, that of the payload read last.
   */
  lemma EveryFront(t: Tables, legacy: bool, steps: seq<Step>)
    requires t.Invert() && forall step :: step in steps ==> SmallStep(step, SizeLimit(legacy))
    ensures var s := After(GameLine(t, legacy), steps);
            Ahead(t, s.b, s.ab, s.sentA, s.gotB) && Ahead(t, s.a, s.ba, s.sentB, s.gotA)
  {
    var line := GameLine(t, legacy);
    GameLineFaithful(t, legacy);
    EveryRun(line, steps);
    BothAhead(t, legacy, After(line, steps));
  }

  lemma BothAhead(t: Tables, legacy: bool, s: System)
    requires Synchronised(GameLine(t, legacy), s)
    ensures Ahead(t, s.b, s.ab, s.sentA, s.gotB) && Ahead(t, s.a, s.ba, s.sentB, s.gotA)
  {
    StepFront(t, legacy, s.a, s.b, s.ab, s.sentA, s.gotB);
    StepFront(t, legacy, s.b, s.a, s.ba, s.sentB, s.gotA);
  }

  /** So the previous check in front is always the one the reader keeps. */
  lemma ChecksChain(t: Tables, reader: End, wire: seq<byte>, sent: seq<seq<byte>>, got: seq<seq<byte>>)
    requires Ahead(t, reader, wire, sent, got) && wire != []
    ensures ParseHeader(wire[..HEADER_LENGTH]).Just? && ParseHeader(wire[..HEADER_LENGTH]).value.prevCheck == reader.prevRecv
    ensures ParseHeader(wire[..HEADER_LENGTH]).value.packetNum == |got| % 0x1_0000
  {
    assert got != [] ==> got[|got| - 1] == sent[|got| - 1];
  }
}
