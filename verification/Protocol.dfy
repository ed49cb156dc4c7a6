/**
 * Two ends exchanging packets over reliable ordered wires, in every possible interleaving: first over
 * any pair of functions of which the second undoes the first, then over the game's own.
 */
module Protocol {
  import opened Bytes
  import opened ByteFrame
  import opened PacketCipher
  import opened CryptConn

  // ------------------------------------------------------------------
  // One packet.

  /** Reading what was just sent, with the rotation keys in step and anything queued behind it. */
  lemma ReceivesSent(t: Tables, sender: End, reader: End, legacy: bool, data: seq<byte>, behind: seq<byte>)
    requires t.Invert() && |data| < SizeLimit(legacy) && reader.readKeyRot == sender.sendKeyRot
    ensures var (frame, sent) := Sent(t, sender, data);
            Received(t, reader, legacy, frame + behind) ==
            (Packet(data), reader.(readKeyRot := sent.sendKeyRot, prevRecv := sent.prevSend), behind)
  {
    var key := Rotated(sender.sendKeyRot, SEND_DELTA);
    var (body, c) := Ciphered(t, data, key, true, Nothing);
    var (frame, sent) := Sent(t, sender, data);
    var h := SentHeader(t, sender, data);
    var wire := frame + behind;
    assert wire[..HEADER_LENGTH] == EncodeHeader(h);
    HeaderRoundTrip(h);
    SizeRecovered(h, |data|, legacy);
    var rest := wire[HEADER_LENGTH..];
    assert rest == body + behind;
    assert rest[..|data|] == body && rest[|data|..] == behind;
    DecryptsEncrypted(t, data, key, Nothing);
  }

  function SentHeader(t: Tables, sender: End, data: seq<byte>): (h: Header)
    ensures var body := Ciphered(t, data, Rotated(sender.sendKeyRot, SEND_DELTA), true, Nothing).0;
            Sent(t, sender, data).0 == EncodeHeader(h) + body
    ensures h.pf0 == SizeFlags(|data|) && h.dataSize == |data| % 0x1_0000 && h.keyRotDelta == SEND_DELTA
    ensures h.packetNum == sender.sentPackets % 0x1_0000 && h.prevCheck == sender.prevSend
    ensures var c := Ciphered(t, data, Rotated(sender.sendKeyRot, SEND_DELTA), true, Nothing).1; Matches(h, c)
  {
    var key := Rotated(sender.sendKeyRot, SEND_DELTA);
    var c := Ciphered(t, data, key, true, Nothing).1;
    ChecksFit(t, data, key, true, Nothing);
    Header(SizeFlags(|data|), SEND_DELTA, sender.sentPackets % 0x1_0000, |data| % 0x1_0000,
           sender.prevSend, c.check0, c.check1, c.check2)
  }

  /** A packet is returned as such exactly when decrypting it with the rotated key gave the header's checksums. */
  lemma MatchedDirectly(t: Tables, e: End, h: Header, body: seq<byte>)
    ensures var key := if h.keyRotDelta != 0 then Rotated(e.readKeyRot, h.keyRotDelta) else e.readKeyRot;
            Opened(t, e, h, body).0.Packet? <==> Matches(h, Ciphered(t, body, key, false, Nothing).1)
  {
  }

  /** A packet read is as long as the body length in its header. */
  lemma PacketLength(t: Tables, e: End, h: Header, body: seq<byte>)
    ensures var r := Opened(t, e, h, body).0; r.Packet? || r.RecoveredPacket? ==> |r.data| == |body|
  {
    RecoveredLength(t, h, body, 0);
  }

  lemma {:induction false} RecoveredLength(t: Tables, h: Header, body: seq<byte>, key: nat)
    requires key <= 255
    ensures Recovered(t, h, body, key).Just? ==> |Recovered(t, h, body, key).value.0| == |body|
    decreases 255 - key
  {
    if key < 255 {
      RecoveredLength(t, h, body, key + 1);
    }
  }

  /**
   * With the keys in step a packet arrives intact exactly when it is below the size limit; above it, not even key
   * recovery returns it.
   */
  lemma DeliveredIff(t: Tables, sender: End, reader: End, legacy: bool, data: seq<byte>)
    requires t.Invert() && reader.readKeyRot == sender.sendKeyRot
    ensures Received(t, reader, legacy, Sent(t, sender, data).0).0 == Packet(data) <==> |data| < SizeLimit(legacy)
    ensures Received(t, reader, legacy, Sent(t, sender, data).0).0 != RecoveredPacket(data)
  {
    var frame := Sent(t, sender, data).0;
    if |data| < SizeLimit(legacy) {
      assert frame + [] == frame;
      ReceivesSent(t, sender, reader, legacy, data, []);
    } else {
      var h := SentHeader(t, sender, data);
      assert frame[..HEADER_LENGTH] == EncodeHeader(h);
      HeaderRoundTrip(h);
      SizeRecovered(h, |data|, legacy);
      var size := |data| % SizeLimit(legacy);
      var (body, left) := Taken(frame[HEADER_LENGTH..], size);
      if body.Just? {
        PacketLength(t, reader, h, body.value);
      }
    }
  }

  // ------------------------------------------------------------------
  // One direction, over any faithful line.

  /** The part of an end that sending uses and changes. */
  function Outbound(e: End): End {
    e.(readKeyRot := START_KEY, prevRecv := 0)
  }

  /** How packets are sent and received, and the size they have to stay below. */
  datatype Line = Line(send: (End, seq<byte>) -> (seq<byte>, End),
                       receive: (End, seq<byte>) -> (Reading, End, seq<byte>), limit: nat)
  {
    /** Keys in step, the packet arrives, whatever is queued behind it, and the keys are in step again. */
    predicate Arrives(sender: End, reader: End, data: seq<byte>, behind: seq<byte>) {
      var (frame, sent) := send(sender, data);
      |data| < limit && reader.readKeyRot == sender.sendKeyRot ==>
        receive(reader, frame + behind) ==
        (Packet(data), reader.(readKeyRot := sent.sendKeyRot, prevRecv := sent.prevSend), behind)
    }

    /** Sending takes room on the wire, and the reading side of the end has no part in it. */
    predicate SendsApart(e: End, data: seq<byte>) {
      var (frame, next) := send(e, data);
      && frame != [] && send(Outbound(e), data) == (frame, Outbound(next))
      && next.readKeyRot == e.readKeyRot && next.prevRecv == e.prevRecv
    }

    ghost predicate Faithful() {
      && (forall sender, reader, data, behind :: Arrives(sender, reader, data, behind))
      && (forall e, data :: SendsApart(e, data))
    }
  }

  /** A fresh sender after the given payloads. */
  function SenderAfter(line: Line, payloads: seq<seq<byte>>): End {
    if payloads == [] then NewEnd
    else line.send(SenderAfter(line, payloads[..|payloads| - 1]), payloads[|payloads| - 1]).1
  }

  /** The bytes that e puts on the wire for the given payloads. */
  function Frames(line: Line, e: End, payloads: seq<seq<byte>>): seq<byte>
    decreases |payloads|
  {
    if payloads == [] then []
    else
      var (frame, next) := line.send(e, payloads[0]);
      frame + Frames(line, next, payloads[1..])
  }

  function FramesEnd(line: Line, e: End, payloads: seq<seq<byte>>): End
    decreases |payloads|
  {
    if payloads == [] then e else FramesEnd(line, line.send(e, payloads[0]).1, payloads[1..])
  }

  lemma FramesTakeRoom(line: Line, e: End, payloads: seq<seq<byte>>)
    requires line.Faithful()
    ensures Frames(line, e, payloads) == [] ==> payloads == []
  {
    if payloads != [] {
      assert line.SendsApart(e, payloads[0]);
    }
  }

  lemma {:induction false} FramesSnoc(line: Line, e: End, payloads: seq<seq<byte>>, p: seq<byte>)
    ensures Frames(line, e, payloads + [p]) == Frames(line, e, payloads) + line.send(FramesEnd(line, e, payloads), p).0
    decreases |payloads|
  {
    if payloads == [] {
      assert (payloads + [p])[1..] == [];
      assert line.send(e, p).0 + [] == [] + line.send(e, p).0;
    } else {
      assert (payloads + [p])[1..] == payloads[1..] + [p];
      FramesSnoc(line, line.send(e, payloads[0]).1, payloads[1..], p);
    }
  }

  lemma {:induction false} FramesEndIs(line: Line, sent: seq<seq<byte>>, k: nat)
    requires k <= |sent|
    ensures FramesEnd(line, SenderAfter(line, sent[..k]), sent[k..]) == SenderAfter(line, sent)
    decreases |sent| - k
  {
    if k == |sent| {
      assert sent[..k] == sent;
    } else {
      assert sent[..k + 1][..k] == sent[..k];
      assert sent[k..][1..] == sent[k + 1..];
      FramesEndIs(line, sent, k + 1);
    }
  }

  /**
   * What every run keeps between a sender and the reader at the other end: the payloads read are
   * the first payloads sent, the wire holds exactly the frames of the others, and the reader's
   * key and check are those of the sender as it was after the payloads read.
   */
  ghost predicate InStep(line: Line, sender: End, reader: End, wire: seq<byte>, sent: seq<seq<byte>>, got: seq<seq<byte>>)
  {
    && |got| <= |sent| && got == sent[..|got|]
    && Outbound(sender) == SenderAfter(line, sent)
    && reader.readKeyRot == SenderAfter(line, got).sendKeyRot
    && reader.prevRecv == SenderAfter(line, got).prevSend
    && wire == Frames(line, SenderAfter(line, got), sent[|got|..])
  }

  lemma SendKeeps(line: Line, sender: End, reader: End, wire: seq<byte>, sent: seq<seq<byte>>, got: seq<seq<byte>>, data: seq<byte>)
    requires line.Faithful() && InStep(line, sender, reader, wire, sent, got)
    ensures var (frame, next) := line.send(sender, data);
            InStep(line, next, reader, wire + frame, sent + [data], got)
  {
    var more := sent + [data];
    assert more[..|got|] == got && more[|got|..] == sent[|got|..] + [data];
    assert more[..|sent|] == sent;
    assert line.SendsApart(sender, data);
    FramesSnoc(line, SenderAfter(line, got), sent[|got|..], data);
    FramesEndIs(line, sent, |got|);
  }

  lemma ReadKeeps(line: Line, sender: End, reader: End, wire: seq<byte>, sent: seq<seq<byte>>, got: seq<seq<byte>>)
    requires line.Faithful() && InStep(line, sender, reader, wire, sent, got)
    requires wire != [] && forall p :: p in sent ==> |p| < line.limit
    ensures |got| < |sent|
    ensures var (reading, next, left) := line.receive(reader, wire);
            && reading == Packet(sent[|got|]) && Outbound(next) == Outbound(reader)
            && InStep(line, sender, next, left, sent, got + [sent[|got|]])
  {
    var k := |got|;
    var pending := sent[k..];
    assert pending != [];
    var past := SenderAfter(line, got);
    var (frame, next) := line.send(past, pending[0]);
    assert pending[0] in sent;
    assert line.Arrives(past, reader, pending[0], Frames(line, next, pending[1..]));
    var more := got + [sent[k]];
    assert more == sent[..k + 1] && more[..k] == got;
    assert pending[1..] == sent[k + 1..];
  }

  /** An empty wire means that everything has been read and both ends hold the same key and check. */
  lemma EmptyWire(line: Line, sender: End, reader: End, sent: seq<seq<byte>>, got: seq<seq<byte>>)
    requires line.Faithful() && InStep(line, sender, reader, [], sent, got)
    ensures got == sent && reader.readKeyRot == sender.sendKeyRot && reader.prevRecv == sender.prevSend
  {
    FramesTakeRoom(line, SenderAfter(line, got), sent[|got|..]);
    assert sent[..|sent|] == sent;
  }

  // ------------------------------------------------------------------
  // Two ends, all interleavings.

  datatype System = System(a: End, b: End, ab: seq<byte>, ba: seq<byte>,
                           sentA: seq<seq<byte>>, sentB: seq<seq<byte>>,
                           gotA: seq<seq<byte>>, gotB: seq<seq<byte>>, failed: bool, recovered: bool)

  datatype Step = SendA(data: seq<byte>) | SendB(data: seq<byte>) | ReadA | ReadB

  const Connected := System(NewEnd, NewEnd, [], [], [], [], [], [], false, false)

  /** One call at one end. A read on an empty wire blocks. */
  function Next(line: Line, s: System, step: Step): System {
    match step
    case SendA(data) =>
      var (frame, a) := line.send(s.a, data);
      s.(a := a, ab := s.ab + frame, sentA := s.sentA + [data])
    case SendB(data) =>
      var (frame, b) := line.send(s.b, data);
      s.(b := b, ba := s.ba + frame, sentB := s.sentB + [data])
    case ReadA =>
      if s.ba == [] then s
      else
        var (reading, a, left) := line.receive(s.a, s.ba);
        if reading.Packet? then s.(a := a, ba := left, gotA := s.gotA + [reading.data])
        else if reading.RecoveredPacket? then s.(a := a, ba := left, gotA := s.gotA + [reading.data], recovered := true)
        else s.(a := a, ba := left, failed := true)
    case ReadB =>
      if s.ab == [] then s
      else
        var (reading, b, left) := line.receive(s.b, s.ab);
        if reading.Packet? then s.(b := b, ab := left, gotB := s.gotB + [reading.data])
        else if reading.RecoveredPacket? then s.(b := b, ab := left, gotB := s.gotB + [reading.data], recovered := true)
        else s.(b := b, ab := left, failed := true)
  }

  function After(line: Line, steps: seq<Step>): System {
    if steps == [] then Connected
    else Next(line, After(line, steps[..|steps| - 1]), steps[|steps| - 1])
  }

  predicate SmallStep(step: Step, limit: nat) {
    (step.SendA? || step.SendB?) ==> |step.data| < limit
  }

  ghost predicate Synchronised(line: Line, s: System) {
    && !s.failed && !s.recovered
    && InStep(line, s.a, s.b, s.ab, s.sentA, s.gotB)
    && InStep(line, s.b, s.a, s.ba, s.sentB, s.gotA)
    && (forall p :: p in s.sentA ==> |p| < line.limit)
    && (forall p :: p in s.sentB ==> |p| < line.limit)
  }

  lemma NextKeeps(line: Line, s: System, step: Step)
    requires line.Faithful() && Synchronised(line, s) && SmallStep(step, line.limit)
    ensures Synchronised(line, Next(line, s, step))
  {
    match step
    case SendA(data) =>
      SendKeeps(line, s.a, s.b, s.ab, s.sentA, s.gotB, data);
      assert line.SendsApart(s.a, data);
    case SendB(data) =>
      SendKeeps(line, s.b, s.a, s.ba, s.sentB, s.gotA, data);
      assert line.SendsApart(s.b, data);
    case ReadA =>
      if s.ba != [] {
        ReadKeeps(line, s.b, s.a, s.ba, s.sentB, s.gotA);
      }
    case ReadB =>
      if s.ab != [] {
        ReadKeeps(line, s.a, s.b, s.ab, s.sentA, s.gotB);
      }
  }

  /**
   * No read has failed and no key had to be recovered; each end has read the first payloads the other
   * sent, in order, and whenever a wire is empty it has read all of them and both ends agree on the key
   * and on the check of the last packet.
   */
  ghost predicate InOrder(s: System) {
    && !s.failed && !s.recovered && s.gotB <= s.sentA && s.gotA <= s.sentB
    && (s.ab == [] ==> s.gotB == s.sentA && s.b.readKeyRot == s.a.sendKeyRot && s.b.prevRecv == s.a.prevSend)
    && (s.ba == [] ==> s.gotA == s.sentB && s.a.readKeyRot == s.b.sendKeyRot && s.a.prevRecv == s.b.prevSend)
  }

  /** In every run over a faithful line no read fails and everything arrives in order. */
  lemma {:induction false} EveryRun(line: Line, steps: seq<Step>)
    requires line.Faithful() && forall step :: step in steps ==> SmallStep(step, line.limit)
    ensures Synchronised(line, After(line, steps)) && InOrder(After(line, steps))
  {
    if steps == [] {
      assert Outbound(NewEnd) == NewEnd;
    } else {
      var before := steps[..|steps| - 1];
      EveryRun(line, before);
      assert steps[|steps| - 1] in steps;
      NextKeeps(line, After(line, before), steps[|steps| - 1]);
    }
    var s := After(line, steps);
    if s.ab == [] {
      EmptyWire(line, s.a, s.b, s.sentA, s.gotB);
    }
    if s.ba == [] {
      EmptyWire(line, s.b, s.a, s.sentB, s.gotA);
    }
  }

  /** The same step n times. */
  function Repeated(step: System -> System, s: System, n: nat): System
    decreases n
  {
    if n == 0 then s else Repeated(step, step(s), n - 1)
  }

  /** What each read keeps, while something is unread, holds after all of them. */
  lemma {:induction false} ReadsKeep(read: System -> System, s: System, n: nat, kept: System -> bool)
    requires kept(s) && n == |s.sentA| - |s.gotB|
    requires forall x: System :: kept(x) && |x.gotB| < |x.sentA| ==>
                                   kept(read(x)) && read(x).sentA == x.sentA && |read(x).gotB| == |x.gotB| + 1
    ensures kept(Repeated(read, s, n)) && Repeated(read, s, n).sentA == s.sentA
    ensures |Repeated(read, s, n).gotB| == |s.sentA|
    decreases n
  {
    if n > 0 {
      ReadsKeep(read, read(s), n - 1, kept);
    }
  }

  /** One read at b. */
  function ReadsB(line: Line): System -> System {
    (s: System) => Next(line, s, ReadB)
  }

  /** b has read everything a sent in s. */
  ghost predicate AllDelivered(line: Line, s: System, end: System) {
    Synchronised(line, end) && end.sentA == s.sentA && end.gotB == s.sentA && end.ab == []
  }

  /** Nothing is stuck: as many reads as there are unread payloads deliver all of them and empty the wire. */
  lemma ReadsDeliver(line: Line, s: System, n: nat)
    requires line.Faithful() && Synchronised(line, s) && n == |s.sentA| - |s.gotB|
    ensures AllDelivered(line, s, Repeated(ReadsB(line), s, n))
  {
    var read, kept := ReadsB(line), (x: System) => Synchronised(line, x);
    forall x: System | kept(x) && |x.gotB| < |x.sentA|
      ensures kept(read(x)) && read(x).sentA == x.sentA && |read(x).gotB| == |x.gotB| + 1
    {
      var _ := OneRead(line, x);
    }
    ReadsKeep(read, s, n, kept);
    NothingUnread(line, Repeated(read, s, n));
  }

  lemma NothingUnread(line: Line, s: System)
    requires InStep(line, s.a, s.b, s.ab, s.sentA, s.gotB) && |s.sentA| == |s.gotB|
    ensures s.gotB == s.sentA && s.ab == []
  {
    assert s.sentA[|s.gotB|..] == [] && s.sentA[..|s.sentA|] == s.sentA;
  }

  lemma OneRead(line: Line, s: System) returns (next: System)
    requires line.Faithful() && Synchronised(line, s) && |s.gotB| < |s.sentA|
    ensures next == Next(line, s, ReadB) && Synchronised(line, next)
    ensures next.sentA == s.sentA && |next.gotB| == |s.gotB| + 1
  {
    next := Next(line, s, ReadB);
    FramesTakeRoom(line, SenderAfter(line, s.gotB), s.sentA[|s.gotB|..]);
    NextKeeps(line, s, ReadB);
    ReadKeeps(line, s.a, s.b, s.ab, s.sentA, s.gotB);
  }

  // ------------------------------------------------------------------
  // The game's line.

  /** Packets as the connection sends and receives them. */
  function GameLine(t: Tables, legacy: bool): Line {
    Line((e, data) => Sent(t, e, data), (e, wire) => Received(t, e, legacy, wire), SizeLimit(legacy))
  }

  lemma GameLineFaithful(t: Tables, legacy: bool)
    requires t.Invert()
    ensures GameLine(t, legacy).Faithful()
  {
    var line := GameLine(t, legacy);
    forall sender, reader, data, behind
      ensures line.Arrives(sender, reader, data, behind)
    {
      if |data| < line.limit && reader.readKeyRot == sender.sendKeyRot {
        ReceivesSent(t, sender, reader, legacy, data, behind);
      }
    }
    forall e, data
      ensures line.SendsApart(e, data)
    {
      assert |Sent(t, e, data).0| >= HEADER_LENGTH;
    }
  }

  /**
   * In every run of the game's sends below the size limit, at both ends and in every interleaving,
   * no read ever fails or finds checksums that do not match, and everything arrives in order.
   */
  lemma EverySession(t: Tables, legacy: bool, steps: seq<Step>)
    requires t.Invert() && forall step :: step in steps ==> SmallStep(step, SizeLimit(legacy))
    ensures InOrder(After(GameLine(t, legacy), steps))
  {
    GameLineFaithful(t, legacy);
    EveryRun(GameLine(t, legacy), steps);
  }
}
