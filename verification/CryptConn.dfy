/** The encrypted packet stream: framing, key rotation, and what two connected ends keep in step. */
module CryptConn {
  import opened Bytes
  import opened ByteFrame
  import opened ExclusiveOr
  import opened PacketCipher

  const HEADER_LENGTH := 14
  const START_KEY := 995117
  const SEND_DELTA: byte := 3
  const MAX_BRUTE_FORCE := 64 * 1024

  // ------------------------------------------------------------------
  // The header.

  type uint16 = x: int | 0 <= x < 0x1_0000

  datatype Header = Header(pf0: byte, keyRotDelta: byte, packetNum: uint16, dataSize: uint16,
                           prevCheck: uint16, check0: uint16, check1: uint16, check2: uint16)

  function EncodeHeader(h: Header): (bs: seq<byte>)
    ensures |bs| == HEADER_LENGTH
  {
    [h.pf0, h.keyRotDelta] + Encode(h.packetNum, 2, Big) + Encode(h.dataSize, 2, Big) + Encode(h.prevCheck, 2, Big)
    + Encode(h.check0, 2, Big) + Encode(h.check1, 2, Big) + Encode(h.check2, 2, Big)
  }

  /** The header's fields, in their places on the wire. */
  lemma HeaderFields(h: Header)
    ensures var bs := EncodeHeader(h);
            && bs[0] == h.pf0 && bs[1] == h.keyRotDelta
            && bs[2..4] == Encode(h.packetNum, 2, Big) && bs[4..6] == Encode(h.dataSize, 2, Big)
            && bs[6..8] == Encode(h.prevCheck, 2, Big) && bs[8..10] == Encode(h.check0, 2, Big)
            && bs[10..12] == Encode(h.check1, 2, Big) && bs[12..14] == Encode(h.check2, 2, Big)
  {
  }

  function Word(bs: seq<byte>, at: nat): uint16
    requires at + 2 <= |bs|
  {
    var high: nat := bs[at];
    high * 0x100 + bs[at + 1]
  }

  /** Fails only on fewer than fourteen bytes. */
  function ParseHeader(bs: seq<byte>): Maybe<Header> {
    if |bs| < HEADER_LENGTH then Nothing
    else Just(Header(bs[0], bs[1], Word(bs, 2), Word(bs, 4), Word(bs, 6), Word(bs, 8), Word(bs, 10), Word(bs, 12)))
  }

  lemma WordEncoded(x: uint16)
    ensures Encode(x, 2, Big) == [x / 0x100, x % 0x100]
  {
    assert Encode(x, 2, Big) == Encode(x / 256, 1, Big) + [x % 256];
    assert Encode(x / 256, 1, Big) == [x / 256 % 256];
  }

  /** Parsing an encoded header returns it, whatever follows. */
  lemma HeaderRoundTrip(h: Header)
    ensures ParseHeader(EncodeHeader(h)) == Just(h)
  {
    WordEncoded(h.packetNum);
    WordEncoded(h.dataSize);
    WordEncoded(h.prevCheck);
    WordEncoded(h.check0);
    WordEncoded(h.check1);
    WordEncoded(h.check2);
    var bs := EncodeHeader(h);
    assert bs == [h.pf0, h.keyRotDelta, h.packetNum / 256, h.packetNum % 256, h.dataSize / 256, h.dataSize % 256,
                  h.prevCheck / 256, h.prevCheck % 256, h.check0 / 256, h.check0 % 256,
                  h.check1 / 256, h.check1 % 256, h.check2 / 256, h.check2 % 256];
  }

  // ------------------------------------------------------------------
  // The packed length.

  /** (size >> 12) & 0xF3 | 3: bits 16 to 19 of the size in the high nibble, the low nibble always 3. */
  function SizeFlags(size: nat): byte {
    size / 0x1000 % 0x100 / 0x10 * 0x10 + 3
  }

  /** The body length a reader takes from the header; None is the invalid size header. */
  function BodySize(h: Header, legacy: bool): Maybe<nat> {
    if legacy then Just(h.dataSize)
    else if h.pf0 % 0x10 != 3 then Nothing
    else Just(h.dataSize + (h.pf0 - 3) * 0x1000)
  }

  function SizeLimit(legacy: bool): nat {
    if legacy then 0x1_0000 else 0x10_0000
  }

  /** What the reader recovers is the size modulo the limit, so it is exact exactly below the limit. */
  lemma SizeRecovered(h: Header, size: nat, legacy: bool)
    requires h.pf0 == SizeFlags(size) && h.dataSize == size % 0x1_0000
    ensures BodySize(h, legacy) == Just(size % SizeLimit(legacy))
    ensures BodySize(h, legacy) == Just(size) <==> size < SizeLimit(legacy)
  {
    var top, high, low := size / 0x10_0000, size / 0x1_0000 % 0x10, size % 0x1_0000;
    SizeDigits(size, top, high, low);
  }

  lemma SizeDigits(size: nat, top: nat, high: nat, low: nat)
    requires top == size / 0x10_0000 && high == size / 0x1_0000 % 0x10 && low == size % 0x1_0000
    ensures size == top * 0x10_0000 + high * 0x1_0000 + low
    ensures SizeFlags(size) == high * 0x10 + 3 && size % 0x10_0000 == high * 0x1_0000 + low
  {
    QuotientUnique(size, 0x1_0000, top * 0x10 + high, low);
    QuotientUnique(size, 0x10_0000, top, high * 0x1_0000 + low);
    NibbleOf(size, top, high, low);
  }

  lemma NibbleOf(size: nat, top: nat, high: nat, low: nat)
    requires high < 0x10 && low < 0x1_0000 && size == top * 0x10_0000 + high * 0x1_0000 + low
    ensures size / 0x1000 % 0x100 / 0x10 == high
  {
    var mid := low / 0x1000;
    QuotientUnique(size, 0x1000, top * 0x100 + high * 0x10 + mid, low % 0x1000);
    QuotientUnique(top * 0x100 + high * 0x10 + mid, 0x100, top, high * 0x10 + mid);
    QuotientUnique(high * 0x10 + mid, 0x10, high, mid);
  }

  // ------------------------------------------------------------------
  // One end of a connection.

  datatype End = End(readKeyRot: nat, sendKeyRot: nat, sentPackets: int, prevRecv: nat, prevSend: uint16)

  const NewEnd := End(START_KEY, START_KEY, 0, 0, 0)

  function Rotated(key: nat, delta: byte): nat {
    delta * ((key + 1) % WORD) % WORD
  }

  /** int32 increment. */
  function Increment(x: int): int {
    if x == 0x7FFF_FFFF then -0x8000_0000 else x + 1
  }

  lemma ChecksFit(t: Tables, data: seq<byte>, rotKey: nat, encrypt: bool, overrideKey: Maybe<byte>)
    ensures var c := Ciphered(t, data, rotKey, encrypt, overrideKey).1;
            c.combined < 0x1_0000 && c.check0 < 0x1_0000 && c.check1 < 0x1_0000 && c.check2 < 0x1_0000
  {
    var end := Run(t, Start(|data|, rotKey, overrideKey), data, 0, encrypt).1;
    Power2Values();
    XorBitsBounded(end.acc0 % 0x1_0000, end.acc0 / 0x1_0000 % 0x1_0000, 16);
    XorBitsBounded(end.acc1 % 0x1_0000, end.acc1 / 0x1_0000 % 0x1_0000, 16);
    XorBitsBounded(end.acc2 % 0x1_0000, end.acc2 / 0x1_0000 % 0x1_0000, 16);
  }

  /** The bytes put on the wire for one packet, and the sender afterwards. */
  function Sent(t: Tables, e: End, data: seq<byte>): (r: (seq<byte>, End))
  {
    var key := Rotated(e.sendKeyRot, SEND_DELTA);
    var (body, c) := Ciphered(t, data, key, true, Nothing);
    ChecksFit(t, data, key, true, Nothing);
    var header := Header(SizeFlags(|body|), SEND_DELTA, e.sentPackets % 0x1_0000, |body| % 0x1_0000,
                         e.prevSend, c.check0, c.check1, c.check2);
    (EncodeHeader(header) + body,
     e.(sendKeyRot := key, sentPackets := Increment(e.sentPackets), prevSend := c.combined))
  }

  /** A packet whose checksums matched, one whose key had to be recovered, or an error. */
  datatype Reading = Packet(data: seq<byte>) | RecoveredPacket(data: seq<byte>) | ConnectionError | InvalidSize | TooLarge | Mismatch

  /** Fewer bytes than asked for is an error that uses up what there is. */
  function Taken(wire: seq<byte>, n: nat): (Maybe<seq<byte>>, seq<byte>) {
    if |wire| < n then (Nothing, []) else (Just(wire[..n]), wire[n..])
  }

  function Matches(h: Header, c: Checks): bool {
    h.check0 == c.check0 && h.check1 == c.check1 && h.check2 == c.check2
  }

  /** Key recovery: the first single-byte key from key on, below 255, whose checksums match. */
  function Recovered(t: Tables, h: Header, body: seq<byte>, key: nat): Maybe<(seq<byte>, Checks)>
    requires key <= 255
    decreases 255 - key
  {
    if key == 255 then Nothing
    else
      var (out, c) := Ciphered(t, body, 0, false, Just(key));
      if Matches(h, c) then Just((out, c)) else Recovered(t, h, body, key + 1)
  }

  /** Decoding a complete packet. */
  function Opened(t: Tables, e: End, h: Header, body: seq<byte>): (Reading, End)
  {
    var key := if h.keyRotDelta != 0 then Rotated(e.readKeyRot, h.keyRotDelta) else e.readKeyRot;
    var rotated := e.(readKeyRot := key);
    var (out, c) := Ciphered(t, body, key, false, Nothing);
    if Matches(h, c) then (Packet(out), rotated.(prevRecv := c.combined))
    else if |body| > MAX_BRUTE_FORCE then (TooLarge, rotated)
    else
      var r := Recovered(t, h, body, 0);
      if r.Just? then (RecoveredPacket(r.value.0), rotated.(prevRecv := r.value.1.combined)) else (Mismatch, rotated)
  }

  /** One ReadPacket: the outcome, the reader afterwards, and what is left on the wire. */
  function Received(t: Tables, e: End, legacy: bool, wire: seq<byte>): (Reading, End, seq<byte>)
  {
    var (head, rest) := Taken(wire, HEADER_LENGTH);
    if head.Nothing? then (ConnectionError, e, rest)
    else
      var h := ParseHeader(head.value);
      if h.Nothing? then (ConnectionError, e, rest)
      else
        var size := BodySize(h.value, legacy);
        if size.Nothing? then (InvalidSize, e, rest)
        else
          var (body, left) := Taken(rest, size.value);
          if body.Nothing? then (ConnectionError, e, left)
          else
            var (reading, next) := Opened(t, e, h.value, body.value);
            (reading, next, left)
  }

  // ------------------------------------------------------------------
  // The connection object.

  /** A reliable ordered byte stream. */
  class Wire {
    var bytes: seq<byte>

    constructor ()
      ensures bytes == []
    {
      bytes := [];
    }

    method Write(bs: seq<byte>)
      modifies this
      ensures bytes == old(bytes) + bs
    {
      bytes := bytes + bs;
    }

    method ReadFull(n: nat) returns (r: Maybe<seq<byte>>)
      modifies this
      ensures (r, bytes) == Taken(old(bytes), n)
    {
      if |bytes| < n {
        bytes := [];
        return Nothing;
      }
      r := Just(bytes[..n]);
      bytes := bytes[n..];
    }
  }

  class CryptConn {
    const tables: Tables
    const incoming: Wire
    const outgoing: Wire
    const legacy: bool
    var readKeyRot: nat
    var sendKeyRot: nat
    var sentPackets: int
    var prevRecvPacketCombinedCheck: nat
    var prevSendPacketCombinedCheck: uint16

    constructor (tables: Tables, incoming: Wire, outgoing: Wire, legacy: bool)
      ensures this.tables == tables && this.incoming == incoming && this.outgoing == outgoing && this.legacy == legacy
      ensures View() == NewEnd
    {
      this.tables, this.incoming, this.outgoing, this.legacy := tables, incoming, outgoing, legacy;
      readKeyRot, sendKeyRot, sentPackets := START_KEY, START_KEY, 0;
      prevRecvPacketCombinedCheck, prevSendPacketCombinedCheck := 0, 0;
    }

    ghost function View(): End
      reads this
    {
      End(readKeyRot, sendKeyRot, sentPackets, prevRecvPacketCombinedCheck, prevSendPacketCombinedCheck)
    }

    method SendPacket(data: seq<byte>)
      modifies this, outgoing
      ensures outgoing.bytes == old(outgoing.bytes) + Sent(tables, old(View()), data).0
      ensures View() == Sent(tables, old(View()), data).1
    {
      var keyRotDelta := SEND_DELTA;
      if keyRotDelta != 0 {
        sendKeyRot := Rotated(sendKeyRot, keyRotDelta);
      }
      var encData, checks := Crypto(tables, data, sendKeyRot, true, Nothing);
      ChecksFit(tables, data, sendKeyRot, true, Nothing);
      var header := Header(SizeFlags(|encData|), keyRotDelta, sentPackets % 0x1_0000, |encData| % 0x1_0000,
                           prevSendPacketCombinedCheck, checks.check0, checks.check1, checks.check2);
      outgoing.Write(EncodeHeader(header) + encData);
      sentPackets := Increment(sentPackets);
      prevSendPacketCombinedCheck := checks.combined;
    }

    method ReadPacket() returns (r: Reading)
      modifies this, incoming
      ensures (r, View(), incoming.bytes) == Received(tables, old(View()), legacy, old(incoming.bytes))
    {
      var headerData := incoming.ReadFull(HEADER_LENGTH);
      if headerData.Nothing? {
        return ConnectionError;
      }
      var cph := ParseHeader(headerData.value);
      if cph.Nothing? {
        return ConnectionError;
      }
      var size := BodySize(cph.value, legacy);
      if size.Nothing? {
        return InvalidSize;
      }
      var body := incoming.ReadFull(size.value);
      if body.Nothing? {
        return ConnectionError;
      }
      r := Open(cph.value, body.value);
    }

    method Open(cph: Header, body: seq<byte>) returns (r: Reading)
      modifies this
      ensures (r, View()) == Opened(tables, old(View()), cph, body)
    {
      if cph.keyRotDelta != 0 {
        readKeyRot := Rotated(readKeyRot, cph.keyRotDelta);
      }
      var out, checks := Crypto(tables, body, readKeyRot, false, Nothing);
      if !Matches(cph, checks) {
        if |body| > MAX_BRUTE_FORCE {
          return TooLarge;
        }
        r := BruteForce(cph, body);
        return;
      }
      prevRecvPacketCombinedCheck := checks.combined;
      r := Packet(out);
    }

    method BruteForce(cph: Header, body: seq<byte>) returns (r: Reading)
      modifies this`prevRecvPacketCombinedCheck
      ensures var found := Recovered(tables, cph, body, 0);
              if found.Just? then r == RecoveredPacket(found.value.0) && prevRecvPacketCombinedCheck == found.value.1.combined
              else r == Mismatch && prevRecvPacketCombinedCheck == old(prevRecvPacketCombinedCheck)
    {
      var key := 0;
      while key < 255
        invariant key <= 255 && prevRecvPacketCombinedCheck == old(prevRecvPacketCombinedCheck)
        invariant Recovered(tables, cph, body, key) == Recovered(tables, cph, body, 0)
      {
        var out, checks := Crypto(tables, body, 0, false, Just(key));
        if Matches(cph, checks) {
          prevRecvPacketCombinedCheck := checks.combined;
          return RecoveredPacket(out);
        }
        key := key + 1;
      }
      r := Mismatch;
    }
  }
}
