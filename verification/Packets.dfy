/**
 SCTP packets: `serializePacket` and `parsePacket` (packages/sctp/src/chunk.ts:522-582), the
 DATA and SACK chunks that the association exchanges, and the size of DATA packets
 (packages/sctp/src/sctp.ts:65-82).
 */
module Packets {
  import opened Wrappers
  import opened BigEndian
  import opened Parameters
  import opened Chunks
  import Crc
  import CrcDivision
  import Reassembly
  import Outbound
  import OutboundLaws
  import FlightLaws
  import Sacks
  import TsnTracking
  import StringOrder

  /** The polynomial of CRC32c, reflected. */
  const POLY_CRC32C: Crc.word := 0x82f6_3b78

  /** A byte as the bit vector of module `Crc`. */
  function ToOctet(n: nat): (b: Crc.octet)
    requires n < 256
    ensures b as int == n
  {
    if n == 0 then 0 else ToOctet(n - 1) + 1
  }

  function Octets(b: seq<byte>): (o: seq<Crc.octet>)
    ensures |o| == |b|
    ensures forall i :: 0 <= i < |b| ==> o[i] == ToOctet(b[i])
  {
    seq(|b|, i requires 0 <= i < |b| => ToOctet(b[i]))
  }

  function FromOctet(b: Crc.octet): byte {
    b as int
  }

  /** `writeUInt32LE` of a 32-bit word. */
  function LittleEndian(c: Crc.word): (b: seq<byte>)
    ensures |b| == 4
  {
    [FromOctet(Crc.Low(c)), FromOctet(Crc.Low(Crc.High(c))),
     FromOctet(Crc.Low(Crc.High(Crc.High(c)))), FromOctet(Crc.Low(Crc.High(Crc.High(Crc.High(c)))))]
  }

  function Crc32c(b: seq<byte>): Crc.word {
    Crc.Checksum(POLY_CRC32C, 0, Octets(b))
  }

  // The polynomial

  /** The exponents of the CRC32c polynomial below its leading term x^32 (Appendix A of RFC 9260). */
  const CRC32C_EXPONENTS: set<nat> := {28, 27, 26, 25, 23, 22, 20, 19, 18, 14, 13, 11, 10, 9, 8, 6, 0}

  lemma FourBits(c: Crc.word, n: nat)
    ensures CrcDivision.Bits(c, n + 4) ==
            [c & 1 == 1, (c >> 1) & 1 == 1, (c >> 2) & 1 == 1, (c >> 3) & 1 == 1] + CrcDivision.Bits(c >> 4, n)
  {
    assert (c >> 1) >> 1 == c >> 2 && (c >> 2) >> 1 == c >> 3 && (c >> 3) >> 1 == c >> 4;
    assert CrcDivision.Bits(c >> 3, n + 1) == [(c >> 3) & 1 == 1] + CrcDivision.Bits(c >> 4, n);
    assert CrcDivision.Bits(c >> 2, n + 2) == [(c >> 2) & 1 == 1] + CrcDivision.Bits(c >> 3, n + 1);
    assert CrcDivision.Bits(c >> 1, n + 3) == [(c >> 1) & 1 == 1] + CrcDivision.Bits(c >> 2, n + 2);
  }

  /** The constant of the code is the reflected polynomial of CRC32c. */
  lemma PolynomialIsCastagnoli()
    ensures forall i :: 0 <= i < 32 ==> (CrcDivision.Bits(POLY_CRC32C, 32)[i] <==> 31 - i in CRC32C_EXPONENTS)
  {
    hide CrcDivision.Bits;
    FourBits(0x82f63b78, 28);
    FourBits(0x82f63b7, 24);
    FourBits(0x82f63b, 20);
    FourBits(0x82f63, 16);
    FourBits(0x82f6, 12);
    FourBits(0x82f, 8);
    FourBits(0x82, 4);
    FourBits(0x8, 0);
  }

  /** One byte of the check message: what the register holds before it, with the byte added, and after it. */
  lemma CheckByte(c: Crc.word, b: Crc.octet, rest: seq<Crc.octet>, c': Crc.word)
    requires Crc.ByteStep(POLY_CRC32C, Crc.Plus(c, Crc.Widen(b))) == c'
    ensures Crc.Run(POLY_CRC32C, c, [b] + rest) == Crc.Run(POLY_CRC32C, c', rest)
  {
    hide Crc.ByteStep, Crc.Plus, Crc.Widen;
    assert ([b] + rest)[1..] == rest;
  }

  /** The check value that catalogues of CRCs give for CRC32c: the checksum of the nine digits. */
  lemma CheckValue()
    ensures Crc.Checksum(POLY_CRC32C, 0, [0x31, 0x32, 0x33, 0x34, 0x35, 0x36, 0x37, 0x38, 0x39]) == 0xe306_9283
  {
    hide Crc.Run;
    var r9: seq<Crc.octet> := [];
    var r8 := [0x39] + r9;
    var r7 := [0x38] + r8;
    var r6 := [0x37] + r7;
    var r5 := [0x36] + r6;
    var r4 := [0x35] + r5;
    var r3 := [0x34] + r4;
    var r2 := [0x33] + r3;
    var r1 := [0x32] + r2;
    CheckByte(0xffffffff, 0x31, r1, 0x6f0a661c);
    CheckByte(0x6f0a661c, 0x32, r2, 0x8caa3b9f);
    CheckByte(0x8caa3b9f, 0x33, r3, 0xef84d04d);
    CheckByte(0xef84d04d, 0x34, r4, 0x9c50b11);
    CheckByte(0x9c50b11, 0x35, r5, 0xe72edcca);
    CheckByte(0xe72edcca, 0x36, r6, 0xbeca8e79);
    CheckByte(0xbeca8e79, 0x37, r7, 0xedbd6815);
    CheckByte(0xedbd6815, 0x38, r8, 0x9f787f65);
    CheckByte(0x9f787f65, 0x39, r9, 0x1cf96d7c);
    assert [0x31, 0x32, 0x33, 0x34, 0x35, 0x36, 0x37, 0x38, 0x39] == [0x31] + r1;
    assert Crc.Run(POLY_CRC32C, 0x1cf96d7c, []) == 0x1cf96d7c by { NothingRun(0x1cf96d7c); }
  }

  lemma NothingRun(c: Crc.word)
    ensures Crc.Run(POLY_CRC32C, c, []) == c
  {
  }

  datatype Packet = Packet(sourcePort: nat, destinationPort: nat, verificationTag: nat, chunks: seq<WireChunk>)

  predicate PortsFit(source: nat, destination: nat, tag: nat) {
    source < MAX16 && destination < MAX16 && tag < MAX32
  }

  function CommonHeader(source: nat, destination: nat, tag: nat): (b: seq<byte>)
    requires PortsFit(source, destination, tag)
    ensures |b| == 8
  {
    U16(source) + U16(destination) + U32(tag)
  }

  /** The checksum field, computed with zeros in its place. */
  function ChecksumField(header: seq<byte>, body: seq<byte>): (b: seq<byte>)
    ensures |b| == 4
  {
    LittleEndian(Crc32c(header + Zeros(4) + body))
  }

  function SerializePacket(source: nat, destination: nat, tag: nat, chunk: WireChunk): seq<byte>
    requires PortsFit(source, destination, tag) && Encodable(chunk)
  {
    var header := CommonHeader(source, destination, tag);
    header + ChecksumField(header, ChunkBytes(chunk)) + ChunkBytes(chunk)
  }

  /** The source compares the checksums as numbers read little-endian, here as the four bytes. */
  predicate ChecksumOk(data: seq<byte>)
    requires |data| >= 12
  {
    data[8..12] == ChecksumField(data[..8], data[12..])
  }

  function ParsePacket(data: seq<byte>): Parse<Packet> {
    if |data| < 12 then Throws
    else if !ChecksumOk(data) then Throws
    else
      match ParseChunks(data[12..])
      case Throws => Throws
      case Stuck => Stuck
      case Parsed(cs) => Parsed(Packet(Read16(data, 0).value, Read16(data, 2).value, Read32(data, 4).value, cs))
  }

  /** Whatever chunks a sender bundles, the receiver reads back. */
  lemma BundleRoundTrip(source: nat, destination: nat, tag: nat, cs: seq<WireChunk>)
    requires PortsFit(source, destination, tag) && AllEncodable(cs)
    ensures var header := CommonHeader(source, destination, tag);
            ParsePacket(header + ChecksumField(header, ChunksBytes(cs)) + ChunksBytes(cs)) ==
            Parsed(Packet(source, destination, tag, cs))
  {
    hide U16, U32, Read16, Read32, ChunksBytes, ParseChunks, LittleEndian, Crc32c;
    var header, body := CommonHeader(source, destination, tag), ChunksBytes(cs);
    var data := header + ChecksumField(header, body) + body;
    assert data[..8] == header && data[12..] == body && data[8..12] == ChecksumField(header, body);
    assert data[0..2] == U16(source) && data[2..4] == U16(destination) && data[4..8] == U32(tag);
    Reads16(data, 0, source);
    Reads16(data, 2, destination);
    Reads32(data, 4, tag);
    ChunksRoundTrip(cs);
  }

  lemma PacketRoundTrip(source: nat, destination: nat, tag: nat, chunk: WireChunk)
    requires PortsFit(source, destination, tag) && Encodable(chunk)
    ensures ParsePacket(SerializePacket(source, destination, tag, chunk)) ==
            Parsed(Packet(source, destination, tag, [chunk]))
  {
    hide ParsePacket, ChunkBytes, ChecksumField, Encodable;
    assert AllEncodable([chunk]);
    assert ChunksBytes([chunk]) == ChunkBytes(chunk) + ChunksBytes([chunk][1..]) == ChunkBytes(chunk);
    BundleRoundTrip(source, destination, tag, [chunk]);
  }

  // Corruption

  lemma FromOctetIsInjective(a: Crc.octet, b: Crc.octet)
    requires FromOctet(a) == FromOctet(b)
    ensures a == b
  {
    hide Crc.Octet;
    Crc.OctetIndex(a);
    Crc.OctetIndex(b);
  }

  lemma LittleEndianIsInjective(c: Crc.word, d: Crc.word)
    requires LittleEndian(c) == LittleEndian(d)
    ensures c == d
  {
    hide Crc.Low, Crc.High, FromOctet, CrcDivision.FourBytes;
    assert LittleEndian(c)[0] == LittleEndian(d)[0] && LittleEndian(c)[1] == LittleEndian(d)[1];
    assert LittleEndian(c)[2] == LittleEndian(d)[2] && LittleEndian(c)[3] == LittleEndian(d)[3];
    var c1, d1 := Crc.High(c), Crc.High(d);
    var c2, d2 := Crc.High(c1), Crc.High(d1);
    var c3, d3 := Crc.High(c2), Crc.High(d2);
    FromOctetIsInjective(Crc.Low(c), Crc.Low(d));
    FromOctetIsInjective(Crc.Low(c1), Crc.Low(d1));
    FromOctetIsInjective(Crc.Low(c2), Crc.Low(d2));
    FromOctetIsInjective(Crc.Low(c3), Crc.Low(d3));
    CrcDivision.WordOfBytes(c);
    CrcDivision.WordOfBytes(d);
  }

  lemma OctetsAreInjective(x: seq<byte>, y: seq<byte>)
    requires Octets(x) == Octets(y)
    ensures x == y
  {
    assert |x| == |Octets(x)| == |Octets(y)| == |y|;
    forall i | 0 <= i < |x|
      ensures x[i] == y[i]
    {
      assert Octets(x)[i] == Octets(y)[i];
    }
  }

  lemma OctetsConcat(a: seq<byte>, x: seq<byte>, b: seq<byte>)
    ensures Octets(a + x + b) == Octets(a) + Octets(x) + Octets(b)
  {
    hide ToOctet;
  }

  /** A change inside four consecutive bytes changes the CRC32c. */
  lemma CrcDetects(a: seq<byte>, x: seq<byte>, y: seq<byte>, b: seq<byte>)
    requires |x| == |y| <= 4
    ensures Crc32c(a + x + b) == Crc32c(a + y + b) <==> x == y
  {
    hide Crc.Checksum, Octets;
    if Crc32c(a + x + b) == Crc32c(a + y + b) {
      OctetsConcat(a, x, b);
      OctetsConcat(a, y, b);
      CrcDivision.SourcePolynomialsHaveConstantTerm();
      CrcDivision.BurstIsDetected(POLY_CRC32C, 0, Octets(a), Octets(x), Octets(y), Octets(b));
      OctetsAreInjective(x, y);
    }
  }

  /** What the checksum covers. */
  function Covered(data: seq<byte>): seq<byte>
    requires |data| >= 12
  {
    data[..8] + Zeros(4) + data[12..]
  }

  /** A window of up to four bytes, either in the checksum field or off it. */
  predicate Window(start: nat, n: nat) {
    n <= 4 && (start + n <= 8 || 12 <= start || 8 <= start <= start + n <= 12)
  }

  lemma CoveredChanges(a: seq<byte>, x: seq<byte>, y: seq<byte>, b: seq<byte>)
    requires |x| == |y| <= 4 && |a| + |x| + |b| >= 12 && (|a| + |x| <= 8 || 12 <= |a|)
    ensures Crc32c(Covered(a + x + b)) == Crc32c(Covered(a + y + b)) <==> x == y
  {
    hide Crc32c;
    var d, e := a + x + b, a + y + b;
    if |a| >= 12 {
      var a' := a[..8] + Zeros(4) + a[12..];
      assert Covered(d) == a' + x + b && Covered(e) == a' + y + b;
      CrcDetects(a', x, y, b);
    } else {
      var k := 8 - |a| - |x|;
      var b' := b[..k] + Zeros(4) + b[k + 4..];
      assert d[..8] == a + x + b[..k] && e[..8] == a + y + b[..k];
      assert d[12..] == b[k + 4..] && e[12..] == b[k + 4..];
      assert Covered(d) == a + x + b' && Covered(e) == a + y + b';
      CrcDetects(a, x, y, b');
    }
  }

  /** `parsePacket` rejects a packet that differs from an accepted one inside such a window. */
  lemma CorruptionIsRejected(a: seq<byte>, x: seq<byte>, y: seq<byte>, b: seq<byte>)
    requires |x| == |y| && Window(|a|, |x|) && |a| + |x| + |b| >= 12
    requires ChecksumOk(a + x + b) && x != y
    ensures ParsePacket(a + y + b) == Throws
  {
    hide Crc32c, LittleEndian;
    var d, e := a + x + b, a + y + b;
    assert d[..8] + Zeros(4) + d[12..] == Covered(d) && e[..8] + Zeros(4) + e[12..] == Covered(e);
    if |a| + |x| <= 8 || 12 <= |a| {
      assert d[8..12] == e[8..12];
      CoveredChanges(a, x, y, b);
      if ChecksumOk(e) {
        LittleEndianIsInjective(Crc32c(Covered(d)), Crc32c(Covered(e)));
      }
    } else {
      FieldChanges(a, x, y, b);
    }
  }

  lemma FieldChanges(a: seq<byte>, x: seq<byte>, y: seq<byte>, b: seq<byte>)
    requires |x| == |y| && 8 <= |a| <= |a| + |x| <= 12 && |a| + |x| + |b| >= 12 && x != y
    ensures var d, e := a + x + b, a + y + b;
            d[..8] == e[..8] && d[12..] == e[12..] && d[8..12] != e[8..12]
  {
    var d, e := a + x + b, a + y + b;
    var i :| 0 <= i < |x| && x[i] != y[i];
    assert d[8..12][|a| - 8 + i] == x[i] && e[8..12][|a| - 8 + i] == y[i];
  }

  // The chunks the association sends

  /** `send` sets the flags: last fragment 1, first fragment 2, unordered 4. */
  function DataFlags(c: Reassembly.Chunk): nat {
    (if c.last then 1 else 0) + (if c.first then 2 else 0) + (if c.unordered then 4 else 0)
  }

  function ToWire(c: Reassembly.Chunk): WireChunk {
    DataChunk(DataFlags(c), c.tsn, c.streamId, c.ssn, c.ppid, c.data)
  }

  /** The chunk the receiver works with; `serial` is a label it does not read. */
  function FromWire(serial: nat, w: WireChunk): Reassembly.Chunk
    requires w.DataChunk?
  {
    Reassembly.Chunk(serial, w.tsn, w.streamId, w.streamSeqNum, w.protocol,
                     w.flags / 2 % 2 == 1, w.flags % 2 == 1, w.flags / 4 % 2 == 1, w.userData)
  }

  /** A DATA chunk arrives as it was sent. */
  lemma DataTravels(source: nat, destination: nat, tag: nat, c: Reassembly.Chunk)
    requires PortsFit(source, destination, tag) && Encodable(ToWire(c))
    ensures ParsePacket(SerializePacket(source, destination, tag, ToWire(c))) ==
            Parsed(Packet(source, destination, tag, [ToWire(c)]))
    ensures FromWire(c.serial, ToWire(c)) == c
  {
    hide ParsePacket, SerializePacket;
    PacketRoundTrip(source, destination, tag, ToWire(c));
  }

  function Pairs(gaps: seq<Sacks.Gap>): (ps: seq<(nat, nat)>)
    requires forall i :: 0 <= i < |gaps| ==> 0 <= gaps[i].start && 0 <= gaps[i].end
    ensures |ps| == |gaps|
    ensures forall i :: 0 <= i < |gaps| ==> ps[i] == (gaps[i].start, gaps[i].end)
  {
    seq(|gaps|, i requires 0 <= i < |gaps| => (gaps[i].start, gaps[i].end))
  }

  function GapsOf(ps: seq<(nat, nat)>): (gaps: seq<Sacks.Gap>)
    ensures |gaps| == |ps|
    ensures forall i :: 0 <= i < |ps| ==> gaps[i] == Sacks.Gap(ps[i].0, ps[i].1)
  {
    seq(|ps|, i requires 0 <= i < |ps| => Sacks.Gap(ps[i].0, ps[i].1))
  }

  function SackToWire(k: Sacks.Sack): WireChunk
    requires forall i :: 0 <= i < |k.gaps| ==> 0 <= k.gaps[i].start && 0 <= k.gaps[i].end
  {
    SackChunk(0, k.cum, k.rwnd, Pairs(k.gaps), k.duplicates)
  }

  function SackFromWire(w: WireChunk): Sacks.Sack
    requires w.SackChunk?
  {
    Sacks.Sack(w.cumulativeTsn, w.advertisedRwnd, GapsOf(w.gaps), w.duplicates)
  }

  /** Negative offsets cannot be written. */
  predicate NonNegative(k: Sacks.Sack) {
    forall i :: 0 <= i < |k.gaps| ==> 0 <= k.gaps[i].start && 0 <= k.gaps[i].end
  }

  /** For any SACK the code can build, `Fits` is exactly what can be written. */
  lemma FitsIsEncodable(k: Sacks.Sack)
    ensures Sacks.Fits(k) <==> NonNegative(k) && Encodable(SackToWire(k))
  {
    if NonNegative(k) {
      var c := SackToWire(k);
      if FieldsFit(c) {
        assert |Body(c)| == 12 + 4 * (|k.gaps| + |k.duplicates|);
      }
    }
  }

  /**
   A SACK that can be written arrives as it was built, and the sender expands its blocks to
   exactly the out-of-order TSNs of the receiver, in whatever order these were enumerated.
   */
  lemma SackTravels(source: nat, destination: nat, tag: nat,
                    t: TsnTracking.Tracker, c: nat, m: set<nat>, order: seq<nat>, rwnd: nat)
    requires PortsFit(source, destination, tag)
    requires TsnTracking.Tracks(t, c, m) && StringOrder.Enumerates(order, t.misordered)
    requires Sacks.Fits(Sacks.Sack(t.last, rwnd, Sacks.Gaps(t.last, order), t.duplicates))
    ensures var k := Sacks.Sack(t.last, rwnd, Sacks.Gaps(t.last, order), t.duplicates);
            && Encodable(SackToWire(k))
            && ParsePacket(SerializePacket(source, destination, tag, SackToWire(k))) ==
               Parsed(Packet(source, destination, tag, [SackToWire(k)]))
            && SackFromWire(SackToWire(k)) == k
            && Sacks.Seen(k.cum, SackFromWire(SackToWire(k)).gaps) == t.misordered
  {
    hide ParsePacket, SerializePacket, Encodable, Sacks.Seen, Sacks.Gaps, TsnTracking.Tracks;
    var k := Sacks.Sack(t.last, rwnd, Sacks.Gaps(t.last, order), t.duplicates);
    FitsIsEncodable(k);
    PacketRoundTrip(source, destination, tag, SackToWire(k));
    assert GapsOf(Pairs(k.gaps)) == k.gaps;
    Sacks.GapsRoundTrip(t, c, m, order, rwnd);
  }

  // Packet size

  /** `maxPayloadSizeForMtu`. */
  function MaxPayload(mtu: nat): nat {
    if mtu <= 28 then 0 else (mtu - 28) - (mtu - 28) % 4
  }

  lemma DataPacketSize(source: nat, destination: nat, tag: nat, c: Reassembly.Chunk)
    requires PortsFit(source, destination, tag) && Encodable(ToWire(c))
    ensures |SerializePacket(source, destination, tag, ToWire(c))| == 28 + |c.data| + PadL(|c.data|)
  {
    hide LittleEndian, Crc32c;
  }

  /** The payload limit is exact: a DATA packet fits the MTU just when its payload is within it, and 32 bytes is the least MTU. */
  lemma PayloadLimitIsExact(mtu: nat, n: nat)
    requires n > 0
    ensures n <= MaxPayload(mtu) <==> 28 + n + PadL(n) <= mtu
    ensures MaxPayload(mtu) > 0 <==> mtu >= 32
  {
  }

  /** A sender whose MTU `validateSctpMtu` accepts, which are those of 32 bytes and more. */
  predicate AcceptsMtu(s: Outbound.State, mtu: nat) {
    s.maxPayload == MaxPayload(mtu) > 0
  }

  /**
   In every run of a sender, whatever it was given and whatever was acknowledged, no DATA packet it
   transmits is longer than the MTU, which is at least 32 bytes if it was accepted.
   */
  lemma DataPacketsFitMtu(source: nat, destination: nat, tag: nat, mtu: nat, s: Outbound.State,
                          es: seq<OutboundLaws.Event>, c: Reassembly.Chunk)
    requires AcceptsMtu(s, mtu) && s.sent == [] && s.outbound == []
    requires var s1 := OutboundLaws.Execute(s, es);
             c in Outbound.TransmitOnce(s1).packets || c in Outbound.Timer3Expired(s1).packets
    requires PortsFit(source, destination, tag) && Encodable(ToWire(c))
    ensures |SerializePacket(source, destination, tag, ToWire(c))| <= mtu && mtu >= 32
  {
    hide SerializePacket, Encodable, Outbound.TransmitOnce, Outbound.Timer3Expired, OutboundLaws.Execute;
    FlightLaws.PayloadsHoldInEveryRun(s, es, c);
    DataPacketSize(source, destination, tag, c);
    if c.data != [] {
      PayloadLimitIsExact(mtu, |c.data|);
    }
  }
}
