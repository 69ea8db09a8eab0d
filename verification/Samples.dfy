/**
 The sample packets of the test suite (packages/sctp/tests/packet.test.ts, with the files in
 packages/sctp/tests/data), byte for byte: field order, byte order, chunk types, flags,
 polynomial and checksum field as other implementations write them.
 */
module Samples {
  import opened BigEndian
  import opened Parameters
  import opened Chunks
  import opened Packets
  import Crc

  /** The bytes take the register of the checksum from `c` to `d`. */
  ghost predicate Feeds(c: Crc.word, b: seq<byte>, d: Crc.word) {
    Crc.Run(POLY_CRC32C, c, Octets(b)) == d
  }

  /** One byte does. */
  predicate Turns(c: Crc.word, octet: Crc.octet, d: Crc.word) {
    Crc.ByteStep(POLY_CRC32C, Crc.Plus(c, Crc.Widen(octet))) == d
  }

  lemma {:induction false} RunParts(c: Crc.word, a: seq<Crc.octet>, b: seq<Crc.octet>)
    ensures Crc.Run(POLY_CRC32C, c, a + b) == Crc.Run(POLY_CRC32C, Crc.Run(POLY_CRC32C, c, a), b)
    decreases |a|
  {
    hide Crc.ByteStep, Crc.Plus, Crc.Widen;
    if a == [] {
      assert a + b == b;
    } else {
      assert (a + b)[1..] == a[1..] + b;
      RunParts(Crc.ByteStep(POLY_CRC32C, Crc.Plus(c, Crc.Widen(a[0]))), a[1..], b);
    }
  }

  lemma FeedParts(c: Crc.word, a: seq<byte>, d: Crc.word, b: seq<byte>, e: Crc.word)
    requires Feeds(c, a, d) && Feeds(d, b, e)
    ensures Feeds(c, a + b, e)
  {
    hide Crc.Run;
    assert Octets(a + b) == Octets(a) + Octets(b);
    RunParts(c, Octets(a), Octets(b));
  }

  lemma FeedByte(c: Crc.word, b: byte, octet: Crc.octet, d: Crc.word)
    requires octet as int == b && Turns(c, octet, d)
    ensures Feeds(c, [b], d)
  {
    hide Crc.Run, Octets, ToOctet;
    OctetOf(b, octet);
    assert [octet] == [octet] + [];
    CheckByte(c, octet, [], d);
    NothingRun(d);
  }

  lemma OctetOf(b: byte, octet: Crc.octet)
    requires octet as int == b
    ensures Octets([b]) == [octet]
  {
    hide ToOctet;
    FromOctetIsInjective(ToOctet(b), octet);
  }

  lemma Feed2(c: Crc.word, a: Crc.octet, d: Crc.word, b: Crc.octet, e: Crc.word)
    requires Turns(c, a, d) && Turns(d, b, e)
    ensures Feeds(c, [FromOctet(a), FromOctet(b)], e)
  {
    hide Feeds, Turns;
    FeedByte(c, FromOctet(a), a, d);
    FeedByte(d, FromOctet(b), b, e);
    FeedParts(c, [FromOctet(a)], d, [FromOctet(b)], e);
    assert [FromOctet(a)] + [FromOctet(b)] == [FromOctet(a), FromOctet(b)];
  }

  lemma Feed4(c: Crc.word, a: Crc.octet, d: Crc.word, b: Crc.octet, e: Crc.word,
              x: Crc.octet, f: Crc.word, y: Crc.octet, g: Crc.word)
    requires Turns(c, a, d) && Turns(d, b, e) && Turns(e, x, f) && Turns(f, y, g)
    ensures Feeds(c, [FromOctet(a), FromOctet(b), FromOctet(x), FromOctet(y)], g)
  {
    hide Feeds, Turns;
    Feed2(c, a, d, b, e);
    Feed2(e, x, f, y, g);
    var p, q := [FromOctet(a), FromOctet(b)], [FromOctet(x), FromOctet(y)];
    FeedParts(c, p, e, q, g);
    assert p + q == [FromOctet(a), FromOctet(b), FromOctet(x), FromOctet(y)];
  }

  /** A packet is its header, the checksum of everything else, and its chunk. */
  lemma PacketIs(tag: nat, chunk: WireChunk, c: Crc.word, d: Crc.word, e: Crc.word, field: seq<byte>)
    requires PortsFit(5000, 5000, tag) && Encodable(chunk)
    requires Feeds(Crc.ONES, CommonHeader(5000, 5000, tag), c) && Feeds(c, [0, 0, 0, 0], d) && Feeds(d, ChunkBytes(chunk), e)
    requires LittleEndian(Crc.Plus(e, Crc.ONES)) == field
    ensures SerializePacket(5000, 5000, tag, chunk) == CommonHeader(5000, 5000, tag) + field + ChunkBytes(chunk)
  {
    hide CommonHeader, ChunkBytes, LittleEndian, Crc.Run, Encodable, Crc.Plus;
    var header := CommonHeader(5000, 5000, tag);
    assert Zeros(4) == [0, 0, 0, 0];
    assert Feeds(Crc.ONES, header + Zeros(4) + ChunkBytes(chunk), e) by {
      hide Feeds;
      FeedParts(Crc.ONES, header, c, [0, 0, 0, 0], d);
      FeedParts(Crc.ONES, header + [0, 0, 0, 0], d, ChunkBytes(chunk), e);
    }
    assert Crc.Plus(0, Crc.ONES) == Crc.ONES by { Crc.Neutral(Crc.ONES); }
  }

  const DATA: WireChunk := DataChunk(3, 2584679421, 1, 1, 51, [0x70, 0x69, 0x6e, 0x67])

  /** Its bytes, field by field. */
  const DATA_BYTES: seq<byte> :=
    ([0x00, 0x03] + [0x00, 0x14]) +
    ([0x9a, 0x0f, 0x13, 0xfd] + [0x00, 0x01] + [0x00, 0x01] + [0x00, 0x00, 0x00, 0x33] + [0x70, 0x69, 0x6e, 0x67])

  lemma DataHeader()
    ensures Feeds(Crc.ONES, CommonHeader(5000, 5000, 0x0fc0f8a1), 0xe27be2f3) && Feeds(0xe27be2f3, [0, 0, 0, 0], 0x53ad839f)
  {
    hide Feeds;
    var p, t := [0x13, 0x88], [0x0f, 0xc0, 0xf8, 0xa1];
    assert CommonHeader(5000, 5000, 0x0fc0f8a1) == p + p + t;
    DataSource();
    DataDestination();
    DataTag();
    DataZeros();
    FeedParts(0xffffffff, p, 0x0d93b282, p, 0x8ca5ff15);
    FeedParts(0xffffffff, p + p, 0x8ca5ff15, t, 0xe27be2f3);
  }

  lemma DataSource()
    ensures Feeds(0xffffffff, [0x13, 0x88], 0x0d93b282)
  {
    hide Feeds;
    Feed2(0xffffffff, 0x13, 0xae8c9835, 0x88, 0x0d93b282);
  }

  lemma DataDestination()
    ensures Feeds(0x0d93b282, [0x13, 0x88], 0x8ca5ff15)
  {
    hide Feeds;
    Feed2(0x0d93b282, 0x13, 0x60ceeca6, 0x88, 0x8ca5ff15);
  }

  lemma DataTag()
    ensures Feeds(0x8ca5ff15, [0x0f, 0xc0, 0xf8, 0xa1], 0xe27be2f3)
  {
    hide Feeds;
    Feed4(0x8ca5ff15, 0x0f, 0x7b304aa8, 0xc0, 0xeb64fbe7,
          0xf8, 0x4ea69fb0, 0xa1, 0xe27be2f3);
  }

  lemma DataZeros()
    ensures Feeds(0xe27be2f3, [0x00, 0x00, 0x00, 0x00], 0x53ad839f)
  {
    hide Feeds;
    Feed4(0xe27be2f3, 0x00, 0xe0dce763, 0x00, 0x7276bc71,
          0x00, 0x8381a1b2, 0x00, 0x53ad839f);
  }

  lemma DataFeeds()
    ensures Encodable(DATA) && ChunkBytes(DATA) == DATA_BYTES
    ensures Feeds(0x53ad839f, DATA_BYTES, 0x6301cfc0)
  {
    hide Feeds;
    var f0 := [0x00, 0x03];
    var f1 := [0x00, 0x14];
    var f2 := [0x9a, 0x0f, 0x13, 0xfd];
    var f3 := [0x00, 0x01];
    var f4 := [0x00, 0x01];
    var f5 := [0x00, 0x00, 0x00, 0x33];
    var f6 := [0x70, 0x69, 0x6e, 0x67];
    DataLayout();
    assert DATA_BYTES == (f0 + f1) + (f2 + f3 + f4 + f5 + f6);
    DataField0();
    DataField1();
    DataField2();
    DataField3();
    DataField4();
    DataField5();
    DataField6();
    FeedParts(0x53ad839f, f0, 0xa1896950, f1, 0x0e628ed2);
    FeedParts(0x0e628ed2, f2, 0x3f41094d, f3, 0xb5f29b99);
    FeedParts(0x0e628ed2, f2 + f3, 0xb5f29b99, f4, 0xb3fa316a);
    FeedParts(0x0e628ed2, f2 + f3 + f4, 0xb3fa316a, f5, 0x7d3af9bb);
    FeedParts(0x0e628ed2, f2 + f3 + f4 + f5, 0x7d3af9bb, f6, 0x6301cfc0);
    FeedParts(0x53ad839f, f0 + f1, 0x0e628ed2, f2 + f3 + f4 + f5 + f6, 0x6301cfc0);
  }

  lemma DataField0()
    ensures Feeds(0x53ad839f, [0x00, 0x03], 0xa1896950)
  {
    hide Feeds;
    Feed2(0x53ad839f, 0x00, 0xcce86db0, 0x03, 0xa1896950);
  }

  lemma DataField1()
    ensures Feeds(0xa1896950, [0x00, 0x14], 0x0e628ed2)
  {
    hide Feeds;
    Feed2(0xa1896950, 0x00, 0x518453ba, 0x14, 0x0e628ed2);
  }

  lemma DataField2()
    ensures Feeds(0x0e628ed2, [0x9a, 0x0f, 0x13, 0xfd], 0x3f41094d)
  {
    hide Feeds;
    Feed4(0x0e628ed2, 0x9a, 0xcbac27fd, 0x0f, 0x129eb3a5,
          0x13, 0x94a60b92, 0xfd, 0x3f41094d);
  }

  lemma DataField3()
    ensures Feeds(0x3f41094d, [0x00, 0x01], 0xb5f29b99)
  {
    hide Feeds;
    Feed2(0x3f41094d, 0x00, 0xfe6c1066, 0x01, 0xb5f29b99);
  }

  lemma DataField4()
    ensures Feeds(0xb5f29b99, [0x00, 0x01], 0xb3fa316a)
  {
    hide Feeds;
    Feed2(0xb5f29b99, 0x00, 0xeaafd540, 0x01, 0xb3fa316a);
  }

  lemma DataField5()
    ensures Feeds(0xb3fa316a, [0x00, 0x00, 0x00, 0x33], 0x7d3af9bb)
  {
    hide Feeds;
    Feed4(0xb3fa316a, 0x00, 0x0a97416b, 0x00, 0xf845af18,
          0x00, 0x9a7fda0f, 0x33, 0x7d3af9bb);
  }

  lemma DataField6()
    ensures Feeds(0x7d3af9bb, [0x70, 0x69, 0x6e, 0x67], 0x6301cfc0)
  {
    hide Feeds;
    Feed4(0x7d3af9bb, 0x70, 0x5a79b706, 0x69, 0x3f8fd6f1,
          0x6e, 0xcc844fe5, 0x67, 0x6301cfc0);
  }

  lemma DataLayout()
    ensures Encodable(DATA) && ChunkBytes(DATA) == DATA_BYTES
  {
    var chunk := DATA;
    assert Body(chunk) == U32(2584679421) + U16(1) + U16(1) + U32(51) + chunk.userData;
    assert Zeros(0) == [];
  }

  /** The message "ping" on stream 1, in one fragment. */
  lemma DataSample()
    ensures Encodable(DATA) && SerializePacket(5000, 5000, 0x0fc0f8a1, DATA) ==
            [0x13, 0x88] + [0x13, 0x88] + [0x0f, 0xc0, 0xf8, 0xa1] + [0x3f, 0x30, 0xfe, 0x9c] + DATA_BYTES
  {
    hide Feeds, Encodable, ChunkBytes, SerializePacket, LittleEndian;
    DataHeader();
    DataFeeds();
    DataChecksum();
    PacketIs(0x0fc0f8a1, DATA, 0xe27be2f3, 0x53ad839f, 0x6301cfc0, [0x3f, 0x30, 0xfe, 0x9c]);
    assert CommonHeader(5000, 5000, 0x0fc0f8a1) == [0x13, 0x88] + [0x13, 0x88] + [0x0f, 0xc0, 0xf8, 0xa1];
  }

  lemma DataChecksum()
    ensures LittleEndian(Crc.Plus(0x6301cfc0, Crc.ONES)) == [0x3f, 0x30, 0xfe, 0x9c]
  {
  }

  const SACK: WireChunk := SackChunk(0, 2222939037, 128160, [(2, 2), (4, 4)], [2222939041])

  /** Its bytes, field by field. */
  const SACK_BYTES: seq<byte> :=
    ([0x03, 0x00] + [0x00, 0x1c]) +
    ([0x84, 0x7f, 0x5b, 0x9d] + [0x00, 0x01, 0xf4, 0xa0] + [0x00, 0x02] + [0x00, 0x01] +
     [0x00, 0x02, 0x00, 0x02] + [0x00, 0x04, 0x00, 0x04] + [0x84, 0x7f, 0x5b, 0xa1])

  lemma SackHeader()
    ensures Feeds(Crc.ONES, CommonHeader(5000, 5000, 0xf71faf4b), 0x91541c25) && Feeds(0x91541c25, [0, 0, 0, 0], 0x49f441d8)
  {
    hide Feeds;
    var p, t := [0x13, 0x88], [0xf7, 0x1f, 0xaf, 0x4b];
    assert CommonHeader(5000, 5000, 0xf71faf4b) == p + p + t;
    SackSource();
    SackDestination();
    SackTag();
    SackZeros();
    FeedParts(0xffffffff, p, 0x0d93b282, p, 0x8ca5ff15);
    FeedParts(0xffffffff, p + p, 0x8ca5ff15, t, 0x91541c25);
  }

  lemma SackSource()
    ensures Feeds(0xffffffff, [0x13, 0x88], 0x0d93b282)
  {
    hide Feeds;
    Feed2(0xffffffff, 0x13, 0xae8c9835, 0x88, 0x0d93b282);
  }

  lemma SackDestination()
    ensures Feeds(0x0d93b282, [0x13, 0x88], 0x8ca5ff15)
  {
    hide Feeds;
    Feed2(0x0d93b282, 0x13, 0x60ceeca6, 0x88, 0x8ca5ff15);
  }

  lemma SackTag()
    ensures Feeds(0x8ca5ff15, [0xf7, 0x1f, 0xaf, 0x4b], 0x91541c25)
  {
    hide Feeds;
    Feed4(0x8ca5ff15, 0xf7, 0x02877d12, 0x1f, 0xbf2acbae,
          0xaf, 0xf2d4a9c8, 0x4b, 0x91541c25);
  }

  lemma SackZeros()
    ensures Feeds(0x91541c25, [0x00, 0x00, 0x00, 0x00], 0x49f441d8)
  {
    hide Feeds;
    Feed4(0x91541c25, 0x00, 0x15ddcede, 0x00, 0x7fbe8342,
          0x00, 0xa03fd3c8, 0x00, 0x49f441d8);
  }

  lemma SackFeeds()
    ensures Encodable(SACK) && ChunkBytes(SACK) == SACK_BYTES
    ensures Feeds(0x49f441d8, SACK_BYTES, 0xdee519b0)
  {
    hide Feeds;
    var f0 := [0x03, 0x00];
    var f1 := [0x00, 0x1c];
    var f2 := [0x84, 0x7f, 0x5b, 0x9d];
    var f3 := [0x00, 0x01, 0xf4, 0xa0];
    var f4 := [0x00, 0x02];
    var f5 := [0x00, 0x01];
    var f6 := [0x00, 0x02, 0x00, 0x02];
    var f7 := [0x00, 0x04, 0x00, 0x04];
    var f8 := [0x84, 0x7f, 0x5b, 0xa1];
    SackLayout();
    assert SACK_BYTES == (f0 + f1) + (f2 + f3 + f4 + f5 + f6 + f7 + f8);
    SackField0();
    SackField1();
    SackField2();
    SackField3();
    SackField4();
    SackField5();
    SackField6();
    SackField7();
    SackField8();
    FeedParts(0x49f441d8, f0, 0x21f27116, f1, 0x88e45ef0);
    FeedParts(0x88e45ef0, f2, 0xd39b933c, f3, 0x02e02765);
    FeedParts(0x88e45ef0, f2 + f3, 0x02e02765, f4, 0xc8f8448f);
    FeedParts(0x88e45ef0, f2 + f3 + f4, 0xc8f8448f, f5, 0x6830315c);
    FeedParts(0x88e45ef0, f2 + f3 + f4 + f5, 0x6830315c, f6, 0xfe0653fb);
    FeedParts(0x88e45ef0, f2 + f3 + f4 + f5 + f6, 0xfe0653fb, f7, 0x615556f4);
    FeedParts(0x88e45ef0, f2 + f3 + f4 + f5 + f6 + f7, 0x615556f4, f8, 0xdee519b0);
    FeedParts(0x49f441d8, f0 + f1, 0x88e45ef0, f2 + f3 + f4 + f5 + f6 + f7 + f8, 0xdee519b0);
  }

  lemma SackField0()
    ensures Feeds(0x49f441d8, [0x03, 0x00], 0x21f27116)
  {
    hide Feeds;
    Feed2(0x49f441d8, 0x03, 0x4a13bed1, 0x00, 0x21f27116);
  }

  lemma SackField1()
    ensures Feeds(0x21f27116, [0x00, 0x1c], 0x88e45ef0)
  {
    hide Feeds;
    Feed2(0x21f27116, 0x00, 0x36ded2f6, 0x1c, 0x88e45ef0);
  }

  lemma SackField2()
    ensures Feeds(0x88e45ef0, [0x84, 0x7f, 0x5b, 0x9d], 0xd39b933c)
  {
    hide Feeds;
    Feed4(0x88e45ef0, 0x84, 0xb68a274c, 0x7f, 0x23053062,
          0x5b, 0x4872974d, 0x9d, 0xd39b933c);
  }

  lemma SackField3()
    ensures Feeds(0xd39b933c, [0x00, 0x01, 0xf4, 0xa0], 0x02e02765)
  {
    hide Feeds;
    Feed4(0xd39b933c, 0x00, 0x7d731df2, 0x01, 0xe043ef9c,
          0xf4, 0xebff8842, 0xa0, 0x02e02765);
  }

  lemma SackField4()
    ensures Feeds(0x02e02765, [0x00, 0x02], 0xc8f8448f)
  {
    hide Feeds;
    Feed2(0x02e02765, 0x00, 0x54356759, 0x02, 0xc8f8448f);
  }

  lemma SackField5()
    ensures Feeds(0xc8f8448f, [0x00, 0x01], 0x6830315c)
  {
    hide Feeds;
    Feed2(0xc8f8448f, 0x00, 0xdc2dff18, 0x01, 0x6830315c);
  }

  lemma SackField6()
    ensures Feeds(0x6830315c, [0x00, 0x02, 0x00, 0x02], 0xfe0653fb)
  {
    hide Feeds;
    Feed4(0x6830315c, 0x00, 0x1c0e2532, 0x02, 0x30ff4794,
          0x00, 0x5502944f, 0x02, 0xfe0653fb);
  }

  lemma SackField7()
    ensures Feeds(0xfe0653fb, [0x00, 0x04, 0x00, 0x04], 0x615556f4)
  {
    hide Feeds;
    Feed4(0xfe0653fb, 0x00, 0x6a19c21d, 0x04, 0x68860561,
          0x00, 0x93c59664, 0x04, 0x615556f4);
  }

  lemma SackField8()
    ensures Feeds(0x615556f4, [0x84, 0x7f, 0x5b, 0xa1], 0xdee519b0)
  {
    hide Feeds;
    Feed4(0x615556f4, 0x84, 0x71f9015b, 0x7f, 0xe756e0c0,
          0x5b, 0x0bc601cc, 0xa1, 0xdee519b0);
  }

  lemma SackBlocks()
    ensures PairsFit([(2, 2), (4, 4)]) && EncodePairs([(2, 2), (4, 4)]) == [0x00, 0x02, 0x00, 0x02] + [0x00, 0x04, 0x00, 0x04]
    ensures WordsFit([2222939041]) && EncodeWords([2222939041]) == [0x84, 0x7f, 0x5b, 0xa1]
  {
    var two, one := [(2, 2), (4, 4)], [(4, 4)];
    assert two[1..] == one && one[1..] == [] && [2222939041][1..] == [];
    assert EncodePairs(one) == [0x00, 0x04, 0x00, 0x04];
    assert U32(2222939041) == [0x84, 0x7f, 0x5b, 0xa1];
  }

  lemma SackLayout()
    ensures Encodable(SACK) && ChunkBytes(SACK) == SACK_BYTES
  {
    SackBlocks();
    assert U32(2222939037) == [0x84, 0x7f, 0x5b, 0x9d] && U32(128160) == [0x00, 0x01, 0xf4, 0xa0];
    assert U16(2) == [0x00, 0x02] && U16(1) == [0x00, 0x01] && U16(28) == [0x00, 0x1c];
    hide U16, U32, EncodePairs, EncodeWords;
    var h, p := [0x84, 0x7f, 0x5b, 0x9d] + [0x00, 0x01, 0xf4, 0xa0] + [0x00, 0x02] + [0x00, 0x01], [0x84, 0x7f, 0x5b, 0xa1];
    assert h + ([0x00, 0x02, 0x00, 0x02] + [0x00, 0x04, 0x00, 0x04]) == h + [0x00, 0x02, 0x00, 0x02] + [0x00, 0x04, 0x00, 0x04];
    assert |Body(SACK)| == 24 && Zeros(0) == [];
  }

  /** A SACK with two blocks and a duplicate. */
  lemma SackSample()
    ensures Encodable(SACK) && SerializePacket(5000, 5000, 0xf71faf4b, SACK) ==
            [0x13, 0x88] + [0x13, 0x88] + [0xf7, 0x1f, 0xaf, 0x4b] + [0x4f, 0xe6, 0x1a, 0x21] + SACK_BYTES
  {
    hide Feeds, Encodable, ChunkBytes, SerializePacket, LittleEndian;
    SackHeader();
    SackFeeds();
    SackChecksum();
    PacketIs(0xf71faf4b, SACK, 0x91541c25, 0x49f441d8, 0xdee519b0, [0x4f, 0xe6, 0x1a, 0x21]);
    assert CommonHeader(5000, 5000, 0xf71faf4b) == [0x13, 0x88] + [0x13, 0x88] + [0xf7, 0x1f, 0xaf, 0x4b];
  }

  lemma SackChecksum()
    ensures LittleEndian(Crc.Plus(0xdee519b0, Crc.ONES)) == [0x4f, 0xe6, 0x1a, 0x21]
  {
  }

  const FORWARD: WireChunk := ForwardTsnChunk(0, 1234, [(12, 34)])

  /** The FORWARD-TSN chunk that skips message 34 of stream 12. */
  lemma ForwardLayout()
    ensures Encodable(FORWARD)
    ensures ChunkBytes(FORWARD) ==
            [0xc0, 0x00] + [0x00, 0x0c] + ([0x00, 0x00, 0x04, 0xd2] + [0x00, 0x0c, 0x00, 0x22])
  {
    assert [(12, 34)][1..] == [];
    assert EncodePairs([(12, 34)]) == [0x00, 0x0c, 0x00, 0x22];
    assert Zeros(0) == [];
  }

  // The parameters of the INIT chunk

  const VALUE0: seq<byte> := []

  const VALUE1: seq<byte> := [0xc0, 0x0f, 0xc1, 0x80, 0x82]

  const VALUE2: seq<byte> :=
    [0x89, 0x99, 0x27, 0x38, 0x15, 0x6c, 0xa4, 0x69] + [0xab, 0xf5, 0xa1, 0x1a, 0xc8, 0x9d, 0xc2, 0x74] +
    [0xaf, 0x07, 0xe5, 0x1a, 0xb3, 0xfa, 0x38, 0x04] + [0x50, 0x17, 0xda, 0x1e, 0x33, 0x90, 0xf1, 0x77]

  const VALUE3: seq<byte> := [0x00, 0x01]

  const VALUE4: seq<byte> := [0x80, 0xc1]

  const PARAMS: seq<Param> :=
    [Param(0xc000, VALUE0), Param(0x8008, VALUE1), Param(0x8002, VALUE2),
     Param(0x8004, VALUE3), Param(0x8003, VALUE4)]

  const INIT: WireChunk := InitChunk(false, 0, 0x24521703, 0x00020000, 0x0100, 0x0800, 0x3092614b, PARAMS)

  /** The bytes of a parameter: type, length, value. */
  lemma ParamIs(p: Param, k: seq<byte>, l: seq<byte>)
    requires ParamFits(p) && U16(p.kind) == k && U16(|p.value| + 4) == l
    ensures EncodeParam(p) == k + l + p.value
  {
    hide U16;
  }

  lemma MoreParams(p: Param, ps: seq<Param>, pad: seq<byte>)
    requires ParamFits(p) && ParamsFit(ps) && ps != [] && Zeros(PadL(|p.value| + 4)) == pad
    ensures ParamsFit([p] + ps) && EncodeParams([p] + ps) == EncodeParam(p) + pad + EncodeParams(ps)
  {
    hide EncodeParam;
    assert ([p] + ps)[1..] == ps;
  }

  /** Every parameter but the last is padded to a multiple of four bytes, and the chunk is padded once more. */
  lemma InitLayout()
    ensures Encodable(INIT)
    ensures ChunkBytes(INIT) ==
            [0x01, 0x00] + [0x00, 0x56] +
            ([0x24, 0x52, 0x17, 0x03] + [0x00, 0x02, 0x00, 0x00] + [0x01, 0x00] + [0x08, 0x00] + [0x30, 0x92, 0x61, 0x4b] +
             PARAM_BYTES) +
            [0x00, 0x00]
  {
    InitParams();
    hide EncodeParams, EncodeParam;
    assert |PARAM_BYTES| == 66;
    assert U32(0x24521703) == [0x24, 0x52, 0x17, 0x03] && U32(0x00020000) == [0x00, 0x02, 0x00, 0x00];
    assert U32(0x3092614b) == [0x30, 0x92, 0x61, 0x4b];
    assert U16(0x0100) == [0x01, 0x00] && U16(0x0800) == [0x08, 0x00] && U16(86) == [0x00, 0x56];
    assert Zeros(2) == [0x00, 0x00];
    hide U16, U32;
    assert |Body(INIT)| == 82;
  }

  const PARAM_BYTES: seq<byte> :=
    ([0xc0, 0x00] + [0x00, 0x04] + VALUE0) + [] + (
    ([0x80, 0x08] + [0x00, 0x09] + VALUE1) + [0x00, 0x00, 0x00] + (
    ([0x80, 0x02] + [0x00, 0x24] + VALUE2) + [] + (
    ([0x80, 0x04] + [0x00, 0x06] + VALUE3) + [0x00, 0x00] + (
    [0x80, 0x03] + [0x00, 0x06] + VALUE4))))

  lemma InitParams()
    ensures ParamsFit(PARAMS) && EncodeParams(PARAMS) == PARAM_BYTES && |PARAM_BYTES| == 66
  {
    hide EncodeParam, EncodeParams;
    var p0 := Param(0xc000, VALUE0);
    ParamIs(p0, [0xc0, 0x00], [0x00, 0x04]);
    var p1 := Param(0x8008, VALUE1);
    ParamIs(p1, [0x80, 0x08], [0x00, 0x09]);
    var p2 := Param(0x8002, VALUE2);
    ParamIs(p2, [0x80, 0x02], [0x00, 0x24]);
    var p3 := Param(0x8004, VALUE3);
    ParamIs(p3, [0x80, 0x04], [0x00, 0x06]);
    var p4 := Param(0x8003, VALUE4);
    ParamIs(p4, [0x80, 0x03], [0x00, 0x06]);
    LastParam(p4);
    MoreParams(p3, [p4], [0x00, 0x00]);
    MoreParams(p2, [p3] + [p4], []);
    MoreParams(p1, [p2] + ([p3] + [p4]), [0x00, 0x00, 0x00]);
    MoreParams(p0, [p1] + ([p2] + ([p3] + [p4])), []);
    assert PARAMS == [p0] + ([p1] + ([p2] + ([p3] + [p4])));
  }

  lemma LastParam(p: Param)
    requires ParamFits(p)
    ensures ParamsFit([p]) && EncodeParams([p]) == EncodeParam(p)
  {
    hide EncodeParam;
  }
}
