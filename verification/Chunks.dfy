/**
 The chunk classes of packages/sctp/src/chunk.ts and the packet around them (sections 3.2
 and 3.3 of RFC 9260).
 */
module Chunks {
  import opened Wrappers
  import opened BigEndian
  import opened Parameters

  /** `ParamsChunk` stands for HEARTBEAT, its ACK, ABORT, ERROR and RE-CONFIG; `PlainChunk` for chunks with a bare body. */
  datatype WireChunk =
    | DataChunk(flags: nat, tsn: nat, streamId: nat, streamSeqNum: nat, protocol: nat, userData: seq<byte>)
    | InitChunk(ack: bool, flags: nat, initiateTag: nat, advertisedRwnd: nat,
                outboundStreams: nat, inboundStreams: nat, initialTsn: nat, params: seq<Param>)
    | SackChunk(flags: nat, cumulativeTsn: nat, advertisedRwnd: nat, gaps: seq<(nat, nat)>, duplicates: seq<nat>)
    | ParamsChunk(kind: nat, flags: nat, params: seq<Param>)
    | ShutdownChunk(flags: nat, cumulativeTsn: nat)
    | PlainChunk(kind: nat, flags: nat, body: seq<byte>)
    | ForwardTsnChunk(flags: nat, cumulativeTsn: nat, streams: seq<(nat, nat)>)

  predicate ParamsKind(k: nat) {
    k == 4 || k == 5 || k == 6 || k == 9 || k == 130
  }

  predicate PlainKind(k: nat) {
    k == 8 || k == 10 || k == 11 || k == 14
  }

  function ChunkType(c: WireChunk): nat {
    match c
    case DataChunk(_, _, _, _, _, _) => 0
    case InitChunk(ack, _, _, _, _, _, _, _) => if ack then 2 else 1
    case SackChunk(_, _, _, _, _) => 3
    case ParamsChunk(k, _, _) => k
    case ShutdownChunk(_, _) => 7
    case PlainChunk(k, _, _) => k
    case ForwardTsnChunk(_, _, _) => 192
  }

  predicate PairsFit(ps: seq<(nat, nat)>) {
    forall i :: 0 <= i < |ps| ==> ps[i].0 < MAX16 && ps[i].1 < MAX16
  }

  predicate WordsFit(ns: seq<nat>) {
    forall i :: 0 <= i < |ns| ==> ns[i] < MAX32
  }

  /** The fields fit the widths they are written with. */
  predicate FieldsFit(c: WireChunk) {
    && c.flags < 256
    && match c
       case DataChunk(_, tsn, sid, ssn, ppid, data) => tsn < MAX32 && sid < MAX16 && ssn < MAX16 && ppid < MAX32
       case InitChunk(_, _, tag, rwnd, o, i, tsn, ps) =>
         tag < MAX32 && rwnd < MAX32 && o < MAX16 && i < MAX16 && tsn < MAX32 && ParamsFit(ps)
       case SackChunk(_, cum, rwnd, gaps, dups) =>
         cum < MAX32 && rwnd < MAX32 && |gaps| < MAX16 && |dups| < MAX16 && PairsFit(gaps) && WordsFit(dups)
       case ParamsChunk(k, _, ps) => ParamsKind(k) && ParamsFit(ps)
       case ShutdownChunk(_, cum) => cum < MAX32
       case PlainChunk(k, _, _) => PlainKind(k)
       case ForwardTsnChunk(_, cum, streams) => cum < MAX32 && PairsFit(streams)
  }

  function EncodePairs(ps: seq<(nat, nat)>): (b: seq<byte>)
    requires PairsFit(ps)
    ensures |b| == 4 * |ps|
  {
    if ps == [] then [] else U16(ps[0].0) + U16(ps[0].1) + EncodePairs(ps[1..])
  }

  function EncodeWords(ns: seq<nat>): (b: seq<byte>)
    requires WordsFit(ns)
    ensures |b| == 4 * |ns|
  {
    if ns == [] then [] else U32(ns[0]) + EncodeWords(ns[1..])
  }

  function Body(c: WireChunk): seq<byte>
    requires FieldsFit(c)
  {
    match c
    case DataChunk(_, tsn, sid, ssn, ppid, data) => U32(tsn) + U16(sid) + U16(ssn) + U32(ppid) + data
    case InitChunk(_, _, tag, rwnd, o, i, tsn, ps) =>
      U32(tag) + U32(rwnd) + U16(o) + U16(i) + U32(tsn) + EncodeParams(ps)
    case SackChunk(_, cum, rwnd, gaps, dups) =>
      U32(cum) + U32(rwnd) + U16(|gaps|) + U16(|dups|) + EncodePairs(gaps) + EncodeWords(dups)
    case ParamsChunk(_, _, ps) => EncodeParams(ps)
    case ShutdownChunk(_, cum) => U32(cum)
    case PlainChunk(_, _, body) => body
    case ForwardTsnChunk(_, cum, streams) => U32(cum) + EncodePairs(streams)
  }

  /** What `bytes` can write: every field fits, and so does the length. */
  predicate Encodable(c: WireChunk) {
    FieldsFit(c) && |Body(c)| + 4 < MAX16
  }

  function ChunkBytes(c: WireChunk): (b: seq<byte>)
    requires Encodable(c)
    ensures |b| == |Body(c)| + 4 + PadL(|Body(c)| + 4)
  {
    Header(ChunkType(c), c.flags, |Body(c)| + 4) + Body(c) + Zeros(PadL(|Body(c)| + 4))
  }

  function Header(kind: nat, flags: nat, length: nat): (b: seq<byte>)
    requires kind < 256 && flags < 256 && length < MAX16
    ensures |b| == 4
  {
    [kind, flags] + U16(length)
  }

  // Parsing

  /** The loop over `nbGaps` blocks; reading past the end throws. */
  function DecodePairs(b: seq<byte>, n: nat): Option<seq<(nat, nat)>>
    decreases n
  {
    if n == 0 then Some([])
    else if |b| < 4 then None
    else
      match DecodePairs(b[4..], n - 1)
      case None => None
      case Some(ps) => Some([(Read16(b, 0).value, Read16(b, 2).value)] + ps)
  }

  function DecodeWords(b: seq<byte>, n: nat): Option<seq<nat>>
    decreases n
  {
    if n == 0 then Some([])
    else if |b| < 4 then None
    else
      match DecodeWords(b[4..], n - 1)
      case None => None
      case Some(ns) => Some([Read32(b, 0).value] + ns)
  }

  /** The loop that reads pairs to the end of the body. */
  function DecodeAllPairs(b: seq<byte>): Option<seq<(nat, nat)>>
    decreases |b|
  {
    if b == [] then Some([])
    else if |b| < 4 then None
    else
      match DecodeAllPairs(b[4..])
      case None => None
      case Some(ps) => Some([(Read16(b, 0).value, Read16(b, 2).value)] + ps)
  }

  function ParseData(flags: nat, b: seq<byte>): Parse<WireChunk> {
    if |b| < 12 then Throws
    else Parsed(DataChunk(flags, Read32(b, 0).value, Read16(b, 4).value, Read16(b, 6).value, Read32(b, 8).value, b[12..]))
  }

  function ParseInit(ack: bool, flags: nat, b: seq<byte>): Parse<WireChunk> {
    if |b| < 16 then Throws
    else
      match DecodeParams(b[16..])
      case Parsed(ps) =>
        Parsed(InitChunk(ack, flags, Read32(b, 0).value, Read32(b, 4).value, Read16(b, 8).value, Read16(b, 10).value,
                         Read32(b, 12).value, ps))
      case Throws => Throws
      case Stuck => Stuck
  }

  function ParseSack(flags: nat, b: seq<byte>): Parse<WireChunk> {
    if |b| < 12 then Throws
    else
      var nbGaps, nbDuplicates := Read16(b, 8).value, Read16(b, 10).value;
      var gaps := DecodePairs(b[12..], nbGaps);
      if gaps.None? then Throws
      else
        var dups := DecodeWords(After(b, 12 + 4 * nbGaps), nbDuplicates);
        if dups.None? then Throws
        else Parsed(SackChunk(flags, Read32(b, 0).value, Read32(b, 4).value, gaps.value, dups.value))
  }

  function ParseParams(kind: nat, flags: nat, b: seq<byte>): Parse<WireChunk> {
    match DecodeParams(b)
    case Parsed(ps) => Parsed(ParamsChunk(kind, flags, ps))
    case Throws => Throws
    case Stuck => Stuck
  }

  function ParseForward(flags: nat, b: seq<byte>): Parse<WireChunk> {
    if |b| < 4 then Throws
    else
      match DecodeAllPairs(b[4..])
      case None => Throws
      case Some(streams) => Parsed(ForwardTsnChunk(flags, Read32(b, 0).value, streams))
  }

  function ParseShutdown(flags: nat, b: seq<byte>): Parse<WireChunk> {
    if |b| < 4 then Throws else Parsed(ShutdownChunk(flags, Read32(b, 0).value))
  }

  /** The constructor of the class registered for the chunk type; a type without one throws. */
  function ParseBody(kind: nat, flags: nat, b: seq<byte>): Parse<WireChunk> {
    if kind == 0 then ParseData(flags, b)
    else if kind == 1 || kind == 2 then ParseInit(kind == 2, flags, b)
    else if kind == 3 then ParseSack(flags, b)
    else if ParamsKind(kind) then ParseParams(kind, flags, b)
    else if kind == 7 then ParseShutdown(flags, b)
    else if PlainKind(kind) then Parsed(PlainChunk(kind, flags, b))
    else if kind == 192 then ParseForward(flags, b)
    else Throws
  }

  /** The loop of `parsePacket` over the bytes that are left. */
  function ParseChunks(b: seq<byte>): Parse<seq<WireChunk>>
    decreases |b|
  {
    if |b| < 4 then Parsed([])
    else
      var length := Read16(b, 2).value;
      match ParseBody(b[0], b[1], Slice(b, 4, length))
      case Throws => Throws
      case Stuck => Stuck
      case Parsed(c) =>
        if length == 0 then Stuck
        else
          match ParseChunks(After(b, length + PadL(length)))
          case Parsed(cs) => Parsed([c] + cs)
          case Throws => Throws
          case Stuck => Stuck
  }

  // Round trips

  lemma {:induction false} PairsRoundTrip(ps: seq<(nat, nat)>, rest: seq<byte>)
    requires PairsFit(ps)
    ensures DecodePairs(EncodePairs(ps) + rest, |ps|) == Some(ps)
    ensures DecodeAllPairs(EncodePairs(ps)) == Some(ps)
    decreases |ps|
  {
    hide U16, Read16;
    if ps != [] {
      var e, tail := EncodePairs(ps), EncodePairs(ps[1..]);
      PairAt(ps[0], tail + rest);
      PairAt(ps[0], tail);
      var h := U16(ps[0].0) + U16(ps[0].1);
      assert e + rest == h + (tail + rest);
      assert (e + rest)[4..] == tail + rest && e[4..] == tail;
      PairsRoundTrip(ps[1..], rest);
      assert ps == [ps[0]] + ps[1..];
    }
  }

  lemma PairAt(p: (nat, nat), rest: seq<byte>)
    requires p.0 < MAX16 && p.1 < MAX16
    ensures var b := U16(p.0) + U16(p.1) + rest;
            Read16(b, 0) == Some(p.0) && Read16(b, 2) == Some(p.1)
  {
    hide U16, Read16;
    var b := U16(p.0) + U16(p.1) + rest;
    assert b[0..2] == U16(p.0) && b[2..4] == U16(p.1);
    Reads16(b, 0, p.0);
    Reads16(b, 2, p.1);
  }

  lemma {:induction false} WordsRoundTrip(ns: seq<nat>)
    requires WordsFit(ns)
    ensures DecodeWords(EncodeWords(ns), |ns|) == Some(ns)
    decreases |ns|
  {
    hide U32, Read32;
    if ns != [] {
      var e, tail := EncodeWords(ns), EncodeWords(ns[1..]);
      assert e[0..4] == U32(ns[0]) && e[4..] == tail;
      Reads32(e, 0, ns[0]);
      WordsRoundTrip(ns[1..]);
      assert ns == [ns[0]] + ns[1..];
    }
  }

  lemma DataRoundTrip(c: WireChunk)
    requires c.DataChunk? && FieldsFit(c)
    ensures ParseData(c.flags, Body(c)) == Parsed(c)
  {
    hide U16, U32, Read16, Read32;
    var b := Body(c);
    assert b[0..4] == U32(c.tsn) && b[4..6] == U16(c.streamId) && b[6..8] == U16(c.streamSeqNum);
    assert b[8..12] == U32(c.protocol) && b[12..] == c.userData;
    Reads32(b, 0, c.tsn);
    Reads16(b, 4, c.streamId);
    Reads16(b, 6, c.streamSeqNum);
    Reads32(b, 8, c.protocol);
  }

  lemma InitRoundTrip(c: WireChunk)
    requires c.InitChunk? && FieldsFit(c)
    ensures ParseInit(c.ack, c.flags, Body(c)) == Parsed(c)
  {
    hide U16, U32, Read16, Read32, EncodeParams, DecodeParams;
    var b := Body(c);
    assert b[0..4] == U32(c.initiateTag) && b[4..8] == U32(c.advertisedRwnd);
    assert b[8..10] == U16(c.outboundStreams) && b[10..12] == U16(c.inboundStreams);
    assert b[12..16] == U32(c.initialTsn) && b[16..] == EncodeParams(c.params);
    Reads32(b, 0, c.initiateTag);
    Reads32(b, 4, c.advertisedRwnd);
    Reads16(b, 8, c.outboundStreams);
    Reads16(b, 10, c.inboundStreams);
    Reads32(b, 12, c.initialTsn);
    ParamsRoundTrip(c.params);
  }

  lemma SackRoundTrip(c: WireChunk)
    requires c.SackChunk? && FieldsFit(c)
    ensures ParseSack(c.flags, Body(c)) == Parsed(c)
  {
    hide U16, U32, Read16, Read32, EncodePairs, EncodeWords, DecodePairs, DecodeWords;
    var b, ps, ns := Body(c), EncodePairs(c.gaps), EncodeWords(c.duplicates);
    assert b[0..4] == U32(c.cumulativeTsn) && b[4..8] == U32(c.advertisedRwnd);
    assert b[8..10] == U16(|c.gaps|) && b[10..12] == U16(|c.duplicates|);
    assert b[12..] == ps + ns && After(b, 12 + 4 * |c.gaps|) == ns;
    Reads32(b, 0, c.cumulativeTsn);
    Reads32(b, 4, c.advertisedRwnd);
    Reads16(b, 8, |c.gaps|);
    Reads16(b, 10, |c.duplicates|);
    PairsRoundTrip(c.gaps, ns);
    WordsRoundTrip(c.duplicates);
  }

  lemma ForwardRoundTrip(c: WireChunk)
    requires c.ForwardTsnChunk? && FieldsFit(c)
    ensures ParseForward(c.flags, Body(c)) == Parsed(c)
  {
    hide U32, Read32, EncodePairs, DecodeAllPairs;
    var b := Body(c);
    assert b[0..4] == U32(c.cumulativeTsn) && b[4..] == EncodePairs(c.streams);
    Reads32(b, 0, c.cumulativeTsn);
    PairsRoundTrip(c.streams, []);
  }

  lemma ShutdownRoundTrip(c: WireChunk)
    requires c.ShutdownChunk? && FieldsFit(c)
    ensures ParseShutdown(c.flags, Body(c)) == Parsed(c)
  {
    hide U32, Read32;
    var b := Body(c);
    assert b[0..4] == U32(c.cumulativeTsn);
    Reads32(b, 0, c.cumulativeTsn);
  }

  /** Every chunk body is read back as the chunk that wrote it. */
  lemma BodyRoundTrip(c: WireChunk)
    requires FieldsFit(c)
    ensures ParseBody(ChunkType(c), c.flags, Body(c)) == Parsed(c)
  {
    hide Body, ParseData, ParseInit, ParseSack, ParseForward, ParseShutdown, EncodeParams, DecodeParams;
    match c
    case DataChunk(_, _, _, _, _, _) => DataRoundTrip(c);
    case InitChunk(_, _, _, _, _, _, _, _) => InitRoundTrip(c);
    case SackChunk(_, _, _, _, _) => SackRoundTrip(c);
    case ParamsChunk(_, _, ps) => ParamsRoundTrip(ps); BodyOfParams(c);
    case ShutdownChunk(_, _) => ShutdownRoundTrip(c);
    case PlainChunk(_, _, _) => BodyOfPlain(c);
    case ForwardTsnChunk(_, _, _) => ForwardRoundTrip(c);
  }

  lemma BodyOfParams(c: WireChunk)
    requires c.ParamsChunk? && FieldsFit(c)
    ensures Body(c) == EncodeParams(c.params)
  {
  }

  lemma BodyOfPlain(c: WireChunk)
    requires c.PlainChunk? && FieldsFit(c)
    ensures Body(c) == c.body
  {
  }

  predicate AllEncodable(cs: seq<WireChunk>) {
    forall i :: 0 <= i < |cs| ==> Encodable(cs[i])
  }

  function ChunksBytes(cs: seq<WireChunk>): seq<byte>
    requires AllEncodable(cs)
  {
    if cs == [] then [] else ChunkBytes(cs[0]) + ChunksBytes(cs[1..])
  }

  lemma ChunkHeader(c: WireChunk, rest: seq<byte>)
    requires Encodable(c)
    ensures var b, length := ChunkBytes(c) + rest, |Body(c)| + 4;
            && |b| >= 4 && b[0] == ChunkType(c) && b[1] == c.flags && Read16(b, 2) == Some(length)
            && Slice(b, 4, length) == Body(c) && After(b, length + PadL(length)) == rest
  {
    hide U16, Read16, Body, ChunkType;
    var b, length := ChunkBytes(c) + rest, |Body(c)| + 4;
    assert b[2..4] == U16(length);
    Reads16(b, 2, length);
    assert b[4..length] == Body(c);
  }

  lemma FirstChunkParses(c: WireChunk, rest: seq<byte>)
    requires Encodable(c)
    ensures ParseChunks(ChunkBytes(c) + rest) == Prepended([c], ParseChunks(rest))
  {
    hide ChunkBytes, Body, ParseBody, Read16, Slice, After;
    ChunkHeader(c, rest);
    BodyRoundTrip(c);
  }

  /** Bundled chunks are read back one by one, whatever padding lies between them. */
  lemma {:induction false} ChunksRoundTrip(cs: seq<WireChunk>)
    requires AllEncodable(cs)
    ensures ParseChunks(ChunksBytes(cs)) == Parsed(cs)
    decreases |cs|
  {
    hide ChunkBytes, ParseChunks, Encodable;
    if cs == [] {
      NoChunks();
    } else {
      FirstChunkParses(cs[0], ChunksBytes(cs[1..]));
      ChunksRoundTrip(cs[1..]);
      assert cs == [cs[0]] + cs[1..];
    }
  }

  lemma NoChunks()
    ensures ParseChunks([]) == Parsed([])
  {
  }

  /** The loop of `parsePacket`, from the end of the common header. */
  method ParseChunkList(data: seq<byte>, start: nat) returns (r: Parse<seq<WireChunk>>)
    requires start <= |data|
    ensures r == ParseChunks(data[start..])
  {
    hide ParseBody, Read16, Slice, PadL;
    var chunks: seq<WireChunk> := [];
    var pos := start;
    assert After(data, start) == data[start..];
    PrependLaws([], ParseChunks(data[start..]));
    while pos + 4 <= |data|
      invariant start <= pos
      invariant ParseChunks(data[start..]) == Prepended(chunks, ParseChunks(After(data, pos)))
      decreases |data| - pos
    {
      ghost var b := After(data, pos);
      ShiftedReads(data, pos);
      var length := Read16(data, pos + 2).value;
      ShiftedSlice(data, pos, 4, length);
      match ParseBody(data[pos], data[pos + 1], Slice(data, pos + 4, pos + length))
      case Throws =>
        return Throws;
      case Stuck =>
        return Stuck;
      case Parsed(c) =>
        if length == 0 {
          return Stuck;
        }
        AfterAfter(data, pos, length + PadL(length));
        ghost var rest := ParseChunks(After(b, length + PadL(length)));
        assert ParseChunks(b) == Prepended([c], rest);
        PrependTwice(chunks, c, rest);
        chunks := chunks + [c];
        pos := pos + (length + PadL(length));
    }
    assert |After(data, pos)| < 4;
    PrependLaws(chunks, Parsed([]));
    r := Parsed(chunks);
  }

  /** The loop of the FORWARD-TSN constructor. */
  method ReadStreams(body: seq<byte>) returns (r: Option<seq<(nat, nat)>>)
    requires |body| >= 4
    ensures r == DecodeAllPairs(body[4..])
  {
    hide Read16;
    var streams: seq<(nat, nat)> := [];
    var pos := 4;
    PushedLaws([], DecodeAllPairs(body[4..]));
    while pos < |body|
      invariant 4 <= pos <= |body|
      invariant DecodeAllPairs(body[4..]) == Pushed(streams, DecodeAllPairs(body[pos..]))
    {
      if pos + 4 > |body| {
        return None;
      }
      ShiftedReads(body, pos);
      assert After(body, pos) == body[pos..] && body[pos..][4..] == body[pos + 4..];
      var pair := (Read16(body, pos).value, Read16(body, pos + 2).value);
      assert DecodeAllPairs(body[pos..]) == Pushed([pair], DecodeAllPairs(body[pos + 4..]));
      PushedTwice(streams, pair, DecodeAllPairs(body[pos + 4..]));
      streams := streams + [pair];
      pos := pos + 4;
    }
    PushedLaws(streams, Some([]));
    r := Some(streams);
  }

  function Pushed<T>(xs: seq<T>, r: Option<seq<T>>): Option<seq<T>> {
    if r.Some? then Some(xs + r.value) else None
  }

  lemma PushedLaws<T>(xs: seq<T>, r: Option<seq<T>>)
    ensures Pushed([], r) == r && Pushed(xs, Some([])) == Some(xs)
  {
    assert r.Some? ==> [] + r.value == r.value;
    assert xs + [] == xs;
  }

  lemma PushedTwice<T>(xs: seq<T>, x: T, r: Option<seq<T>>)
    ensures Pushed(xs, Pushed([x], r)) == Pushed(xs + [x], r)
  {
    assert r.Some? ==> xs + ([x] + r.value) == xs + [x] + r.value;
  }
}
