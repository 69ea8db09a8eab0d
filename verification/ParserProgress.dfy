/**
 When the parsing loops stop advancing: `decodeParams` and `parsePacket`
 (packages/sctp/src/chunk.ts:510-520, 542-557) move on by the length field they read, so a
 length of 0 keeps them where they are. Here is exactly which bytes do that.
 */
module ParserProgress {
  import opened Wrappers
  import opened BigEndian
  import opened Parameters
  import opened Chunks
  import opened Packets

  // The headers a loop reads, by position

  function LengthAt(b: seq<byte>, p: nat): nat
    requires p + 4 <= |b|
  {
    Read16(b, p + 2).value
  }

  function NextHeader(b: seq<byte>, p: nat): nat
    requires p + 4 <= |b|
  {
    p + (LengthAt(b, p) + PadL(LengthAt(b, p)))
  }

  /** Positions of headers, each where the length of the one before puts it. */
  ghost predicate IsPath(b: seq<byte>, from: nat, ps: seq<nat>) {
    && ps != [] && ps[0] == from
    && (forall i :: 0 <= i < |ps| ==> ps[i] + 4 <= |b|)
    && (forall i :: 0 <= i < |ps| - 1 ==> ps[i + 1] == NextHeader(b, ps[i]))
  }

  lemma PathTail(b: seq<byte>, from: nat, ps: seq<nat>)
    requires IsPath(b, from, ps) && |ps| > 1
    ensures IsPath(b, NextHeader(b, from), ps[1..])
  {
    hide LengthAt;
  }

  lemma PathCons(b: seq<byte>, from: nat, ps: seq<nat>)
    requires from + 4 <= |b| && IsPath(b, NextHeader(b, from), ps)
    ensures IsPath(b, from, [from] + ps)
  {
    hide LengthAt;
    var qs := [from] + ps;
    forall i | 0 <= i < |qs| - 1
      ensures qs[i + 1] == NextHeader(b, qs[i])
    {
      if i > 0 {
        assert qs[i] == ps[i - 1] && qs[i + 1] == ps[(i - 1) + 1];
      }
    }
  }

  // Parameter lists

  /** Some header the loop reaches from `from` has length 0. */
  ghost predicate ReachesZero(b: seq<byte>, from: nat) {
    exists ps :: ZeroPath(b, from, ps)
  }

  ghost predicate ZeroPath(b: seq<byte>, from: nat, ps: seq<nat>) {
    IsPath(b, from, ps) && LengthAt(b, ps[|ps| - 1]) == 0
  }

  lemma ZeroIsFurther(b: seq<byte>, from: nat)
    requires from + 4 <= |b| && LengthAt(b, from) > 0
    ensures ReachesZero(b, from) <==> ReachesZero(b, NextHeader(b, from))
  {
    hide LengthAt, PadL;
    if ReachesZero(b, from) {
      var ps :| ZeroPath(b, from, ps);
      PathTail(b, from, ps);
      assert ps[1..][|ps[1..]| - 1] == ps[|ps| - 1];
      assert ZeroPath(b, NextHeader(b, from), ps[1..]);
    }
    if ReachesZero(b, NextHeader(b, from)) {
      var ps :| ZeroPath(b, NextHeader(b, from), ps);
      PathCons(b, from, ps);
      assert ([from] + ps)[|[from] + ps| - 1] == ps[|ps| - 1];
      assert ZeroPath(b, from, [from] + ps);
    }
  }

  lemma ZeroHere(b: seq<byte>, from: nat)
    requires from + 4 <= |b| && LengthAt(b, from) == 0
    ensures ReachesZero(b, from)
  {
    StartIsPath(b, from);
    assert ZeroPath(b, from, [from]);
  }

  lemma NoZeroPastTheEnd(b: seq<byte>, from: nat)
    requires from + 4 > |b|
    ensures !ReachesZero(b, from)
  {
    NoPath(b, from);
  }

  lemma StartIsPath(b: seq<byte>, from: nat)
    requires from + 4 <= |b|
    ensures IsPath(b, from, [from])
  {
  }

  /** `decodeParams` never throws, and does not end exactly on the buffers with a reachable length of 0. */
  lemma {:induction false} ParamsHangIff(b: seq<byte>, from: nat)
    ensures !DecodeParams(After(b, from)).Throws?
    ensures DecodeParams(After(b, from)).Stuck? <==> ReachesZero(b, from)
    decreases |b| - from
  {
    hide ReachesZero, Read16, Slice, PadL;
    if from + 4 > |b| {
      NoZeroPastTheEnd(b, from);
    } else {
      ShiftedReads(b, from);
      var length := LengthAt(b, from);
      if length == 0 {
        ZeroHere(b, from);
      } else {
        AfterAfter(b, from, length + PadL(length));
        ParamsHangIff(b, NextHeader(b, from));
        ZeroIsFurther(b, from);
      }
    }
  }

  lemma NoPath(b: seq<byte>, from: nat)
    requires from + 4 > |b|
    ensures forall ps :: !IsPath(b, from, ps)
  {
  }

  /** Four zero bytes are such a buffer. */
  lemma ZeroParamHangs()
    ensures DecodeParams([0, 0, 0, 0]) == Stuck
  {
  }

  // Chunks

  /** What the loop makes of the body of the chunk at `p`. */
  function BodyAt(b: seq<byte>, p: nat): Parse<WireChunk>
    requires p + 4 <= |b|
  {
    ParseBody(b[p], b[p + 1], Slice(b, p + 4, p + LengthAt(b, p)))
  }

  /** A parameter list inside the body hangs. */
  ghost predicate ListHangs(kind: nat, body: seq<byte>) {
    || (ParamsKind(kind) && ReachesZero(body, 0))
    || ((kind == 1 || kind == 2) && |body| >= 16 && ReachesZero(body[16..], 0))
  }

  lemma BodyHangsIff(kind: nat, flags: nat, body: seq<byte>)
    ensures ParseBody(kind, flags, body).Stuck? <==> ListHangs(kind, body)
  {
    hide DecodeParams, DecodePairs, DecodeWords, DecodeAllPairs, ReachesZero, Read16, Read32;
    ParamsHangIff(body, 0);
    assert After(body, 0) == body;
    if |body| >= 16 {
      ParamsHangIff(body[16..], 0);
      assert After(body[16..], 0) == body[16..];
    }
  }

  /** The loop gets no further than the chunk at `p`. */
  ghost predicate HangsAt(b: seq<byte>, p: nat)
    requires p + 4 <= |b|
  {
    || ListHangs(b[p], Slice(b, p + 4, p + LengthAt(b, p)))
    || (LengthAt(b, p) == 0 && (ParamsKind(b[p]) || PlainKind(b[p])))
  }

  /** The body of a chunk of length 0 is empty, which only bare and parameter chunks accept. */
  lemma HangsAtIs(b: seq<byte>, p: nat)
    requires p + 4 <= |b|
    ensures HangsAt(b, p) <==> BodyAt(b, p).Stuck? || (BodyAt(b, p).Parsed? && LengthAt(b, p) == 0)
  {
    hide ReachesZero, Read16;
    BodyHangsIff(b[p], b[p + 1], Slice(b, p + 4, p + LengthAt(b, p)));
    if LengthAt(b, p) == 0 {
      assert Slice(b, p + 4, p) == [];
      NoZeroPastTheEnd([], 0);
    }
  }

  /** Every chunk before the last of the path is parsed, and the loop hangs at the last. */
  ghost predicate HangPath(b: seq<byte>, from: nat, ps: seq<nat>) {
    && IsPath(b, from, ps)
    && (forall i :: 0 <= i < |ps| - 1 ==> BodyAt(b, ps[i]).Parsed?)
    && HangsAt(b, ps[|ps| - 1])
  }

  ghost predicate Hangs(b: seq<byte>, from: nat) {
    exists ps :: HangPath(b, from, ps)
  }

  lemma HangIsFurther(b: seq<byte>, from: nat)
    requires from + 4 <= |b| && BodyAt(b, from).Parsed? && !HangsAt(b, from)
    ensures Hangs(b, from) <==> Hangs(b, NextHeader(b, from))
  {
    hide LengthAt, HangsAt, BodyAt, PadL;
    if Hangs(b, from) {
      var ps :| HangPath(b, from, ps);
      PathTail(b, from, ps);
      forall i | 0 <= i < |ps[1..]| - 1
        ensures BodyAt(b, ps[1..][i]).Parsed?
      {
        assert ps[1..][i] == ps[i + 1];
      }
      assert HangPath(b, NextHeader(b, from), ps[1..]);
    }
    if Hangs(b, NextHeader(b, from)) {
      var ps :| HangPath(b, NextHeader(b, from), ps);
      PathCons(b, from, ps);
      var qs := [from] + ps;
      forall i | 0 <= i < |qs| - 1
        ensures BodyAt(b, qs[i]).Parsed?
      {
        assert i > 0 ==> qs[i] == ps[i - 1];
      }
      assert HangPath(b, from, qs);
    }
  }

  lemma HangsHere(b: seq<byte>, from: nat)
    requires from + 4 <= |b| && HangsAt(b, from)
    ensures Hangs(b, from)
  {
    hide HangsAt, BodyAt;
    StartIsPath(b, from);
    assert HangPath(b, from, [from]);
  }

  /** A chunk that throws ends the loop. */
  lemma ThrowEnds(b: seq<byte>, from: nat)
    requires from + 4 <= |b| && BodyAt(b, from).Throws? && !HangsAt(b, from)
    ensures !Hangs(b, from)
  {
    hide HangsAt, BodyAt, LengthAt;
  }

  lemma PastTheEnd(b: seq<byte>, from: nat)
    requires from + 4 > |b|
    ensures !Hangs(b, from)
  {
    NoPath(b, from);
  }

  /** The loop of `parsePacket` does not end exactly on the bytes with such a path. */
  lemma {:induction false} ChunksHangIff(b: seq<byte>, from: nat)
    ensures ParseChunks(After(b, from)).Stuck? <==> Hangs(b, from)
    decreases |b| - from
  {
    hide Read16, Slice, PadL, ParseBody, HangsAt, Hangs;
    if from + 4 > |b| {
      PastTheEnd(b, from);
    } else {
      ShiftedReads(b, from);
      var length := LengthAt(b, from);
      ShiftedSlice(b, from, 4, length);
      HangsAtIs(b, from);
      if HangsAt(b, from) {
        HangsHere(b, from);
      } else if BodyAt(b, from).Throws? {
        ThrowEnds(b, from);
      } else {
        AfterAfter(b, from, length + PadL(length));
        ChunksHangIff(b, NextHeader(b, from));
        HangIsFurther(b, from);
      }
    }
  }

  /** Whether a received packet keeps `parsePacket` from ending, decided by its bytes. */
  lemma PacketHangsIff(data: seq<byte>)
    ensures ParsePacket(data).Stuck? <==> |data| >= 12 && ChecksumOk(data) && Hangs(data[12..], 0)
  {
    hide ParseChunks, ChecksumOk, Hangs, Read16, Read32;
    if |data| >= 12 {
      ChunksHangIff(data[12..], 0);
      assert After(data[12..], 0) == data[12..];
    }
  }

  /** A packet with a correct checksum and one COOKIE ACK of length 0. */
  lemma ZeroLengthChunkHangs(header: seq<byte>) returns (data: seq<byte>)
    requires |header| == 8
    ensures |data| == 16 && data[..8] == header && ChecksumOk(data) && ParsePacket(data) == Stuck
  {
    hide Crc32c, LittleEndian;
    var chunk: seq<byte> := [11, 0, 0, 0];
    data := header + ChecksumField(header, chunk) + chunk;
    assert data[..8] == header && data[12..] == chunk && data[8..12] == ChecksumField(header, chunk);
    assert ParseChunks(chunk) == Stuck by {
      assert Read16(chunk, 2) == Some(0);
    }
  }
}
