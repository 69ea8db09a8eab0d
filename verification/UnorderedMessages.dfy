/**
 Messages sent with `ordered` false (packages/sctp/src/sctp.ts:880-932): from `send` through the
 reassembly list to `popMessages` (1541-1602).
 */
module UnorderedMessages {
  import opened SerialNumbers
  import opened Reassembly
  import opened OrderedStream
  import opened Bursts
  import Outbound
  import OutboundLaws

  /** The chunks of the entries that `send` appends. */
  function SentChunks(s: Outbound.State, sid: nat, ppid: nat, data: seq<byte>, ordered: bool): seq<Chunk>
    requires s.maxPayload > 0
  {
    var q := Outbound.Send(s, sid, ppid, data, ordered).outbound[|s.outbound|..];
    seq(|q|, i requires 0 <= i < |q| => q[i].chunk)
  }

  /** Chunk `j` of a message sent unordered. */
  ghost predicate UnorderedFragment(c: Chunk, tsn: nat, sid: nat, ppid: nat, pieces: seq<seq<byte>>, j: nat) {
    && j < |pieces| && c.tsn == (tsn + j) % MOD32 && c.streamId == sid && c.ppid == ppid && c.unordered
    && (c.first <==> j == 0) && (c.last <==> j == |pieces| - 1) && c.data == pieces[j]
  }

  lemma SentAre(s: Outbound.State, sid: nat, ppid: nat, data: seq<byte>)
    requires s.maxPayload > 0
    ensures var cs, pieces := SentChunks(s, sid, ppid, data, false), Outbound.Split(data, s.maxPayload);
            && |cs| == |pieces|
            && forall j: nat :: j < |cs| ==> UnorderedFragment(cs[j], s.localTsn, sid, ppid, pieces, j)
  {
    hide Outbound.Split;
    var pieces := Outbound.Split(data, s.maxPayload);
    var added := Outbound.Send(s, sid, ppid, data, false).outbound[|s.outbound|..];
    assert |added| == |pieces|;
    forall j: nat | j < |pieces|
      ensures UnorderedFragment(SentChunks(s, sid, ppid, data, false)[j], s.localTsn, sid, ppid, pieces, j)
    {
      assert added[j] == Outbound.NewEntry(s.nextSerial, s.localTsn, sid, 0, ppid, false, pieces, j);
    }
  }

  lemma {:induction false} RunOfConsecutive(list: seq<Chunk>, tsn: nat, p: nat)
    requires p <= |list| && forall i :: 0 <= i < |list| ==> list[i].tsn == (tsn + i) % MOD32
    ensures RunLength(list, p, (tsn + p) % MOD32) == |list| - p
    decreases |list| - p
  {
    if p < |list| {
      PlusOneIsVirtual(tsn + p);
      RunOfConsecutive(list, tsn, p + 1);
    }
  }

  /**
   A message sent unordered takes no sequence number; when its chunks are what a stream holds, one call delivers
   exactly this message, byte for byte, whatever number the stream expects, which stays.
   */
  lemma UnorderedMessageArrives(s: Outbound.State, sid: nat, ppid: nat, data: seq<byte>, ssn: nat)
    requires s.maxPayload > 0 && data != []
    ensures Outbound.Send(s, sid, ppid, data, false).streamSeq == s.streamSeq
    ensures Pop(Stream(SentChunks(s, sid, ppid, data, false), ssn), FRESH) ==
            Popped(Stream([], ssn), [Message(sid, ppid, data)])
  {
    hide Pop, Outbound.Split, Deliver, SentChunks, Flatten, Concat, RunLength, Numbered;
    var cs, pieces := SentChunks(s, sid, ppid, data, false), Outbound.Split(data, s.maxPayload);
    SentAre(s, sid, ppid, data);
    OutboundLaws.SplitIsExact(data, s.maxPayload);
    assert pieces != [] by { EmptyFlattens(pieces); }
    assert UnorderedFragment(cs[0], s.localTsn, sid, ppid, pieces, 0);
    forall j | 0 <= j < |cs|
      ensures cs[j].tsn == (s.localTsn + j) % MOD32 && cs[j].data == pieces[j] && (cs[j].last <==> j == |cs| - 1)
    {
      assert UnorderedFragment(cs[j], s.localTsn, sid, ppid, pieces, j);
    }
    RunOfConsecutive(cs, s.localTsn, 0);
    ConcatIsFlatten(cs, pieces);
    BehindUnorderedIff(Stream(cs, ssn));
    CutOfOne(cs);
    assert UnorderedFragment(cs[|cs| - 1], s.localTsn, sid, ppid, pieces, |cs| - 1);
    assert cs[..|cs|] == cs && cs[|cs|..] == [];
  }

  lemma EmptyFlattens(pieces: seq<seq<byte>>)
    requires Flatten(pieces) != []
    ensures pieces != []
  {
  }

  /** Chunks of which only the last ends a message are one message. */
  lemma CutOfOne(cs: seq<Chunk>)
    requires cs != [] && forall j :: 0 <= j < |cs| ==> (cs[j].last <==> j == |cs| - 1)
    ensures var c := cs[|cs| - 1];
            Used(cs) == |cs| && Cut(cs) == [Message(c.streamId, c.ppid, Concat(cs))]
  {
    FirstIsOnly(cs);
    NothingCut();
    hide FirstLast, Concat;
    assert cs[..|cs|] == cs && cs[|cs|..] == [];
  }

  lemma FirstIsOnly(cs: seq<Chunk>)
    requires cs != [] && forall j :: 0 <= j < |cs| ==> (cs[j].last <==> j == |cs| - 1)
    ensures FirstLast(cs) == |cs| - 1
  {
    hide FirstLast;
    assert cs[|cs| - 1].last;
  }

  lemma NothingCut()
    ensures Cut([]) == [] && Used([]) == 0
  {
  }
}
