/**
 Inputs on which `send` and `popMessages` (packages/sctp/src/sctp.ts:880-946, 1541-1602) do not
 deliver what has arrived. The exact conditions are in `StreamInvariant` and `SparseStream`.
 */
module StreamLimits {
  import opened SerialNumbers
  import opened Wrappers
  import opened Reassembly
  import opened Outbound

  /** A message of one chunk. */
  function Single(tsn: nat, sid: nat, ssn: nat, unordered: bool, data: seq<byte>): Chunk {
    Chunk(tsn, tsn % MOD32, sid, ssn, 0, true, true, unordered, data)
  }

  lemma OneChunk(c: Chunk)
    ensures Concat([c]) == c.data
  {
    assert Concat([c][1..]) == [];
  }

  /** Two whole messages in sequence whose TSNs are not adjacent: the second stays behind. */
  lemma WholeMessageStaysBehind(t: nat, u: nat, sid: nat, ssn: nat, a: seq<byte>, b: seq<byte>)
    requires ssn < MOD16 && t < MOD32 && u < MOD32 && u != PlusOne(t)
    ensures var first, second := Single(t, sid, ssn, false, a), Single(u, sid, Add16(ssn, 1), false, b);
            Pop(Stream([first, second], ssn), FRESH) == Popped(Stream([second], Add16(ssn, 1)), [Message(sid, 0, a)])
  {
    var first, second := Single(t, sid, ssn, false, a), Single(u, sid, Add16(ssn, 1), false, b);
    assert [first, second][0..1] == [first] && [first, second][1..] == [second] && [] + [second] == [second];
    OneChunk(first);
    var s1, k1 := Stream([second], Add16(ssn, 1)), Cursor(0, Some(0), PlusOne(t), true);
    assert PopTurn(Stream([first, second], ssn), FRESH) == Yield(s1, Message(sid, 0, a), k1);
    assert PopTurn(s1, k1).Stop?;
  }

  /** The chunk begins a message of a later sequence number, or is a fragment within one. */
  predicate Waits(c: Chunk, ssn: nat) {
    !c.unordered && (c.first ==> Gt16(c.ssn, ssn))
  }

  /** A list that starts with such a chunk yields nothing, whatever follows. */
  lemma WaitingListYieldsNothing(s: Stream)
    requires s.reassembly != [] && Waits(s.reassembly[0], s.ssn)
    ensures Pop(s, FRESH) == Popped(s, [])
  {
    assert PopTurn(s, FRESH).Stop?;
  }

  /** The chunk of a message that fits one, sent with sequence number `ssn`. */
  function OneFragment(s: Outbound.State, sid: nat, ssn: nat, ppid: nat, data: seq<byte>): Chunk {
    Chunk(s.nextSerial, s.localTsn % MOD32, sid, ssn, ppid, true, true, false, data)
  }

  lemma SendOfOneChunk(s: Outbound.State, sid: nat, ppid: nat, data: seq<byte>)
    requires |data| <= s.maxPayload && s.maxPayload > 0
    ensures var s', ssn := Send(s, sid, ppid, data, true), SequenceFor(s.streamSeq, sid, true);
            && s'.maxPayload == s.maxPayload && SequenceFor(s'.streamSeq, sid, true) == Add16(ssn, 1)
            && (data == [] ==> s'.outbound == s.outbound && s'.localTsn == s.localTsn % MOD32)
            && (data != [] ==> s'.localTsn == PlusOne(s.localTsn % MOD32) &&
                               s'.outbound == s.outbound + [Entry(OneFragment(s, sid, ssn, ppid, data), false, 0, false, 0)])
  {
    PlusOneIsVirtual(s.localTsn);
  }

  /**
   A message, an empty one and another, of one chunk each, sent one after the other: a receiver
   that holds both chunks when it delivers hands over both messages, but one that has delivered
   the first before the second arrives holds the second back.
   */
  lemma EmptyMessageBetween(s: Outbound.State, sid: nat, ppid: nat, a: seq<byte>, b: seq<byte>)
    requires s.maxPayload > 0 && 0 < |a| <= s.maxPayload && 0 < |b| <= s.maxPayload
    requires SequenceFor(s.streamSeq, sid, true) < MOD16
    ensures
      var ssn := SequenceFor(s.streamSeq, sid, true);
      var s2 := Send(Send(s, sid, ppid, a, true), sid, ppid, [], true);
      s2.maxPayload == s.maxPayload &&
      var s3 := Send(s2, sid, ppid, b, true);
      && |s3.outbound| == |s.outbound| + 2
      && var c1, c2 := s3.outbound[|s.outbound|].chunk, s3.outbound[|s.outbound| + 1].chunk;
         && Pop(Stream([c1, c2], ssn), FRESH).messages == [Message(sid, ppid, a), Message(sid, ppid, b)]
         && Pop(Stream([c2], Add16(ssn, 1)), FRESH) == Popped(Stream([c2], Add16(ssn, 1)), [])
  {
    hide Send;
    var ssn := SequenceFor(s.streamSeq, sid, true);
    SendOfOneChunk(s, sid, ppid, a);
    var s1 := Send(s, sid, ppid, a, true);
    SendOfOneChunk(s1, sid, ppid, []);
    var s2 := Send(s1, sid, ppid, [], true);
    SendOfOneChunk(s2, sid, ppid, b);
    var c1 := OneFragment(s, sid, ssn, ppid, a);
    var c2 := OneFragment(s2, sid, Add16(Add16(ssn, 1), 1), ppid, b);
    assert c2.tsn == PlusOne(c1.tsn);
    assert Gt16(c2.ssn, Add16(ssn, 1));
    TwoInARow(c1, c2, ssn);
    WaitingListYieldsNothing(Stream([c2], Add16(ssn, 1)));
  }

  lemma TwoInARow(c1: Chunk, c2: Chunk, ssn: nat)
    requires c1.first && c1.last && c2.first && c2.last && !c1.unordered && !c2.unordered
    requires c1.ssn == ssn < MOD16 && c2.tsn == PlusOne(c1.tsn)
    ensures Pop(Stream([c1, c2], ssn), FRESH).messages ==
            [Message(c1.streamId, c1.ppid, c1.data), Message(c2.streamId, c2.ppid, c2.data)]
  {
    OneChunk(c1);
    OneChunk(c2);
    assert [c1, c2][0..1] == [c1] && [c1, c2][1..] == [c2] && [] + [c2] == [c2];
    assert [c2][0..1] == [c2] && [c2][1..] == [];
    var t := PopTurn(Stream([c1, c2], ssn), FRESH);
    assert t.Yield? && t.stream.reassembly == [c2] && t.cursor == Cursor(0, Some(0), PlusOne(c1.tsn), true);
    var t2 := PopTurn(t.stream, t.cursor);
    assert t2.Yield? && t2.stream.reassembly == [];
    assert Pop(t2.stream, t2.cursor).messages == [];
    assert Pop(t.stream, t.cursor).messages == [t2.message] + [];
  }
}
