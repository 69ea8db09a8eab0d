/**
 The outbound half as the object it is: `send`, `transmitOnce`, `receiveSackChunk` and
 `timer3Expired` of packages/sctp/src/sctp.ts run their loops over the fields in place, and
 compute what the functions of `Outbound` say.
 */
module OutboundObject {
  import opened SerialNumbers
  import opened Wrappers
  import opened Reassembly
  import opened Sacks
  import opened Outbound
  import opened OutboundLaws

  class SctpOutbound {
    const maxPayloadSize: nat
    /** History counter that labels chunks; no decision reads it. */
    var nextSerial: nat
    var localTsn: nat
    var outboundStreamSeq: map<nat, nat>
    var outboundQueue: seq<Entry>
    var sentQueue: seq<Entry>
    var lastSackedTsn: nat
    var advancedPeerAckTsn: nat
    var flightSize: nat
    var cwnd: nat
    var ssthresh: nat
    var partialBytesAcked: nat
    var peerAdvertisedRwnd: nat
    var fastRecoveryExit: Option<nat>
    var fastRecoveryTransmit: bool
    var timer3Armed: bool

    ghost function State(): Outbound.State
      reads this
    {
      Outbound.State.State(maxPayloadSize, nextSerial, localTsn, outboundStreamSeq, outboundQueue, sentQueue,
                  lastSackedTsn, advancedPeerAckTsn, flightSize, cwnd, ssthresh, partialBytesAcked,
                  peerAdvertisedRwnd, fastRecoveryExit, fastRecoveryTransmit, timer3Armed)
    }

    constructor (maxPayload: nat, initialTsn: nat, peerWindow: nat)
      requires maxPayload > 0 && 1 <= initialTsn < MOD32
      ensures maxPayloadSize == maxPayload && Guarded(State())
      ensures sentQueue == [] && outboundQueue == [] && flightSize == 0 && cwnd == 3 * maxPayload
      ensures nextSerial == localTsn == initialTsn && lastSackedTsn == advancedPeerAckTsn == initialTsn - 1
      ensures ssthresh == peerAdvertisedRwnd == peerWindow && partialBytesAcked == 0 && fastRecoveryExit.None?
    {
      maxPayloadSize := maxPayload;
      nextSerial, localTsn := initialTsn, initialTsn;
      outboundStreamSeq, outboundQueue, sentQueue := map[], [], [];
      lastSackedTsn, advancedPeerAckTsn := initialTsn - 1, initialTsn - 1;
      flightSize, cwnd, ssthresh, partialBytesAcked := 0, 3 * maxPayload, peerWindow, 0;
      peerAdvertisedRwnd := peerWindow;
      fastRecoveryExit, fastRecoveryTransmit, timer3Armed := None, false, false;
    }

    /** `send` up to the transmission it triggers. */
    method SendMessage(streamId: nat, ppId: nat, userData: seq<byte>, ordered: bool)
      requires maxPayloadSize > 0 && localTsn < MOD32
      modifies this`nextSerial, this`localTsn, this`outboundQueue, this`outboundStreamSeq
      ensures State() == Send(old(State()), streamId, ppId, userData, ordered) && localTsn < MOD32
    {
      hide NewEntries;
      var streamSeqNum := if ordered && streamId in outboundStreamSeq then outboundStreamSeq[streamId] else 0;
      var chunks := Fragment(streamId, streamSeqNum, ppId, userData, ordered);
      outboundQueue := outboundQueue + chunks;
      if ordered {
        outboundStreamSeq := outboundStreamSeq[streamId := Add16(streamSeqNum, 1)];
      }
    }

    /** The loop of `send`: one chunk for every `maxPayloadSize` bytes. */
    method Fragment(streamId: nat, streamSeqNum: nat, ppId: nat, userData: seq<byte>, ordered: bool)
      returns (chunks: seq<Entry>)
      requires maxPayloadSize > 0 && localTsn < MOD32
      modifies this`nextSerial, this`localTsn
      ensures
        var pieces := Split(userData, maxPayloadSize);
        && localTsn == (old(localTsn) + |pieces|) % MOD32 && nextSerial == old(nextSerial) + |pieces|
        && chunks == NewEntries(old(nextSerial), old(localTsn), streamId, streamSeqNum, ppId, ordered, pieces, |pieces|)
    {
      hide Split, NewEntries;
      var fragments := (|userData| + maxPayloadSize - 1) / maxPayloadSize;
      SplitIsExact(userData, maxPayloadSize);
      ghost var pieces := Split(userData, maxPayloadSize);
      ghost var serial, tsn := nextSerial, localTsn;
      var pos := 0;
      var fragment := 0;
      chunks := [];
      NoNewEntries(serial, tsn, streamId, streamSeqNum, ppId, ordered, pieces);
      while fragment < fragments
        invariant 0 <= fragment <= fragments == |pieces| && pos == fragment * maxPayloadSize
        invariant localTsn == (tsn + fragment) % MOD32 && nextSerial == serial + fragment
        invariant chunks == NewEntries(serial, tsn, streamId, streamSeqNum, ppId, ordered, pieces, fragment)
      {
        SplitAt(userData, maxPayloadSize, fragment);
        NextPosition(fragment, maxPayloadSize);
        var end := pos + maxPayloadSize;
        var data := userData[pos..if end <= |userData| then end else |userData|];
        chunks := chunks + [Entry(
          Chunk(nextSerial, localTsn, streamId, streamSeqNum, ppId, fragment == 0, fragment == fragments - 1, !ordered, data),
          false, 0, false, 0)];
        OneMoreEntry(serial, tsn, streamId, streamSeqNum, ppId, ordered, pieces, fragment);
        PlusOneIsVirtual(tsn + fragment);
        pos := end;
        localTsn := PlusOne(localTsn);
        nextSerial := nextSerial + 1;
        fragment := fragment + 1;
      }
    }

    /** The retransmission loop of `transmitOnce`. */
    method RetransmitMarked(window: nat) returns (packets: seq<Chunk>)
      modifies this`sentQueue, this`flightSize, this`fastRecoveryTransmit, this`timer3Armed
      ensures Transmission(State(), packets) == Retransmit(old(State()), window, 0, [])
    {
      packets := [];
      var i := 0;
      while i < |sentQueue|
        invariant i <= |sentQueue|
        invariant Retransmit(old(State()), window, 0, []) == Retransmit(State(), window, i, packets)
      {
        var e := sentQueue[i];
        if e.retransmit {
          if fastRecoveryTransmit {
            fastRecoveryTransmit := false;
          } else if flightSize >= window {
            return;
          }
          flightSize := flightSize + BookSize(e);
          sentQueue := sentQueue[i := e.(misses := 0, retransmit := false, sentCount := e.sentCount + 1)];
          packets := packets + [e.chunk];
          if i == 0 {
            timer3Armed := true;
          }
        }
        i := i + 1;
      }
    }

    /** The loop of `transmitOnce` that sends new DATA. */
    method DrainOutbound(window: nat, sofar: seq<Chunk>) returns (packets: seq<Chunk>)
      modifies this`sentQueue, this`outboundQueue, this`flightSize, this`timer3Armed
      ensures Transmission(State(), packets) == Drain(old(State()), window, sofar)
    {
      packets := sofar;
      while |outboundQueue| > 0 && flightSize < window && Available(peerAdvertisedRwnd, flightSize) > 0
        invariant Drain(old(State()), window, sofar) == Drain(State(), window, packets)
        decreases |outboundQueue|
      {
        if BookSize(outboundQueue[0]) > Available(peerAdvertisedRwnd, flightSize) && flightSize > 0 {
          break;
        }
        ghost var s := State();
        var chunk := SendNext();
        packets := packets + [chunk];
        assert MayDrain(s, window);
        hide Drained, MayDrain;
      }
    }

    /** The first chunk of the outbound queue goes out. */
    method SendNext() returns (chunk: Chunk)
      requires outboundQueue != []
      modifies this`sentQueue, this`outboundQueue, this`flightSize, this`timer3Armed
      ensures State() == Drained(old(State())) && chunk == old(outboundQueue)[0].chunk
    {
      var e := outboundQueue[0];
      outboundQueue := outboundQueue[1..];
      sentQueue := sentQueue + [e.(sentCount := e.sentCount + 1)];
      flightSize := flightSize + BookSize(e);
      chunk := e.chunk;
      timer3Armed := true;
    }

    method TransmitNow() returns (packets: seq<Chunk>)
      modifies this`sentQueue, this`outboundQueue, this`flightSize, this`fastRecoveryTransmit, this`timer3Armed
      ensures Transmission(State(), packets) == TransmitOnce(old(State()))
    {
      hide Retransmit, Drain;
      var burstSize := (if fastRecoveryExit.Some? then 2 else 4) * maxPayloadSize;
      var window := Min(flightSize + burstSize, cwnd);
      packets := RetransmitMarked(window);
      packets := DrainOutbound(window, packets);
    }

    /** The loop that drops cumulatively acknowledged chunks. */
    method AckCumulative(cum: nat) returns (done: nat, bytes: nat)
      modifies this`sentQueue, this`flightSize
      ensures (Tally(sentQueue, flightSize, bytes), done) == CumAck(Tally(old(sentQueue), old(flightSize), 0), cum, 0)
    {
      done, bytes := 0, 0;
      while |sentQueue| > 0 && Gte32(cum, sentQueue[0].chunk.tsn)
        invariant CumAck(Tally(old(sentQueue), old(flightSize), 0), cum, 0) ==
                  CumAck(Tally(sentQueue, flightSize, bytes), cum, done)
        decreases |sentQueue|
      {
        var e := sentQueue[0];
        sentQueue := sentQueue[1..];
        done := done + 1;
        if !e.acked {
          bytes := bytes + BookSize(e);
          flightSize := Floor(flightSize - BookSize(e));
        }
      }
    }

    /** The loop that marks gap-acknowledged chunks. */
    method AckGaps(seen: set<int>, highest: Option<int>, cum: nat, sofar: nat) returns (newly: nat, bytes: nat)
      modifies this`sentQueue, this`flightSize
      ensures (Tally(sentQueue, flightSize, bytes), newly) ==
              GapAck(Tally(old(sentQueue), old(flightSize), sofar), seen, highest, 0, cum)
    {
      newly, bytes := cum, sofar;
      var i := 0;
      while i < |sentQueue|
        invariant i <= |sentQueue|
        invariant GapAck(Tally(old(sentQueue), old(flightSize), sofar), seen, highest, 0, cum) ==
                  GapAck(Tally(sentQueue, flightSize, bytes), seen, highest, i, newly)
      {
        var e := sentQueue[i];
        if Beyond(e.chunk.tsn, highest) {
          break;
        }
        if e.chunk.tsn in seen && !e.acked {
          bytes := bytes + BookSize(e);
          sentQueue := sentQueue[i := e.(acked := true)];
          flightSize := Floor(flightSize - BookSize(e));
          newly := e.chunk.tsn;
        }
        i := i + 1;
      }
    }

    /** The loop that strikes missing chunks. */
    method StrikeMissing(seen: set<int>, newly: nat, ghost bytes: nat) returns (loss: bool)
      modifies this`sentQueue, this`flightSize
      ensures (Tally(sentQueue, flightSize, bytes), loss) ==
              Strike(Tally(old(sentQueue), old(flightSize), bytes), seen, newly, 0, false)
    {
      loss := false;
      var i := 0;
      while i < |sentQueue|
        invariant i <= |sentQueue|
        invariant Strike(Tally(old(sentQueue), old(flightSize), bytes), seen, newly, 0, false) ==
                  Strike(Tally(sentQueue, flightSize, bytes), seen, newly, i, loss)
      {
        var e := sentQueue[i];
        if Gt32(e.chunk.tsn, newly) {
          break;
        }
        if e.chunk.tsn !in seen {
          if e.misses + 1 == 3 {
            sentQueue := sentQueue[i := e.(misses := 0, retransmit := true, acked := false)];
            flightSize := Floor(flightSize - BookSize(e));
            loss := true;
          } else {
            sentQueue := sentQueue[i := e.(misses := e.misses + 1)];
          }
        }
        i := i + 1;
      }
    }

    /** The expansion of the gap blocks, and the TSN it reaches last. */
    method ExpandGaps(k: Sack) returns (seen: set<int>, highest: Option<int>)
      ensures seen == Seen(k.cum, k.gaps) && highest == LastSeen(k.cum, k.gaps)
    {
      seen, highest := {}, None;
      var i := 0;
      assert k.gaps[0..] == k.gaps;
      while i < |k.gaps|
        invariant i <= |k.gaps|
        invariant Seen(k.cum, k.gaps) == seen + Seen(k.cum, k.gaps[i..])
        invariant highest == LastSeen(k.cum, k.gaps[..i])
      {
        var g := k.gaps[i];
        var pos := g.start;
        ghost var before := seen;
        while pos < g.end + 1
          invariant g.start <= pos && (pos == g.start || pos <= g.end + 1)
          invariant before + BlockTsns(k.cum, g.start, g.end) == seen + BlockTsns(k.cum, pos, g.end)
          invariant highest == if pos == g.start then LastSeen(k.cum, k.gaps[..i]) else Some(TsnAt(k.cum, pos - 1))
        {
          highest := Some(TsnAt(k.cum, pos));
          seen := seen + {TsnAt(k.cum, pos)};
          pos := pos + 1;
        }
        assert k.gaps[i..][0] == g && k.gaps[i..][1..] == k.gaps[i + 1..];
        LastSeenSnoc(k.cum, k.gaps, i);
        i := i + 1;
      }
      assert k.gaps[..i] == k.gaps;
    }

    /** All the acknowledgement loops. */
    method Acknowledged(k: Sack) returns (done: nat, bytes: nat, loss: bool)
      modifies this`sentQueue, this`flightSize
      ensures Acks(Tally(sentQueue, flightSize, bytes), done, loss) == Acknowledge(old(sentQueue), old(flightSize), k)
    {
      hide CumAck, GapAck, Strike, Seen, LastSeen;
      done, bytes := AckCumulative(k.cum);
      loss := false;
      if |k.gaps| > 0 {
        var seen, highest := ExpandGaps(k);
        var newly;
        newly, bytes := AckGaps(seen, highest, k.cum, bytes);
        loss := StrikeMissing(seen, newly, bytes);
      }
    }

    /** Slow start and congestion avoidance. */
    method GrowWindow(fullyUsed: bool, done: nat, bytes: nat, ghost a: Acks)
      requires a.done == done && a.tally.bytes == bytes
      modifies this`cwnd, this`partialBytesAcked
      ensures State() == Grown(old(State()), fullyUsed, a)
    {
      if done > 0 && fullyUsed {
        if cwnd <= ssthresh {
          cwnd := cwnd + Min(bytes, maxPayloadSize);
        } else {
          partialBytesAcked := partialBytesAcked + bytes;
          if partialBytesAcked >= cwnd {
            partialBytesAcked := partialBytesAcked - cwnd;
            cwnd := cwnd + maxPayloadSize;
          }
        }
      }
    }

    method EnterRecovery(loss: bool)
      modifies this`cwnd, this`ssthresh, this`partialBytesAcked, this`fastRecoveryExit, this`fastRecoveryTransmit
      ensures State() == Recovering(old(State()), loss)
    {
      if loss && |sentQueue| > 0 {
        ssthresh := Max(cwnd / 2, 4 * maxPayloadSize);
        cwnd := ssthresh;
        partialBytesAcked := 0;
        fastRecoveryExit := Some(sentQueue[|sentQueue| - 1].chunk.tsn);
        fastRecoveryTransmit := true;
      }
    }

    method AdjustCongestionWindow(fullyUsed: bool, done: nat, bytes: nat, loss: bool, cum: nat, ghost a: Acks)
      requires a.done == done && a.tally.bytes == bytes && a.loss == loss
      modifies this`cwnd, this`ssthresh, this`partialBytesAcked, this`fastRecoveryExit, this`fastRecoveryTransmit
      ensures State() == AdjustWindow(old(State()), fullyUsed, a, cum)
    {
      hide Grown, Recovering;
      if fastRecoveryExit.None? {
        GrowWindow(fullyUsed, done, bytes, a);
        EnterRecovery(loss);
      } else if Gte32(cum, fastRecoveryExit.value) {
        fastRecoveryExit := None;
      }
    }

    method ReceiveSackChunk(k: Sack)
      modifies this
      ensures State() == ReceiveSack(old(State()), k)
    {
      hide Acknowledge, AdjustWindow, Gt32;
      if Gt32(lastSackedTsn, k.cum) {
        return;
      }
      ghost var s := State();
      lastSackedTsn := k.cum;
      var fullyUsed := flightSize >= cwnd;
      var done, bytes, loss := Acknowledged(k);
      ghost var a := Acknowledge(s.sent, s.flight, k);
      assert State() == s.(lastSacked := k.cum, sent := a.tally.sent, flight := a.tally.flight);
      AdjustCongestionWindow(fullyUsed, done, bytes, loss, k.cum, a);
      AdjustKeepsQueues(s.(lastSacked := k.cum, sent := a.tally.sent, flight := a.tally.flight), fullyUsed, a, k.cum);
      FinishSack(k.rwnd, done);
    }

    /** The end of `receiveSackChunk`: T3, the peer's window and the advanced acknowledgement point. */
    method FinishSack(rwnd: nat, done: nat)
      modifies this`timer3Armed, this`peerAdvertisedRwnd, this`advancedPeerAckTsn
      ensures State() == old(State()).(
                t3 := if sentQueue == [] then false else old(timer3Armed) || done > 0,
                peerWindow := rwnd,
                advanced := if Gt32(lastSackedTsn, old(advancedPeerAckTsn)) then lastSackedTsn else old(advancedPeerAckTsn))
    {
      if |sentQueue| == 0 {
        timer3Armed := false;
      } else if done > 0 {
        timer3Armed := true;
      }
      peerAdvertisedRwnd := rwnd;
      if Gt32(lastSackedTsn, advancedPeerAckTsn) {
        advancedPeerAckTsn := lastSackedTsn;
      }
    }

    /** The loop that marks every sent chunk. */
    method MarkForRetransmission()
      modifies this`sentQueue
      ensures State() == old(State()).(sent := MarkAll(old(sentQueue)))
    {
      ghost var sent := sentQueue;
      var i := 0;
      while i < |sentQueue|
        invariant i <= |sentQueue| == |sent|
        invariant forall j :: 0 <= j < |sentQueue| ==>
                    sentQueue[j] == if j < i then sent[j].(retransmit := true) else sent[j]
      {
        sentQueue := sentQueue[i := sentQueue[i].(retransmit := true)];
        i := i + 1;
      }
      assert sentQueue == MarkAll(sent);
    }

    /** What the expiry changes before it transmits. */
    method CollapseWindow()
      modifies this`advancedPeerAckTsn, this`fastRecoveryExit, this`flightSize, this`partialBytesAcked, this`ssthresh, this`cwnd
      ensures State() == old(State()).(
                advanced := if Gt32(lastSackedTsn, old(advancedPeerAckTsn)) then lastSackedTsn else old(advancedPeerAckTsn),
                recoveryExit := None, flight := 0, partialAcked := 0,
                ssthresh := Max(old(cwnd) / 2, 4 * maxPayloadSize), cwnd := maxPayloadSize)
    {
      if Gt32(lastSackedTsn, advancedPeerAckTsn) {
        advancedPeerAckTsn := lastSackedTsn;
      }
      fastRecoveryExit := None;
      flightSize := 0;
      partialBytesAcked := 0;
      ssthresh := Max(cwnd / 2, 4 * maxPayloadSize);
      cwnd := maxPayloadSize;
    }

    method ExpireTimer3() returns (packets: seq<Chunk>)
      modifies this
      ensures Transmission(State(), packets) == Timer3Expired(old(State()))
    {
      hide TransmitOnce, MarkAll, Max, Gt32;
      timer3Armed := false;
      MarkForRetransmission();
      CollapseWindow();
      packets := TransmitNow();
    }
  }

  lemma NextPosition(j: nat, n: nat)
    ensures (j + 1) * n == j * n + n
  {
  }

  lemma NoNewEntries(serial: nat, tsn: nat, sid: nat, ssn: nat, ppid: nat, ordered: bool, pieces: seq<seq<byte>>)
    ensures NewEntries(serial, tsn, sid, ssn, ppid, ordered, pieces, 0) == []
  {
  }

  lemma OneMoreEntry(serial: nat, tsn: nat, sid: nat, ssn: nat, ppid: nat, ordered: bool, pieces: seq<seq<byte>>, j: nat)
    requires j < |pieces|
    ensures NewEntries(serial, tsn, sid, ssn, ppid, ordered, pieces, j + 1) ==
            NewEntries(serial, tsn, sid, ssn, ppid, ordered, pieces, j) +
            [NewEntry(serial, tsn, sid, ssn, ppid, ordered, pieces, j)]
  {
  }

  lemma LastSeenSnoc(cum: nat, gaps: seq<Gap>, i: nat)
    requires i < |gaps|
    ensures LastSeen(cum, gaps[..i + 1]) ==
            if gaps[i].start <= gaps[i].end then Some(TsnAt(cum, gaps[i].end)) else LastSeen(cum, gaps[..i])
  {
    assert gaps[..i + 1][..i] == gaps[..i];
  }

  /** Fragment `j` is the slice from `j * n`, cut short at the end of the message. */
  lemma {:induction false} SplitAt(data: seq<byte>, n: nat, j: nat)
    requires n > 0 && j < |Split(data, n)|
    ensures 0 <= j * n < |data|
    ensures Split(data, n)[j] == data[j * n..if j * n + n <= |data| then j * n + n else |data|]
    decreases |data|
  {
    if |data| > n && j > 0 {
      SplitAt(data[n..], n, j - 1);
      assert (j - 1) * n + n == j * n;
    }
  }
}
