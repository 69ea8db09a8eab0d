/**
 Every step of `Association` keeps its invariant.
 */
module AssociationProof {
  import opened SerialNumbers
  import opened StringOrder
  import opened TsnTracking
  import opened Reassembly
  import opened OrderedStream
  import opened StreamInvariant
  import opened Sacks
  import opened Association
  import Inbound
  import Outbound
  import OutboundLaws

  // Growth: facts about old messages and old receptions stay true

  lemma LoggedGrows(sent: map<nat, seq<Placed>>, sid: nat, p: Placed, c: Chunk)
    requires Logged(sent, c)
    ensures Logged(sent[sid := SentOn(sent, sid) + [p]], c)
  {
    var k: nat, j: nat :| IsFragment(sent, c, k, j);
    assert IsFragment(sent[sid := SentOn(sent, sid) + [p]], c, k, j);
  }

  lemma CoveredGrows(sent: map<nat, seq<Placed>>, sid: nat, p: Placed, u: nat)
    requires Covered(sent, u) || p.start <= u < End(p)
    ensures Covered(sent[sid := SentOn(sent, sid) + [p]], u)
  {
    var sent' := sent[sid := SentOn(sent, sid) + [p]];
    if p.start <= u < End(p) {
      assert sent'[sid][|SentOn(sent, sid)|] == p;
    } else {
      var i, k :| i in sent && 0 <= k < |sent[i]| && sent[i][k].start <= u < End(sent[i][k]);
      assert sent'[i][k] == sent[i][k];
    }
  }

  // send

  /** The entries `send` queues are the fragments of the message it places. */
  lemma NewEntriesAreFragments(s: System, sid: nat, ppid: nat, pieces: seq<seq<byte>>, j: nat)
    requires SenderOk(s) && j < |pieces|
    ensures var ssn := Outbound.SequenceFor(s.snd.streamSeq, sid, true);
            var p := Placed(s.snd.nextSerial, ppid, pieces);
            Outbound.NewEntry(s.snd.nextSerial, s.snd.localTsn, sid, ssn, ppid, true, pieces, j).chunk
              == Fragment(sid, |SentOn(s.sent, sid)|, p, j)
  {
    hide Logged, Consecutive;
    WireSum(s.snd.nextSerial, j);
  }

  lemma WireSum(x: nat, j: nat)
    ensures (x % MOD32 + j) % MOD32 == (x + j) % MOD32
  {
  }

  lemma SendKeepsQueues(s: System, sid: nat, ppid: nat, data: seq<byte>, i: nat)
    requires SenderOk(s) && s.snd.maxPayload > 0
    requires var s' := AfterSend(s, sid, ppid, data); i < |s'.snd.sent + s'.snd.outbound|
    ensures var s' := AfterSend(s, sid, ppid, data);
            var e := (s'.snd.sent + s'.snd.outbound)[i];
            e.chunk.serial == s.acked + 1 + i && e.chunk.tsn == (s.acked + 1 + i) % MOD32 && Logged(s'.sent, e.chunk)
  {
    hide Logged;
    var s' := AfterSend(s, sid, ppid, data);
    var pieces := Outbound.Split(data, s.snd.maxPayload);
    var p := Placed(s.snd.nextSerial, ppid, pieces);
    var q := s.snd.sent + s.snd.outbound;
    if i < |q| {
      assert (s'.snd.sent + s'.snd.outbound)[i] == q[i];
      LoggedGrows(s.sent, sid, p, q[i].chunk);
    } else {
      NewEntriesAreFragments(s, sid, ppid, pieces, i - |q|);
      LoggedNew(s'.sent, sid, |SentOn(s.sent, sid)|, i - |q|);
    }
  }

  lemma SendKeepsSequence(s: System, sid: nat, ppid: nat, data: seq<byte>, i: nat)
    requires SenderOk(s) && s.snd.maxPayload > 0
    ensures var s' := AfterSend(s, sid, ppid, data);
            Outbound.SequenceFor(s'.snd.streamSeq, i, true) == |SentOn(s'.sent, i)| % MOD16
  {
    hide Logged, Consecutive, Outbound.Split;
    var s' := AfterSend(s, sid, ppid, data);
    assert Outbound.SequenceFor(s.snd.streamSeq, i, true) == |SentOn(s.sent, i)| % MOD16;
    Add16IsVirtual(|SentOn(s.sent, sid)|, 1);
  }

  lemma SendKeepsSender(s: System, sid: nat, ppid: nat, data: seq<byte>)
    requires SenderOk(s) && s.snd.maxPayload > 0
    requires Outstanding(AfterSend(s, sid, ppid, data))
    ensures SenderOk(AfterSend(s, sid, ppid, data))
  {
    hide Logged, OutstandingOn, Outbound.SequenceFor, AfterSend, SentOn;
    var s' := AfterSend(s, sid, ppid, data);
    var q' := s'.snd.sent + s'.snd.outbound;
    forall i | 0 <= i < |q'|
      ensures q'[i].chunk.serial == s.acked + 1 + i && q'[i].chunk.tsn == (s.acked + 1 + i) % MOD32
      ensures Logged(s'.sent, q'[i].chunk)
    {
      SendKeepsQueues(s, sid, ppid, data, i);
    }
    forall i: nat ensures Outbound.SequenceFor(s'.snd.streamSeq, i, true) == |SentOn(s'.sent, i)| % MOD16 {
      SendKeepsSequence(s, sid, ppid, data, i);
    }
    SendCounts(s, sid, ppid, data);
    NewAreUnacked(s, sid, ppid, data);
  }

  /** What `send` leaves, and how the counters grow with the queue. */
  lemma SendCounts(s: System, sid: nat, ppid: nat, data: seq<byte>)
    requires SenderOk(s) && s.snd.maxPayload > 0
    ensures var s' := AfterSend(s, sid, ppid, data);
            && s'.acked == s.acked && s'.initial == s.initial
            && s'.snd.maxPayload == s.snd.maxPayload && s'.snd.lastSacked == s.snd.lastSacked
            && s'.snd.localTsn == s'.snd.nextSerial % MOD32
            && s'.acked + 1 + |s'.snd.sent + s'.snd.outbound| == s'.snd.nextSerial
  {
    hide Logged, Consecutive, Outbound.SequenceFor, Outbound.Split, SentOn;
  }

  lemma NewAreUnacked(s: System, sid: nat, ppid: nat, data: seq<byte>)
    requires s.snd.maxPayload > 0
    requires forall i :: 0 <= i < |s.snd.outbound| ==> !s.snd.outbound[i].acked
    ensures var out := AfterSend(s, sid, ppid, data).snd.outbound;
            forall i :: 0 <= i < |out| ==> !out[i].acked
  {
  }

  lemma LoggedNew(sent: map<nat, seq<Placed>>, sid: nat, k: nat, j: nat)
    requires sid in sent && k < |sent[sid]| && j < |sent[sid][k].pieces|
    ensures Logged(sent, Fragment(sid, k, sent[sid][k], j))
  {
    assert IsFragment(sent, Fragment(sid, k, sent[sid][k], j), k, j);
  }

  lemma SendKeepsLayout(s: System, sid: nat, ppid: nat, data: seq<byte>)
    requires LayoutOk(s) && data != [] && s.snd.maxPayload > 0 && s.initial <= s.snd.nextSerial
    requires forall i: nat :: Below(SentOn(s.sent, i), s.snd.nextSerial)
    ensures LayoutOk(AfterSend(s, sid, ppid, data))
  {
    hide Covered;
    var s' := AfterSend(s, sid, ppid, data);
    var p := Placed(s.snd.nextSerial, ppid, Outbound.Split(data, s.snd.maxPayload));
    forall a, b, k, l | a in s'.sent && b in s'.sent && a != b && 0 <= k < |s'.sent[a]| && 0 <= l < |s'.sent[b]|
      ensures Apart(s'.sent[a][k], s'.sent[b][l])
    {
      assert Below(SentOn(s.sent, a), s.snd.nextSerial) && Below(SentOn(s.sent, b), s.snd.nextSerial);
    }
    forall u | s'.initial <= u < s'.snd.nextSerial ensures Covered(s'.sent, u) {
      CoveredGrows(s.sent, sid, p, u);
    }
  }

  lemma SendKeepsStreams(s: System, v: View, sid: nat, ppid: nat, data: seq<byte>, i: nat)
    requires StreamsOk(s, v) && ReceiverOk(s, v.m) && data != [] && s.snd.maxPayload > 0
    requires Outstanding(AfterSend(s, sid, ppid, data))
    ensures StreamOk(AfterSend(s, sid, ppid, data), v, i)
  {
    hide StreamInv, Fitting;
    var s' := AfterSend(s, sid, ppid, data);
    var p := Placed(s.snd.nextSerial, ppid, Outbound.Split(data, s.snd.maxPayload));
    assert |p.pieces| > 0;
    var st, h := Inbound.StreamAt(s.rcv.streams, i), HeldOn(v, i);
    var sent, delivered := SentOn(s.sent, i), DeliveredOn(s.delivered, i);
    assert StreamOk(s, v, i);
    if i == sid {
      assert OutstandingOn(s', i);
      MessageSent(st, h, i, sent, delivered, s.snd.nextSerial, s.cum, v.m, p);
    } else {
      if i in s.sent {
        assert OutstandingOn(s', i);
      } else {
        assert Fitting([], |delivered|, s'.snd.nextSerial) by { NothingDelivered(s, v, i); }
      }
      OthersSend(st, h, i, sent, delivered, s.snd.nextSerial, s.cum, v.m, s'.snd.nextSerial);
    }
  }

  lemma NothingDelivered(s: System, v: View, i: nat)
    requires StreamOk(s, v, i) && i !in s.sent
    ensures DeliveredOn(s.delivered, i) == []
    ensures forall next: nat :: Fitting([], 0, next)
  {
  }

  lemma SendKeepsNet(s: System, m: set<nat>, sid: nat, ppid: nat, data: seq<byte>)
    requires NetOk(s, m) && s.snd.maxPayload > 0
    ensures NetOk(AfterSend(s, sid, ppid, data), m)
  {
    hide Logged;
    var s' := AfterSend(s, sid, ppid, data);
    var p := Placed(s.snd.nextSerial, ppid, Outbound.Split(data, s.snd.maxPayload));
    forall c | DataPacket(c) in s'.net ensures DataOk(s', c) {
      assert DataOk(s, c);
      LoggedGrows(s.sent, sid, p, c);
    }
    forall serial, k | SackPacket(serial, k) in s'.net ensures SackOk(s', m, serial, k) {
      assert SackOk(s, m, serial, k);
      forall x | x in Seen(k.cum, k.gaps) ensures Reported(s', m, serial, x) {
        assert Reported(s, m, serial, x);
      }
    }
  }

  lemma StreamsBelow(s: System, v: View, i: nat)
    requires StreamsOk(s, v)
    ensures Below(SentOn(s.sent, i), s.snd.nextSerial)
  {
    assert StreamOk(s, v, i);
  }

  lemma SendKeepsInv(s: System, v: View, sid: nat, ppid: nat, data: seq<byte>)
    requires Inv(s, v) && data != [] && Outstanding(AfterSend(s, sid, ppid, data))
    ensures Inv(AfterSend(s, sid, ppid, data), v)
  {
    hide StreamOk, Outstanding, LayoutOk, NetOk, Below, SenderOk;
    var s' := AfterSend(s, sid, ppid, data);
    SenderPayload(s);
    SendKeepsSender(s, sid, ppid, data);
    forall i: nat ensures Below(SentOn(s.sent, i), s.snd.nextSerial) {
      StreamsBelow(s, v, i);
    }
    SendKeepsLayout(s, sid, ppid, data);
    SendKeepsNet(s, v.m, sid, ppid, data);
    forall i: nat ensures StreamOk(s', v, i) {
      SendKeepsStreams(s, v, sid, ppid, data, i);
    }
  }

  lemma SenderPayload(s: System)
    requires SenderOk(s)
    ensures s.snd.maxPayload > 0 && s.initial <= s.snd.nextSerial
  {
  }

  // transmitOnce, after a SACK or an expiry

  /** The expiry handler touches no chunk and no acknowledgement. */
  predicate SameQueues(a: Outbound.State, b: Outbound.State) {
    && a.maxPayload == b.maxPayload && a.nextSerial == b.nextSerial && a.localTsn == b.localTsn
    && a.streamSeq == b.streamSeq && a.outbound == b.outbound && a.lastSacked == b.lastSacked
    && |a.sent| == |b.sent|
    && forall i :: 0 <= i < |a.sent| ==> a.sent[i].chunk == b.sent[i].chunk && a.sent[i].acked == b.sent[i].acked
  }

  /** The queues after a transmission: the same chunks, and nothing newly flagged as acknowledged. */
  lemma TransmissionQueues(s: Outbound.State, snd: Outbound.State)
    requires SameQueues(snd, s)
    requires forall i :: 0 <= i < |s.outbound| ==> !s.outbound[i].acked
    ensures var t := Outbound.TransmitOnce(snd).state;
            && OutboundLaws.SameChunks(s.sent + s.outbound, t.sent + t.outbound)
            && |t.outbound| <= |s.outbound|
            && (forall i :: 0 <= i < |t.outbound| ==> !t.outbound[i].acked)
            && (forall i :: 0 <= i < |t.sent| && t.sent[i].acked ==> i < |s.sent| && s.sent[i].acked)
            && t.maxPayload == s.maxPayload && t.nextSerial == s.nextSerial && t.localTsn == s.localTsn
            && t.streamSeq == s.streamSeq && t.lastSacked == s.lastSacked
  {
    hide Outbound.TransmitOnce;
    OutboundLaws.TransmitKeepsChunks(snd);
    var t := Outbound.TransmitOnce(snd).state;
    var q0, q, q' := s.sent + s.outbound, OutboundLaws.Queues(snd), t.sent + t.outbound;
    forall i | 0 <= i < |q0| ensures q'[i].chunk == q0[i].chunk {
      assert q[i].chunk == q0[i].chunk;
      assert OutboundLaws.Queues(t)[i] == q'[i];
    }
    forall i | 0 <= i < |t.sent| && t.sent[i].acked ensures i < |s.sent| && s.sent[i].acked {
      assert q[i].acked;
    }
  }

  lemma TransmissionKeepsSender(s: System, v: View, snd: Outbound.State)
    requires SenderOk(s) && AckedIsReceived(s, v.m) && SameQueues(snd, s.snd)
    ensures var s' := AfterTransmission(s, Outbound.TransmitOnce(snd));
            SenderOk(s') && AckedIsReceived(s', v.m) && |s'.snd.outbound| <= |s.snd.outbound|
  {
    hide Logged, Outbound.TransmitOnce, SameQueues;
    TransmissionQueues(s.snd, snd);
    var s' := AfterTransmission(s, Outbound.TransmitOnce(snd));
    var q, q' := s.snd.sent + s.snd.outbound, s'.snd.sent + s'.snd.outbound;
    forall i | 0 <= i < |q'|
      ensures q'[i].chunk.serial == s.acked + 1 + i && q'[i].chunk.tsn == (s.acked + 1 + i) % MOD32
      ensures Logged(s'.sent, q'[i].chunk)
    {
      assert q'[i].chunk == q[i].chunk;
    }
  }

  lemma TransmissionSendsLogged(s: System, snd: Outbound.State, c: Chunk)
    requires var s' := AfterTransmission(s, Outbound.TransmitOnce(snd)); SenderOk(s')
    requires c in Outbound.TransmitOnce(snd).packets
    ensures DataOk(AfterTransmission(s, Outbound.TransmitOnce(snd)), c)
  {
    hide Logged, Outbound.TransmitOnce;
    OutboundLaws.TransmitKeepsChunks(snd);
    var s' := AfterTransmission(s, Outbound.TransmitOnce(snd));
    assert OutboundLaws.InQueue(c, s'.snd.sent);
    var i :| 0 <= i < |s'.snd.sent| && s'.snd.sent[i].chunk == c;
    var q' := s'.snd.sent + s'.snd.outbound;
    assert q'[i] == s'.snd.sent[i];
  }

  lemma TransmissionKeepsInv(s: System, v: View, snd: Outbound.State)
    requires Inv(s, v) && SameQueues(snd, s.snd)
    ensures Inv(AfterTransmission(s, Outbound.TransmitOnce(snd)), v)
  {
    hide Outbound.TransmitOnce, Logged, StreamInv, SenderOk, AckedIsReceived;
    var r := Outbound.TransmitOnce(snd);
    var s' := AfterTransmission(s, r);
    OutboundLaws.TransmitKeepsChunks(snd);
    TransmissionKeepsSender(s, v, snd);
    forall c | DataPacket(c) in s'.net ensures DataOk(s', c) {
      if DataPacket(c) in s.net {
        assert DataOk(s, c);
      } else {
        TransmissionSendsLogged(s, snd, c);
      }
    }
    forall serial, k | SackPacket(serial, k) in s'.net ensures SackOk(s', v.m, serial, k) {
      assert SackOk(s, v.m, serial, k);
      forall x | x in Seen(k.cum, k.gaps) ensures Reported(s', v.m, serial, x) {
        assert Reported(s, v.m, serial, x);
      }
    }
    forall sid: nat ensures StreamOk(s', v, sid) {
      assert StreamOk(s, v, sid);
    }
  }

  // sendSack

  lemma SackStepKeepsInv(s: System, v: View, s': System)
    requires Inv(s, v)
    requires s' == s.(rcv := AfterSack(s.rcv),
                      net := if Fits(MakeSack(s.rcv)) then s.net + {SackPacket(s.cum, MakeSack(s.rcv))} else s.net)
    ensures Inv(s', v)
  {
    hide Fits, MakeSack, Logged, StreamInv, SenderOk, AckedIsReceived, LayoutOk, Seen;
    forall c | DataPacket(c) in s'.net ensures DataOk(s', c) {
      assert DataOk(s, c);
    }
    forall serial, k | SackPacket(serial, k) in s'.net ensures SackOk(s', v.m, serial, k) {
      if SackPacket(serial, k) in s.net {
        assert SackOk(s, v.m, serial, k);
      } else {
        NewSackOk(s, v);
      }
      assert SackOk(s, v.m, serial, k);
      forall x | x in Seen(k.cum, k.gaps) ensures Reported(s', v.m, serial, x) {
        assert Reported(s, v.m, serial, x);
      }
    }
    forall sid: nat ensures StreamOk(s', v, sid) {
      assert StreamOk(s, v, sid);
    }
    assert SenderOk(s') && AckedIsReceived(s', v.m) && LayoutOk(s') by { SenderUnchanged(s, v, s'); }
  }

  lemma SenderUnchanged(s: System, v: View, s': System)
    requires SenderOk(s) && AckedIsReceived(s, v.m) && LayoutOk(s)
    requires s'.snd == s.snd && s'.sent == s.sent && s'.initial == s.initial && s'.cum == s.cum && s'.acked == s.acked
    ensures SenderOk(s') && AckedIsReceived(s', v.m) && LayoutOk(s')
  {
  }

  /** The SACK of the moment reports exactly what the receiver holds out of order. */
  lemma NewSackOk(s: System, v: View)
    requires ReceiverOk(s, v.m) && Fits(MakeSack(s.rcv))
    ensures SackOk(s, v.m, s.cum, MakeSack(s.rcv))
  {
    hide Fits, Seen;
    var t := s.rcv.tracker;
    var k := MakeSack(s.rcv);
    GapsRoundTrip(t, s.cum, v.m, JsSort(t.misordered), k.rwnd);
    forall x | x in Seen(k.cum, k.gaps) ensures Reported(s, v.m, s.cum, x) {
      assert x in t.misordered;
      var y: nat :| y in v.m && y % MOD32 == x;
      assert s.cum < y < s.cum + HALF32 && y % MOD32 == x && Received(s.cum, v.m, y);
    }
  }

  // receiveSackChunk

  /** The cumulative acknowledgement drops exactly the entries at or below it. */
  lemma {:induction false} CumAckIsExact(t: Outbound.Tally, a: nat, v: nat, done: nat)
    requires Consecutive(t.sent, v) && v - 1 <= a && a < v + |t.sent| && a - v < HALF32
    ensures Outbound.CumAck(t, a % MOD32, done).1 == done + (a + 1 - v)
    decreases |t.sent|
  {
    if t.sent != [] {
      Gt32IsVirtualOrder(a, v);
      assert t.sent[0].chunk.tsn == v % MOD32;
      if a >= v {
        CumAckIsExact(Outbound.Dropped(t), a, v + 1, done + 1);
      }
    }
  }

  lemma SackAdvances(s: System, m: set<nat>, serial: nat, k: Sack)
    requires SenderOk(s) && ReceiverOk(s, m) && SackOk(s, m, serial, k) && s.acked - HALF32 < serial
    ensures Gt32(s.snd.lastSacked, k.cum) <==> serial < s.acked
    ensures serial >= s.acked ==>
              var a := Outbound.Acknowledge(s.snd.sent, s.snd.flight, k);
              a.done == serial - s.acked
  {
    assert Received(s.cum, m, serial);
    assert serial < FirstUnsent(s);
    Gt32IsVirtualOrder(s.acked, serial);
    if serial >= s.acked {
      var q := s.snd.sent + s.snd.outbound;
      forall i | 0 <= i < |s.snd.sent|
        ensures s.snd.sent[i].chunk.serial == s.acked + 1 + i && s.snd.sent[i].chunk.tsn == (s.acked + 1 + i) % MOD32
      {
        assert q[i] == s.snd.sent[i];
      }
      var t := Outbound.Tally(s.snd.sent, s.snd.flight, 0);
      CumAckIsExact(t, serial, s.acked + 1, 0);
      OutboundLaws.AcknowledgeKeepsChunks(s.snd.sent, s.snd.flight, k);
    }
  }

  /** A gap-acknowledged TSN of the queue is the one the SACK reports. */
  lemma SeenIsReceived(s: System, m: set<nat>, serial: nat, k: Sack, u: nat)
    requires SackOk(s, m, serial, k) && serial < u < serial + HALF32 && u % MOD32 in Seen(k.cum, k.gaps)
    ensures Received(s.cum, m, u)
  {
    assert Reported(s, m, serial, u % MOD32);
    var v: nat :| serial < v < serial + HALF32 && v % MOD32 == u % MOD32 && Received(s.cum, m, v);
    Gt32IsVirtualOrder(u, v);
  }

  lemma SentTsn(s: System, i: nat)
    requires SenderOk(s) && i < |s.snd.sent|
    ensures s.snd.sent[i].chunk.tsn == (s.acked + 1 + i) % MOD32 && i + 1 < HALF32
  {
    hide Logged;
    var q := s.snd.sent + s.snd.outbound;
    assert q[i] == s.snd.sent[i];
  }

  lemma SackQueue(s: System, v: View, serial: nat, k: Sack)
    requires SenderOk(s) && ReceiverOk(s, v.m) && SackOk(s, v.m, serial, k)
    requires s.acked <= serial
    requires AckedIsReceived(s, v.m)
    requires Outbound.Acknowledge(s.snd.sent, s.snd.flight, k).done == serial - s.acked
    ensures var sent' := Outbound.Acknowledge(s.snd.sent, s.snd.flight, k).tally.sent;
            && |sent'| == |s.snd.sent| - (serial - s.acked)
            && (forall i :: 0 <= i < |sent'| ==> sent'[i].chunk == s.snd.sent[i + (serial - s.acked)].chunk)
            && (forall i :: 0 <= i < |sent'| && sent'[i].acked ==> Received(s.cum, v.m, serial + 1 + i))
  {
    hide Seen, Outbound.Acknowledge, SenderOk, ReceiverOk, SackOk, AckedIsReceived, Received,
      OutboundLaws.SameChunks, OutboundLaws.AckedFrom, Outbound.CumAck;
    OutboundLaws.AcknowledgeKeepsChunks(s.snd.sent, s.snd.flight, k);
    var n := serial - s.acked;
    var sent' := Outbound.Acknowledge(s.snd.sent, s.snd.flight, k).tally.sent;
    EntriesAfter(s.snd.sent[n..], sent', Seen(k.cum, k.gaps));
    forall i | 0 <= i < |sent'|
      ensures sent'[i].chunk == s.snd.sent[i + n].chunk
      ensures sent'[i].acked ==> Received(s.cum, v.m, serial + 1 + i)
    {
      assert s.snd.sent[n..][i] == s.snd.sent[i + n];
      if sent'[i].acked {
        AckedMeansReceived(s, v.m, serial, k, i + n);
      }
    }
  }

  lemma EntriesAfter(sent: seq<Outbound.Entry>, sent': seq<Outbound.Entry>, seen: set<int>)
    requires OutboundLaws.SameChunks(sent, sent') && OutboundLaws.AckedFrom(sent, sent', seen)
    ensures |sent'| == |sent|
    ensures forall i :: 0 <= i < |sent'| ==> sent'[i].chunk == sent[i].chunk
    ensures forall i :: 0 <= i < |sent'| && sent'[i].acked ==> sent[i].acked || sent[i].chunk.tsn in seen
  {
  }

  /** An entry that was acknowledged before, or that the SACK reports, is held by the receiver. */
  lemma AckedMeansReceived(s: System, m: set<nat>, serial: nat, k: Sack, i: nat)
    requires SenderOk(s) && SackOk(s, m, serial, k) && AckedIsReceived(s, m) && i < |s.snd.sent|
    requires s.acked <= serial <= s.acked + i
    requires s.snd.sent[i].acked || s.snd.sent[i].chunk.tsn in Seen(k.cum, k.gaps)
    ensures Received(s.cum, m, s.acked + 1 + i)
  {
    hide Seen, SenderOk, SackOk, Received;
    SentTsn(s, i);
    if !s.snd.sent[i].acked {
      SeenIsReceived(s, m, serial, k, s.acked + 1 + i);
    }
  }

  lemma SackKeepsSender(s: System, v: View, serial: nat, k: Sack)
    requires SenderOk(s) && ReceiverOk(s, v.m) && SackOk(s, v.m, serial, k) && AckedIsReceived(s, v.m)
    requires s.acked <= serial && !Gt32(s.snd.lastSacked, k.cum)
    requires Outbound.Acknowledge(s.snd.sent, s.snd.flight, k).done == serial - s.acked
    ensures var s' := AfterSackDelivery(s, k);
            s'.acked == serial && SenderOk(s') && AckedIsReceived(s', v.m) && s'.snd.outbound == s.snd.outbound
            && s'.snd.nextSerial == s.snd.nextSerial
  {
    hide Seen, Outbound.Acknowledge, Logged, Outbound.AdjustWindow, SackOk, ReceiverOk;
    var a := Outbound.Acknowledge(s.snd.sent, s.snd.flight, k);
    var s1 := s.snd.(lastSacked := k.cum, sent := a.tally.sent, flight := a.tally.flight);
    OutboundLaws.AdjustKeepsQueues(s1, s.snd.flight >= s.snd.cwnd, a, k.cum);
    SackQueue(s, v, serial, k);
    var s' := AfterSackDelivery(s, k);
    assert s'.acked == serial by { SerialOfSack(s, v, serial, k); }
    var n := serial - s.acked;
    var q, q' := s.snd.sent + s.snd.outbound, s'.snd.sent + s'.snd.outbound;
    forall i | 0 <= i < |q'| ensures q'[i].chunk == q[i + n].chunk {
    }
    assert k.cum == serial % MOD32 by { CumOfSack(s, v, serial, k); }
  }

  lemma CumOfSack(s: System, v: View, serial: nat, k: Sack)
    requires SackOk(s, v.m, serial, k)
    ensures k.cum == serial % MOD32
  {
  }

  lemma SerialOfSack(s: System, v: View, serial: nat, k: Sack)
    requires SackOk(s, v.m, serial, k) && ReceiverOk(s, v.m) && SenderOk(s) && s.acked <= serial
    ensures s.acked + (k.cum - s.snd.lastSacked) % MOD32 == serial
  {
    assert Received(s.cum, v.m, serial);
  }

  lemma SackKeepsInv(s: System, v: View, serial: nat, k: Sack)
    requires Inv(s, v) && SackPacket(serial, k) in s.net && s.acked - HALF32 < serial
    ensures Inv(AfterSackDelivery(s, k), v)
  {
    hide Seen, Outbound.ReceiveSack, Outbound.Acknowledge, Logged, StreamInv, LayoutOk, SenderOk, AckedIsReceived;
    var s' := AfterSackDelivery(s, k);
    assert SackOk(s, v.m, serial, k);
    SackAdvances(s, v.m, serial, k);
    if serial < s.acked {
      IgnoredSack(s, k);
    } else {
      SackKeepsSender(s, v, serial, k);
      forall c | DataPacket(c) in s'.net ensures DataOk(s', c) {
        assert DataOk(s, c);
      }
      forall x, y | SackPacket(x, y) in s'.net ensures SackOk(s', v.m, x, y) {
        assert SackOk(s, v.m, x, y);
        forall z | z in Seen(y.cum, y.gaps) ensures Reported(s', v.m, x, z) {
          assert Reported(s, v.m, x, z);
        }
      }
      forall sid: nat ensures StreamOk(s', v, sid) {
        assert StreamOk(s, v, sid);
      }
      LayoutUnchanged(s, s');
    }
  }

  lemma IgnoredSack(s: System, k: Sack)
    requires Gt32(s.snd.lastSacked, k.cum)
    ensures AfterSackDelivery(s, k) == s
  {
  }

  lemma LayoutUnchanged(s: System, s': System)
    requires LayoutOk(s) && s'.sent == s.sent && s'.initial == s.initial && s'.snd.nextSerial == s.snd.nextSerial
    ensures LayoutOk(s')
  {
  }
}
