/**
 Delivery of DATA, and the theorems about every run of an association.
 */
module AssociationTheorems {
  import opened SerialNumbers
  import opened StringOrder
  import opened TsnTracking
  import opened Reassembly
  import opened OrderedStream
  import opened StreamInvariant
  import opened Sacks
  import opened Association
  import opened AssociationProof
  import Inbound
  import Outbound
  import OutboundLaws

  // receiveDataChunk

  ghost predicate MoreReceived(c: nat, m: set<nat>, c': nat, m': set<nat>) {
    forall v: nat :: Received(c, m, v) ==> Received(c', m', v)
  }

  /** Nothing but the receiver's state, the TSNs received and the deliveries differ. */
  predicate OnlyReceiver(s: System, s': System) {
    s' == s.(rcv := s'.rcv, cum := s'.cum, delivered := s'.delivered) && s.cum <= s'.cum
  }

  lemma MoreReceivedKeepsSender(s: System, m: set<nat>, s': System, m': set<nat>)
    requires SenderOk(s) && AckedIsReceived(s, m) && LayoutOk(s)
    requires OnlyReceiver(s, s') && MoreReceived(s.cum, m, s'.cum, m')
    ensures SenderOk(s') && AckedIsReceived(s', m') && LayoutOk(s')
  {
    hide Logged, Covered, Apart;
  }

  lemma MoreReceivedKeepsNet(s: System, m: set<nat>, s': System, m': set<nat>)
    requires NetOk(s, m) && OnlyReceiver(s, s') && MoreReceived(s.cum, m, s'.cum, m')
    ensures NetOk(s', m')
  {
    hide Logged, Seen;
    forall c | DataPacket(c) in s'.net ensures DataOk(s', c) {
      assert DataOk(s, c);
    }
    forall serial: nat, k | SackPacket(serial, k) in s'.net ensures SackOk(s', m', serial, k) {
      assert SackOk(s, m, serial, k);
      forall x | x in Seen(k.cum, k.gaps) ensures Reported(s', m', serial, x) {
        assert Reported(s, m, serial, x);
        var v: nat :| serial < v < serial + HALF32 && v % MOD32 == x && Received(s.cum, m, v);
        assert Received(s'.cum, m', v);
      }
    }
  }

  lemma DataTracked(s: System, m: set<nat>, chunk: Chunk) returns (c': nat, m': set<nat>)
    requires SenderOk(s) && ReceiverOk(s, m) && DataOk(s, chunk) && s.cum - HALF32 < chunk.serial
    requires chunk.tsn == chunk.serial % MOD32
    ensures Tracks(MarkReceived(s.rcv.tracker, chunk.tsn), c', m')
    ensures IsDuplicate(s.rcv.tracker, chunk.tsn) <==> Received(s.cum, m, chunk.serial)
    ensures Received(s.cum, m, chunk.serial) ==> c' == s.cum && m' == m
    ensures s.cum <= c' < s.cum + HALF32
    ensures forall v: nat :: Received(c', m', v) <==> Received(s.cum, m, v) || v == chunk.serial
  {
    hide Logged, MarkReceivedBy, JsSort;
    var t := s.rcv.tracker;
    c', m' := MarkReceivedIsExact(t, s.cum, m, chunk.serial, JsSort(t.misordered + {chunk.serial % MOD32}));
  }

  /** The tracker after a DATA chunk, whatever happens to the chunk. */
  lemma TrackerAfterData(s: System, chunk: Chunk, c': nat, m': set<nat>)
    requires Tracks(MarkReceived(s.rcv.tracker, chunk.tsn), c', m')
    requires s.rcv.tracker.last == s.cum % MOD32 && s.cum <= c' < s.cum + HALF32
    ensures AfterData(s, chunk).cum == c'
    ensures Tracks(AfterData(s, chunk).rcv.tracker, c', m')
  {
    hide MarkReceived, AddChunk, Pop;
    Inbound.MovedIsDistance(s.rcv, Inbound.ReceiveData(s.rcv, chunk).state, s.cum, c');
  }

  lemma DuplicateKeepsStreams(s: System, v: View, chunk: Chunk, sid: nat)
    requires StreamsOk(s, v) && IsDuplicate(s.rcv.tracker, chunk.tsn) && AfterData(s, chunk).cum == s.cum
    ensures StreamOk(AfterData(s, chunk), v, sid)
  {
    hide MarkReceived, StreamInv;
    assert StreamOk(s, v, sid);
    assert DeliveredOn(s.delivered, chunk.streamId) + [] == DeliveredOn(s.delivered, chunk.streamId);
  }

  /** The chunk's own stream takes it in. */
  lemma NewDataOnStream(s: System, v: View, chunk: Chunk, k: nat, j: nat, c': nat, m': set<nat>) returns (h': Held)
    requires StreamsOk(s, v) && IsFragment(s.sent, chunk, k, j)
    requires !IsDuplicate(s.rcv.tracker, chunk.tsn) && !Received(s.cum, v.m, chunk.serial)
    requires forall u: nat :: Received(c', m', u) <==> Received(s.cum, v.m, u) || u == chunk.serial
    ensures var s', sid := AfterData(s, chunk), chunk.streamId;
            StreamInv(Inbound.StreamAt(s'.rcv.streams, sid), h', sid, SentOn(s'.sent, sid),
                      DeliveredOn(s'.delivered, sid), s'.snd.nextSerial, c', m')
  {
    hide MarkReceived, StreamInv, AddChunk, Pop, IsDuplicate, Received;
    var sid := chunk.streamId;
    var st := Inbound.StreamAt(s.rcv.streams, sid);
    assert StreamOk(s, v, sid);
    var list;
    list, h' := FragmentReceived(st, HeldOn(v, sid), sid, SentOn(s.sent, sid), DeliveredOn(s.delivered, sid),
                                 s.snd.nextSerial, s.cum, v.m, k, j, c', m');
    assert chunk == Fragment(sid, k, SentOn(s.sent, sid)[k], j);
  }

  lemma NewDataElsewhere(s: System, v: View, chunk: Chunk, k: nat, j: nat, c': nat, m': set<nat>, i: nat)
    requires StreamsOk(s, v) && LayoutOk(s) && IsFragment(s.sent, chunk, k, j) && i != chunk.streamId
    requires forall u: nat :: Received(c', m', u) <==> Received(s.cum, v.m, u) || u == chunk.serial
    ensures StreamInv(Inbound.StreamAt(s.rcv.streams, i), HeldOn(v, i), i, SentOn(s.sent, i),
                      DeliveredOn(s.delivered, i), s.snd.nextSerial, c', m')
  {
    hide StreamInv, Covered;
    assert StreamOk(s, v, i);
    var sent, p := SentOn(s.sent, i), s.sent[chunk.streamId][k];
    forall l, u: nat | 0 <= l < |sent| && sent[l].start <= u < End(sent[l])
      ensures Received(c', m', u) <==> Received(s.cum, v.m, u)
    {
      assert Apart(s.sent[i][l], p);
    }
    ReceivedElsewhere(Inbound.StreamAt(s.rcv.streams, i), HeldOn(v, i), i, sent, DeliveredOn(s.delivered, i),
                      s.snd.nextSerial, s.cum, v.m, c', m');
  }

  lemma OtherStreamsUntouched(s: System, chunk: Chunk, i: nat)
    requires i != chunk.streamId
    ensures var s' := AfterData(s, chunk);
            && Inbound.StreamAt(s'.rcv.streams, i) == Inbound.StreamAt(s.rcv.streams, i)
            && DeliveredOn(s'.delivered, i) == DeliveredOn(s.delivered, i)
  {
    hide MarkReceived, AddChunk, Pop, IsDuplicate;
  }

  lemma NewDataKeepsStreams(s: System, v: View, chunk: Chunk, c': nat, m': set<nat>) returns (v': View)
    requires StreamsOk(s, v) && LayoutOk(s) && Logged(s.sent, chunk)
    requires !IsDuplicate(s.rcv.tracker, chunk.tsn) && !Received(s.cum, v.m, chunk.serial)
    requires forall u: nat :: Received(c', m', u) <==> Received(s.cum, v.m, u) || u == chunk.serial
    requires AfterData(s, chunk).cum == c'
    ensures v'.m == m' && StreamsOk(AfterData(s, chunk), v')
  {
    hide StreamInv, LayoutOk, IsDuplicate, AddChunk, Pop, MarkReceived, Received;
    var k: nat, j: nat :| IsFragment(s.sent, chunk, k, j);
    var h' := NewDataOnStream(s, v, chunk, k, j, c', m');
    v' := View(m', v.held[chunk.streamId := h']);
    var s' := AfterData(s, chunk);
    forall i: nat ensures StreamOk(s', v', i) {
      if i != chunk.streamId {
        NewDataElsewhere(s, v, chunk, k, j, c', m', i);
        OtherStreamsUntouched(s, chunk, i);
      }
    }
  }

  lemma LoggedTsn(sent: map<nat, seq<Placed>>, c: Chunk)
    requires Logged(sent, c)
    ensures c.tsn == c.serial % MOD32
  {
    var k: nat, j: nat :| IsFragment(sent, c, k, j);
  }

  lemma DataKeepsInv(s: System, v: View, chunk: Chunk) returns (v': View)
    requires Inv(s, v) && DataPacket(chunk) in s.net && s.cum - HALF32 < chunk.serial
    ensures Inv(AfterData(s, chunk), v')
  {
    hide StreamOk, Logged, LayoutOk, SenderOk, AckedIsReceived, SackOk, Tracks, IsDuplicate, Received, Inbound.ReceiveData;
    assert DataOk(s, chunk);
    LoggedTsn(s.sent, chunk);
    var s' := AfterData(s, chunk);
    var c', m' := DataTracked(s, v.m, chunk);
    assert s.rcv.tracker.last == s.cum % MOD32 by { TracksLast(s.rcv.tracker, s.cum, v.m); }
    TrackerAfterData(s, chunk, c', m');
    MoreReceivedKeepsSender(s, v.m, s', m');
    MoreReceivedKeepsNet(s, v.m, s', m');
    if IsDuplicate(s.rcv.tracker, chunk.tsn) {
      v' := v;
      forall sid: nat ensures StreamOk(s', v, sid) {
        DuplicateKeepsStreams(s, v, chunk, sid);
      }
    } else {
      v' := NewDataKeepsStreams(s, v, chunk, c', m');
    }
  }

  lemma TracksLast(t: Tracker, c: nat, m: set<nat>)
    requires Tracks(t, c, m)
    ensures t.last == c % MOD32
  {
  }

  // Runs

  lemma StepKeepsInv(s: System, v: View, step: Step, s': System) returns (v': View)
    requires Inv(s, v) && s.snd.maxPayload > 0 && Next(s, step, s')
    ensures Inv(s', v')
  {
    hide Inv, AfterSend, AfterTransmission, AfterData, AfterSackDelivery, Outstanding, Fits, MakeSack, AfterSack;
    v' := v;
    match step
    case SendStep(sid, ppid, data) => SendKeepsInv(s, v, sid, ppid, data);
    case TransmitStep => TransmissionKeepsInv(s, v, s.snd);
    case ExpiryStep => TransmissionKeepsInv(s, v, Outbound.Expired(s.snd));
    case DeliverDataStep(chunk) => v' := DataKeepsInv(s, v, chunk);
    case SackStep => SackStepKeepsInv(s, v, s');
    case DeliverSackStep(serial, sack) => SackKeepsInv(s, v, serial, sack);
  }

  /** A finite run from a freshly established association. */
  ghost predicate IsRun(run: seq<System>, steps: seq<Step>) {
    && |run| == |steps| + 1 && Init(run[0])
    && forall i :: 0 <= i < |steps| ==> run[i].snd.maxPayload > 0 && Next(run[i], steps[i], run[i + 1])
  }

  lemma {:induction false} RunKeepsInv(run: seq<System>, steps: seq<Step>, i: nat) returns (v: View)
    requires IsRun(run, steps) && i < |run|
    ensures Inv(run[i], v)
    decreases i
  {
    hide Inv, Next, Init;
    if i == 0 {
      v := InitHoldsInv(run[0]);
    } else {
      v := RunKeepsInv(run, steps, i - 1);
      v := StepKeepsInv(run[i - 1], v, steps[i - 1], run[i]);
    }
  }

  /** The messages handed to `send` for a stream. */
  function Sent(steps: seq<Step>, sid: nat): seq<Message> {
    if steps == [] then []
    else
      var step := steps[|steps| - 1];
      Sent(steps[..|steps| - 1], sid) +
      if step.SendStep? && step.sid == sid then [Message(sid, step.ppid, step.data)] else []
  }

  lemma StepLogs(s: System, step: Step, s': System, sid: nat)
    requires s.snd.maxPayload > 0 && Next(s, step, s')
    ensures MessagesOf(sid, SentOn(s'.sent, sid)) ==
            MessagesOf(sid, SentOn(s.sent, sid)) +
            if step.SendStep? && step.sid == sid then [Message(sid, step.ppid, step.data)] else []
  {
    hide Outstanding, Outbound.Send, Outbound.TransmitOnce, Outbound.Timer3Expired, Outbound.ReceiveSack,
      Inbound.ReceiveData, Fits, MakeSack, Flatten, Outbound.Split;
    if step.SendStep? {
      OutboundLaws.SplitIsExact(step.data, s.snd.maxPayload);
    }
  }

  /** What the sender logged, fragment by fragment, is what it was given, byte for byte. */
  lemma {:induction false} LogIsSent(run: seq<System>, steps: seq<Step>, i: nat, sid: nat)
    requires IsRun(run, steps) && i < |run|
    ensures MessagesOf(sid, SentOn(run[i].sent, sid)) == Sent(steps[..i], sid)
  {
    hide Next;
    if i > 0 {
      LogIsSent(run, steps, i - 1, sid);
      assert steps[..i][..i - 1] == steps[..i - 1] && steps[..i][i - 1] == steps[i - 1];
      StepLogs(run[i - 1], steps[i - 1], run[i], sid);
    }
  }

  /**
   End-to-end ordered delivery: at every point of every run, over a network that loses,
   duplicates and reorders packets, the messages delivered on a stream are a prefix of the
   messages given to `send` for it, byte for byte.
   */
  lemma OrderedDelivery(run: seq<System>, steps: seq<Step>, i: nat, sid: nat)
    requires IsRun(run, steps) && i < |run|
    ensures DeliveredOn(run[i].delivered, sid) <= Sent(steps[..i], sid)
  {
    hide Next, Init;
    var v := RunKeepsInv(run, steps, i);
    assert StreamOk(run[i], v, sid);
    LogIsSent(run, steps, i, sid);
  }

  /** The TSNs the receiver has counted as received, in terms of its own fields. */
  ghost predicate HasReceived(s: System, u: nat) {
    u <= s.cum || (s.cum < u < s.cum + HALF32 && u % MOD32 in s.rcv.tracker.misordered)
  }

  lemma HasReceivedIs(s: System, m: set<nat>, u: nat)
    requires Tracks(s.rcv.tracker, s.cum, m)
    ensures HasReceived(s, u) <==> Received(s.cum, m, u)
  {
    if s.cum < u < s.cum + HALF32 && u % MOD32 in s.rcv.tracker.misordered {
      var v :| v in m && v % MOD32 == u % MOD32;
      Gt32IsVirtualOrder(u, v);
    }
  }

  /** TSN `u` was used by a message of another stream. */
  ghost predicate UsedElsewhere(sent: map<nat, seq<Placed>>, sid: nat, u: nat) {
    exists i, l :: i in sent && i != sid && 0 <= l < |sent[i]| && sent[i][l].start <= u < End(sent[i][l])
  }

  /** Between messages that are not adjacent another stream sent. */
  lemma GapIsAnotherStream(s: System, sid: nat, k: nat)
    requires LayoutOk(s) && 0 < k < |SentOn(s.sent, sid)| && !Adjacent(SentOn(s.sent, sid), k)
    requires LaidOut(SentOn(s.sent, sid)) && Below(SentOn(s.sent, sid), s.snd.nextSerial)
    ensures UsedElsewhere(s.sent, sid, End(SentOn(s.sent, sid)[k - 1]))
  {
    var sent := SentOn(s.sent, sid);
    var u := End(sent[k - 1]);
    assert u < sent[k].start < End(sent[k]) <= s.snd.nextSerial;
    assert Covered(s.sent, u);
    var i, l :| i in s.sent && 0 <= l < |s.sent[i]| && s.sent[i][l].start <= u < End(s.sent[i][l]);
    assert forall x :: 0 <= x < k ==> End(sent[x]) <= u;
    assert forall x :: k <= x < |sent| ==> u < sent[x].start;
  }

  /** Some TSN of the message has not been received. */
  ghost predicate MissesTsn(s: System, p: Placed) {
    exists u: nat :: p.start <= u < End(p) && !HasReceived(s, u)
  }

  /**
   How far delivery lags, on any number of streams: the first undelivered message of a stream
   misses a TSN the receiver has not received, or it follows another message of the stream
   and the TSN after that one was used by another stream.
   */
  lemma DeliveryIsMaximal(run: seq<System>, steps: seq<Step>, i: nat, sid: nat)
    requires IsRun(run, steps) && i < |run|
    requires |DeliveredOn(run[i].delivered, sid)| < |SentOn(run[i].sent, sid)|
    ensures var s, d := run[i], |DeliveredOn(run[i].delivered, sid)|;
            var sent := SentOn(s.sent, sid);
            || MissesTsn(s, sent[d])
            || (d > 0 && !Adjacent(sent, d) && UsedElsewhere(s.sent, sid, End(sent[d - 1])))
  {
    hide Next, Init, UsedElsewhere;
    var s := run[i];
    var v := RunKeepsInv(run, steps, i);
    assert StreamOk(s, v, sid);
    var d, sent := |DeliveredOn(s.delivered, sid)|, SentOn(s.sent, sid);
    if Incomplete(sent[d], HeldOn(v, sid).us) {
      var u: nat :| sent[d].start <= u < End(sent[d]) && u !in HeldOn(v, sid).us;
      HasReceivedIs(s, v.m, u);
    } else {
      GapIsAnotherStream(s, sid, d);
    }
  }

  /** On an association that uses a single stream the delivered prefix is maximal for the TSNs received. */
  lemma SingleStreamDeliveryIsMaximal(run: seq<System>, steps: seq<Step>, i: nat, sid: nat)
    requires IsRun(run, steps) && i < |run| && run[i].sent.Keys <= {sid}
    requires |DeliveredOn(run[i].delivered, sid)| < |SentOn(run[i].sent, sid)|
    ensures MissesTsn(run[i], SentOn(run[i].sent, sid)[|DeliveredOn(run[i].delivered, sid)|])
  {
    hide IsRun, MissesTsn, Adjacent;
    DeliveryIsMaximal(run, steps, i, sid);
  }

  /**
   No chunk is forgotten: the sent queue followed by the outbound queue holds the chunks of
   exactly the TSNs after the last acknowledged one, consecutively; every TSN created is in
   a queue or has been received; a chunk flagged as acknowledged has been received, however
   old or reordered the SACKs were.
   */
  lemma NoChunkIsForgotten(run: seq<System>, steps: seq<Step>, i: nat)
    requires IsRun(run, steps) && i < |run|
    ensures var s := run[i];
            var q := s.snd.sent + s.snd.outbound;
            && Consecutive(q, s.acked + 1) && s.acked + 1 + |q| == s.snd.nextSerial
            && (forall u: nat :: s.initial <= u < s.snd.nextSerial && !HasReceived(s, u) ==>
                  s.acked < u && q[u - s.acked - 1].chunk.serial == u)
            && (forall j :: 0 <= j < |s.snd.sent| && s.snd.sent[j].acked ==> HasReceived(s, s.snd.sent[j].chunk.serial))
  {
    hide Next, Init, Logged, LayoutOk, NetOk, StreamsOk, HasReceived;
    var v := RunKeepsInv(run, steps, i);
    var s := run[i];
    var q := s.snd.sent + s.snd.outbound;
    forall u: nat | s.initial <= u < s.snd.nextSerial && !HasReceived(s, u)
      ensures s.acked < u && q[u - s.acked - 1].chunk.serial == u
    {
      HasReceivedIs(s, v.m, u);
    }
    forall j | 0 <= j < |s.snd.sent| && s.snd.sent[j].acked ensures HasReceived(s, s.snd.sent[j].chunk.serial) {
      assert q[j] == s.snd.sent[j];
      HasReceivedIs(s, v.m, s.acked + 1 + j);
    }
  }
}
