/**
 What the two sides of an association account for over every run: how often each chunk was sent,
 what each SACK tells, and where the sender's idea of the peer's window comes from.
 */
module AssociationAccounts {
  import opened SerialNumbers
  import opened Wrappers
  import opened StringOrder
  import opened TsnTracking
  import opened Reassembly
  import opened OrderedStream
  import opened StreamInvariant
  import opened Sacks
  import opened Association
  import opened AssociationProof
  import opened AssociationTheorems
  import Inbound
  import Outbound
  import OutboundLaws
  import LossDetection
  import Transmissions

  // How often a chunk was sent

  /** The chunks one step hands to the network. */
  function Handed(s: System, step: Step): seq<Chunk> {
    match step
    case TransmitStep => Outbound.TransmitOnce(s.snd).packets
    case ExpiryStep => Outbound.Timer3Expired(s.snd).packets
    case _ => []
  }

  /** All chunks handed to the network in the first `i` steps. */
  function Transmitted(run: seq<System>, steps: seq<Step>, i: nat): seq<Chunk>
    requires i <= |steps| && i <= |run|
  {
    if i == 0 then [] else Transmitted(run, steps, i - 1) + Handed(run[i - 1], steps[i - 1])
  }

  function Times(c: Chunk, cs: seq<Chunk>): nat {
    multiset(cs)[c]
  }

  ghost predicate Distinct(q: seq<Outbound.Entry>) {
    forall i, j :: 0 <= i < j < |q| ==> q[i].chunk != q[j].chunk
  }

  lemma {:induction false} SentIsQueued(q: seq<Outbound.Entry>, q': seq<Outbound.Entry>, c: Chunk)
    requires |q| == |q'| && forall i :: 0 <= i < |q| ==> q[i].chunk != c
    ensures c !in Transmissions.SentBetween(q, q')
  {
    if q != [] {
      SentIsQueued(q[1..], q'[1..], c);
    }
  }

  /** Of chunks that differ, each occurs once or not at all in what is sent. */
  lemma {:induction false} SentOnceIff(q: seq<Outbound.Entry>, q': seq<Outbound.Entry>, j: nat)
    requires Transmissions.AtMostOnce(q, q') && Distinct(q) && j < |q|
    ensures Times(q[j].chunk, Transmissions.SentBetween(q, q')) == q'[j].sentCount - q[j].sentCount
  {
    var c := q[j].chunk;
    var rest := Transmissions.SentBetween(q[1..], q'[1..]);
    assert Times(c, Transmissions.SentBetween(q, q')) == Times(c, Transmissions.OnceMore(q[0], q'[0])) + Times(c, rest);
    if j == 0 {
      forall i | 0 <= i < |q[1..]| ensures q[1..][i].chunk != c {
        assert q[1..][i] == q[i + 1];
      }
      SentIsQueued(q[1..], q'[1..], c);
    } else {
      assert q[0].chunk != c;
      SentOnceIff(q[1..], q'[1..], j - 1);
    }
  }

  /** Sent entries were sent as often as they say, waiting ones never; what was sent is on the network. */
  ghost predicate Counts(s: System, sofar: seq<Chunk>) {
    var q := s.snd.sent + s.snd.outbound;
    && (forall i :: 0 <= i < |q| ==> q[i].sentCount == Times(q[i].chunk, sofar))
    && (forall i :: 0 <= i < |q| ==> (q[i].sentCount > 0 <==> i < |s.snd.sent|))
    && (forall c :: c in sofar ==> DataPacket(c) in s.net)
  }

  lemma QueueIsDistinct(s: System)
    requires SenderOk(s)
    ensures Distinct(s.snd.sent + s.snd.outbound)
  {
    hide Logged;
  }

  /** The counts survive a step that keeps the entries behind a prefix it drops. */
  lemma CountsOfSuffix(s: System, s': System, sofar: seq<Chunk>, n: nat)
    requires Counts(s, sofar) && n <= |s.snd.sent| && s'.net >= s.net && s'.snd.outbound == s.snd.outbound
    requires |s'.snd.sent| == |s.snd.sent| - n
    requires forall i :: 0 <= i < |s'.snd.sent| ==>
               s'.snd.sent[i].chunk == s.snd.sent[i + n].chunk && s'.snd.sent[i].sentCount == s.snd.sent[i + n].sentCount
    ensures Counts(s', sofar)
  {
    var q, q' := s.snd.sent + s.snd.outbound, s'.snd.sent + s'.snd.outbound;
    forall i | 0 <= i < |q'|
      ensures q'[i].chunk == q[i + n].chunk && q'[i].sentCount == q[i + n].sentCount
    {
    }
  }

  lemma TransmissionCounts(s: System, v: View, snd: Outbound.State, sofar: seq<Chunk>)
    requires Inv(s, v) && Counts(s, sofar) && SameQueues(snd, s.snd)
    requires forall i :: 0 <= i < |snd.sent| ==> snd.sent[i].sentCount == s.snd.sent[i].sentCount
    ensures var t := Outbound.TransmitOnce(snd);
            Counts(AfterTransmission(s, t), sofar + t.packets)
  {
    hide Outbound.TransmitOnce, Inv, SameQueues, Transmissions.SentBetween, Times, Transmissions.AtMostOnce;
    var t := Outbound.TransmitOnce(snd);
    var s' := AfterTransmission(s, t);
    var q, q0, q' := OutboundLaws.Queues(s.snd), OutboundLaws.Queues(snd), OutboundLaws.Queues(t.state);
    assert SenderOk(s) by { InvHasSender(s, v); }
    QueueIsDistinct(s);
    SameEntries(s.snd, snd);
    Transmissions.PacketsAreTheCounted(snd);
    OutboundLaws.TransmitKeepsChunks(snd);
    CountsOnce(q0, q');
    forall i | 0 <= i < |q'|
      ensures q'[i].sentCount == Times(q'[i].chunk, sofar + t.packets)
    {
      SentOnceIff(q0, q', i);
      TimesAdd(q0[i].chunk, sofar, t.packets);
    }
    forall i | 0 <= i < |q'|
      ensures q'[i].sentCount > 0 <==> i < |t.state.sent|
    {
      WaitingIsUncounted(snd, i);
    }
  }

  lemma InvHasSender(s: System, v: View)
    requires Inv(s, v)
    ensures SenderOk(s)
  {
  }

  lemma TimesAdd(c: Chunk, a: seq<Chunk>, b: seq<Chunk>)
    ensures Times(c, a + b) == Times(c, a) + Times(c, b)
  {
  }

  lemma SameEntries(a: Outbound.State, b: Outbound.State)
    requires SameQueues(b, a) && Distinct(OutboundLaws.Queues(a))
    requires forall i :: 0 <= i < |b.sent| ==> b.sent[i].sentCount == a.sent[i].sentCount
    ensures var p, q := OutboundLaws.Queues(a), OutboundLaws.Queues(b);
            && |p| == |q| && |a.sent| == |b.sent| && Distinct(q)
            && forall i :: 0 <= i < |q| ==> q[i].chunk == p[i].chunk && q[i].sentCount == p[i].sentCount
  {
    var p, q := OutboundLaws.Queues(a), OutboundLaws.Queues(b);
    forall i | 0 <= i < |q| ensures q[i].chunk == p[i].chunk && q[i].sentCount == p[i].sentCount {
    }
  }

  lemma CountsOnce(q: seq<Outbound.Entry>, q': seq<Outbound.Entry>)
    requires Transmissions.AtMostOnce(q, q')
    ensures |q| == |q'| && forall i :: 0 <= i < |q| ==> q[i].sentCount <= q'[i].sentCount
  {
  }

  /** An entry that is still waiting has the count it had; one that left the outbound queue has one more. */
  lemma WaitingIsUncounted(s: Outbound.State, i: nat)
    requires i < |OutboundLaws.Queues(s)|
    ensures var s' := Outbound.TransmitOnce(s).state;
            var q, q' := OutboundLaws.Queues(s), OutboundLaws.Queues(s');
            && i < |q'| && |s.sent| <= |s'.sent|
            && (i >= |s'.sent| ==> q'[i].sentCount == q[i].sentCount)
            && (|s.sent| <= i < |s'.sent| ==> q'[i].sentCount == q[i].sentCount + 1)
  {
    hide Outbound.TransmitOnce;
    Transmissions.NewAreCounted(s);
    OutboundLaws.TransmitKeepsChunks(s);
  }

  lemma {:induction false} GapAckKeepsCounts(t: Outbound.Tally, seen: set<int>, highest: Option<int>, i: nat, newly: nat)
    requires i <= |t.sent|
    ensures var q := Outbound.GapAck(t, seen, highest, i, newly).0.sent;
            |q| == |t.sent| && forall j :: 0 <= j < |q| ==> q[j].sentCount == t.sent[j].sentCount
  {
    hide LossDetection.InReport;
    LossDetection.GapAckIsPointwise(t, seen, highest, i, newly);
  }

  lemma {:induction false} StrikeKeepsCounts(t: Outbound.Tally, seen: set<int>, newly: nat)
    ensures var q := Outbound.Strike(t, seen, newly, 0, false).0.sent;
            |q| == |t.sent| && forall j :: 0 <= j < |q| ==> q[j].sentCount == t.sent[j].sentCount
  {
    hide LossDetection.PassesOver;
    LossDetection.StrikeIsPointwise(t, seen, newly, 0, false);
  }

  lemma AcknowledgeKeepsCounts(sent: seq<Outbound.Entry>, flight: nat, k: Sack)
    ensures var a := Outbound.Acknowledge(sent, flight, k);
            && a.done <= |sent| && |a.tally.sent| == |sent| - a.done
            && forall i :: 0 <= i < |a.tally.sent| ==> a.tally.sent[i].sentCount == sent[i + a.done].sentCount
  {
    hide Outbound.CumAck, Outbound.GapAck, Outbound.Strike, Seen, Outbound.LastSeen;
    var t0 := Outbound.Tally(sent, flight, 0);
    OutboundLaws.CumAckDropsPrefix(t0, k.cum, 0);
    if k.gaps != [] {
      var t := Outbound.CumAck(t0, k.cum, 0).0;
      var seen := Seen(k.cum, k.gaps);
      GapAckKeepsCounts(t, seen, Outbound.LastSeen(k.cum, k.gaps), 0, k.cum);
      var (t1, newly) := Outbound.GapAck(t, seen, Outbound.LastSeen(k.cum, k.gaps), 0, k.cum);
      StrikeKeepsCounts(t1, seen, newly);
    }
  }

  /** A SACK drops a prefix of the sent queue and recounts nothing. */
  lemma SackKeepsCounts(s: Outbound.State, k: Sack) returns (n: nat)
    requires !Gt32(s.lastSacked, k.cum)
    ensures var s' := Outbound.ReceiveSack(s, k);
            && n <= |s.sent| && |s'.sent| == |s.sent| - n && s'.outbound == s.outbound
            && forall i :: 0 <= i < |s'.sent| ==>
                 s'.sent[i].chunk == s.sent[i + n].chunk && s'.sent[i].sentCount == s.sent[i + n].sentCount
  {
    hide Outbound.Acknowledge, Outbound.AdjustWindow, Outbound.CumAck, OutboundLaws.AckedFrom, Gte32;
    var a := Outbound.Acknowledge(s.sent, s.flight, k);
    OutboundLaws.AcknowledgeKeepsChunks(s.sent, s.flight, k);
    AcknowledgeKeepsCounts(s.sent, s.flight, k);
    OutboundLaws.AdjustKeepsQueues(s.(lastSacked := k.cum, sent := a.tally.sent, flight := a.tally.flight),
                                   s.flight >= s.cwnd, a, k.cum);
    n := a.done;
    forall i | 0 <= i < |a.tally.sent|
      ensures a.tally.sent[i].chunk == s.sent[i + n].chunk
    {
      assert s.sent[n..][i] == s.sent[i + n];
    }
  }

  lemma SackCounts(s: System, k: Sack, sofar: seq<Chunk>)
    requires Counts(s, sofar)
    ensures Counts(AfterSackDelivery(s, k), sofar)
  {
    hide Outbound.ReceiveSack, Counts;
    if Gt32(s.snd.lastSacked, k.cum) {
      IgnoredSack(s, k);
    } else {
      var n := SackKeepsCounts(s.snd, k);
      CountsOfSuffix(s, AfterSackDelivery(s, k), sofar, n);
    }
  }

  lemma SendCountsNothing(s: System, v: View, sid: nat, ppid: nat, data: seq<byte>, sofar: seq<Chunk>)
    requires Inv(s, v) && Counts(s, sofar) && s.snd.maxPayload > 0
    ensures Counts(AfterSend(s, sid, ppid, data), sofar)
  {
    hide Logged, StreamsOk, LayoutOk, Outbound.Split, AckedIsReceived;
    var s' := AfterSend(s, sid, ppid, data);
    var q, q' := s.snd.sent + s.snd.outbound, s'.snd.sent + s'.snd.outbound;
    forall c | c in sofar ensures c.serial < s.snd.nextSerial {
      assert DataOk(s, c);
    }
    forall i | 0 <= i < |q'|
      ensures q'[i].sentCount == Times(q'[i].chunk, sofar) && (q'[i].sentCount > 0 <==> i < |s'.snd.sent|)
    {
      if i < |q| {
        assert q'[i] == q[i];
      } else {
        assert q'[i].sentCount == 0 && q'[i].chunk.serial >= s.snd.nextSerial;
      }
    }
  }

  lemma StepCounts(s: System, v: View, step: Step, s': System, sofar: seq<Chunk>)
    requires Inv(s, v) && s.snd.maxPayload > 0 && Next(s, step, s') && Counts(s, sofar)
    ensures Counts(s', sofar + Handed(s, step))
  {
    hide Inv, AfterSend, AfterTransmission, AfterSackDelivery, Outbound.TransmitOnce, Outstanding, Counts, Inbound.ReceiveData,
      Fits, MakeSack;
    assert sofar + [] == sofar;
    match step
    case SendStep(sid, ppid, data) => SendCountsNothing(s, v, sid, ppid, data, sofar);
    case TransmitStep => TransmissionCounts(s, v, s.snd, sofar);
    case ExpiryStep => TransmissionCounts(s, v, Outbound.Expired(s.snd), sofar);
    case DeliverDataStep(chunk) => CountsOfSuffix(s, s', sofar, 0);
    case SackStep => CountsOfSuffix(s, s', sofar, 0);
    case DeliverSackStep(serial, sack) => SackCounts(s, sack, sofar);
  }

  lemma {:induction false} RunCounts(run: seq<System>, steps: seq<Step>, i: nat)
    requires IsRun(run, steps) && i < |run|
    ensures Counts(run[i], Transmitted(run, steps, i))
  {
    hide Next, Counts, Handed;
    if i == 0 {
      NothingCounted(run[0]);
    } else {
      RunCounts(run, steps, i - 1);
      var v := RunKeepsInv(run, steps, i - 1);
      StepCounts(run[i - 1], v, steps[i - 1], run[i], Transmitted(run, steps, i - 1));
    }
  }

  lemma NothingCounted(s: System)
    requires Init(s)
    ensures Counts(s, [])
  {
  }

  /**
   At every point of every run, the count kept on a chunk is exactly how often the chunk was handed to
   the network; chunks of the sent queue were sent, those of the outbound queue never were.
   */
  lemma SentCountIsTransmissions(run: seq<System>, steps: seq<Step>, i: nat, j: nat)
    requires IsRun(run, steps) && i < |run| && j < |run[i].snd.sent + run[i].snd.outbound|
    ensures var e := (run[i].snd.sent + run[i].snd.outbound)[j];
            && e.sentCount == Times(e.chunk, Transmitted(run, steps, i))
            && (e.sentCount > 0 <==> j < |run[i].snd.sent|)
            && (e.sentCount > 0 ==> DataPacket(e.chunk) in run[i].net)
  {
    hide IsRun;
    RunCounts(run, steps, i);
  }

  // What a SACK tells

  /** The receiver advertises what its buffers leave free. */
  ghost predicate WindowOk(s: System) {
    s.rcv.rwnd + Inbound.Buffered(s.rcv.streams) == Inbound.WINDOW
  }

  lemma DataKeepsWindow(s: System, v: View, chunk: Chunk)
    requires Inv(s, v) && WindowOk(s) && DataPacket(chunk) in s.net && s.cum - HALF32 < chunk.serial
    ensures WindowOk(AfterData(s, chunk))
  {
    hide StreamOk, Logged, LayoutOk, SenderOk, AckedIsReceived, SackOk, Tracks, IsDuplicate, Received, MarkReceived,
      Inbound.Buffered;
    assert DataOk(s, chunk);
    LoggedTsn(s.sent, chunk);
    var c', m' := DataTracked(s, v.m, chunk);
    if !IsDuplicate(s.rcv.tracker, chunk.tsn) {
      var i := NewDataIsInserted(s, v, chunk, c', m');
      Inbound.DataConserves(s.rcv, chunk, i);
    }
  }

  lemma NewDataIsInserted(s: System, v: View, chunk: Chunk, c': nat, m': set<nat>) returns (i: nat)
    requires StreamsOk(s, v) && Logged(s.sent, chunk) && !Received(s.cum, v.m, chunk.serial)
    requires forall u: nat :: Received(c', m', u) <==> Received(s.cum, v.m, u) || u == chunk.serial
    ensures var list := Inbound.StreamAt(s.rcv.streams, chunk.streamId).reassembly;
            i <= |list| && AddChunk(list, chunk) == Added(list[..i] + [chunk] + list[i..])
  {
    hide StreamInv, AddChunk, Pop, Received;
    var k: nat, j: nat :| IsFragment(s.sent, chunk, k, j);
    var sid := chunk.streamId;
    var st := Inbound.StreamAt(s.rcv.streams, sid);
    assert StreamOk(s, v, sid);
    var list, h' := FragmentReceived(st, HeldOn(v, sid), sid, SentOn(s.sent, sid), DeliveredOn(s.delivered, sid),
                                     s.snd.nextSerial, s.cum, v.m, k, j, c', m');
    assert chunk == Fragment(sid, k, SentOn(s.sent, sid)[k], j);
    i :| i <= |st.reassembly| && list == st.reassembly[..i] + [chunk] + st.reassembly[i..];
  }

  lemma StepKeepsWindow(s: System, v: View, step: Step, s': System)
    requires Inv(s, v) && WindowOk(s) && s.snd.maxPayload > 0 && Next(s, step, s')
    ensures WindowOk(s')
  {
    hide Inv, AfterData, Outbound.TransmitOnce, Outbound.Timer3Expired, Outbound.ReceiveSack, Outbound.Send, Outstanding,
      Fits, MakeSack, Inbound.Buffered;
    if step.DeliverDataStep? {
      DataKeepsWindow(s, v, step.chunk);
    }
  }

  /** In every run the advertised window and the bytes buffered on all streams add up to 1 MiB. */
  lemma {:induction false} WindowIsFreeSpace(run: seq<System>, steps: seq<Step>, i: nat)
    requires IsRun(run, steps) && i < |run|
    ensures WindowOk(run[i])
  {
    hide Next;
    if i > 0 {
      WindowIsFreeSpace(run, steps, i - 1);
      var v := RunKeepsInv(run, steps, i - 1);
      StepKeepsWindow(run[i - 1], v, steps[i - 1], run[i]);
    }
  }

  /** The SACK was built at point `j` of the run. */
  ghost predicate BuiltAt(run: seq<System>, steps: seq<Step>, serial: nat, k: Sack, j: nat) {
    && j < |steps| && j < |run| && steps[j].SackStep? && serial == run[j].cum && k == MakeSack(run[j].rcv) && Fits(k)
  }

  lemma {:induction false} SackWasBuilt(run: seq<System>, steps: seq<Step>, i: nat, serial: nat, k: Sack) returns (j: nat)
    requires IsRun(run, steps) && i < |run| && SackPacket(serial, k) in run[i].net
    ensures j < i && BuiltAt(run, steps, serial, k, j)
    decreases i
  {
    hide MakeSack, Fits, Outstanding, Outbound.TransmitOnce, Outbound.Timer3Expired, Outbound.ReceiveSack, Outbound.Send,
      Inbound.ReceiveData;
    assert i > 0;
    assert Next(run[i - 1], steps[i - 1], run[i]);
    if SackPacket(serial, k) in run[i - 1].net {
      j := SackWasBuilt(run, steps, i - 1, serial, k);
    } else {
      j := i - 1;
    }
  }

  /** The SACK says of every TSN in front of the receiver whether it was received, and how much room is left. */
  ghost predicate Truthful(s: System, k: Sack) {
    && k.cum == s.cum % MOD32
    && k.rwnd == Outbound.Floor(Inbound.WINDOW - Inbound.Buffered(s.rcv.streams))
    && k.duplicates == s.rcv.tracker.duplicates
    && forall u: nat :: s.cum < u < s.cum + HALF32 ==> (u % MOD32 in Seen(k.cum, k.gaps) <==> HasReceived(s, u))
  }

  /** Every SACK on the network is the whole truth about the receiver at the point where it was built. */
  lemma EverySackIsTruthful(run: seq<System>, steps: seq<Step>, i: nat, serial: nat, k: Sack) returns (j: nat)
    requires IsRun(run, steps) && i < |run| && SackPacket(serial, k) in run[i].net
    ensures j < i && steps[j].SackStep? && serial == run[j].cum && Truthful(run[j], k)
  {
    hide Next, Init, Inbound.Buffered, Fits, Seen, SenderOk, AckedIsReceived, LayoutOk, NetOk, StreamsOk;
    j := SackWasBuilt(run, steps, i, serial, k);
    var v := RunKeepsInv(run, steps, j);
    WindowIsFreeSpace(run, steps, j);
    var t := run[j].rcv.tracker;
    GapsRoundTrip(t, run[j].cum, v.m, JsSort(t.misordered), k.rwnd);
  }

  // The sender's idea of the window

  /** The window of the sender is the room the receiver had when it built some SACK, or that of the handshake. */
  ghost predicate KnownWindow(run: seq<System>, steps: seq<Step>, i: nat, w: nat)
    requires |run| == |steps| + 1 && i < |run|
  {
    || w == run[0].snd.peerWindow
    || exists j: nat :: j < i && steps[j].SackStep? &&
         w == Outbound.Floor(Inbound.WINDOW - Inbound.Buffered(run[j].rcv.streams))
  }

  lemma StepMovesPeerWindow(s: System, step: Step, s': System)
    requires s.snd.maxPayload > 0 && Next(s, step, s')
    ensures s'.snd.peerWindow == s.snd.peerWindow || (step.DeliverSackStep? && s'.snd.peerWindow == step.sack.rwnd)
  {
    hide Outbound.TransmitOnce, Inbound.ReceiveData, Fits, MakeSack, Outstanding, Outbound.Acknowledge, Outbound.AdjustWindow,
      Outbound.Split;
    match step
    case TransmitStep => OutboundLaws.TransmitKeepsChunks(s.snd);
    case ExpiryStep => OutboundLaws.TransmitKeepsChunks(Outbound.Expired(s.snd));
    case _ =>
  }

  /** End-to-end flow control: the window new DATA is held to is room the receiver really had. */
  lemma {:induction false} PeerWindowIsFreeSpace(run: seq<System>, steps: seq<Step>, i: nat)
    requires IsRun(run, steps) && i < |run|
    ensures KnownWindow(run, steps, i, run[i].snd.peerWindow)
    decreases i
  {
    hide Next, Init, Inbound.Buffered;
    if i > 0 {
      PeerWindowIsFreeSpace(run, steps, i - 1);
      var s, step := run[i - 1], steps[i - 1];
      StepMovesPeerWindow(s, step, run[i]);
      if run[i].snd.peerWindow != s.snd.peerWindow {
        DeliveredWasSent(s, step, run[i]);
        var j := EverySackIsTruthful(run, steps, i - 1, step.serial, step.sack);
      }
    }
  }

  lemma DeliveredWasSent(s: System, step: Step, s': System)
    requires s.snd.maxPayload > 0 && Next(s, step, s') && step.DeliverSackStep?
    ensures SackPacket(step.serial, step.sack) in s.net
  {
  }

  // When a SACK is owed

  /** DATA arrived after the last SACK. */
  function Owes(steps: seq<Step>, i: nat): bool
    requires i <= |steps|
  {
    if i == 0 then false
    else match steps[i - 1]
      case DeliverDataStep(_) => true
      case SackStep => false
      case _ => Owes(steps, i - 1)
  }

  lemma StepOwes(s: System, step: Step, s': System)
    requires s.snd.maxPayload > 0 && Next(s, step, s')
    ensures s'.rcv.sackNeeded <==> step.DeliverDataStep? || (!step.SackStep? && s.rcv.sackNeeded)
  {
    hide Outbound.TransmitOnce, Outbound.Timer3Expired, Outbound.ReceiveSack, Outbound.Send, Fits, MakeSack, Outstanding,
      MarkReceived, AddChunk, Pop;
  }

  /** At every point of every run a SACK is due if and only if DATA, new or duplicate, arrived after the last one. */
  lemma {:induction false} SackIsOwedIff(run: seq<System>, steps: seq<Step>, i: nat)
    requires IsRun(run, steps) && i < |run|
    ensures run[i].rcv.sackNeeded <==> Owes(steps, i)
  {
    hide Next;
    if i > 0 {
      SackIsOwedIff(run, steps, i - 1);
      StepOwes(run[i - 1], steps[i - 1], run[i]);
    }
  }

  // The point a FORWARD-TSN would name

  lemma SackMovesAdvanced(s: System, v: View, serial: nat, k: Sack)
    requires Inv(s, v) && SackPacket(serial, k) in s.net && s.acked - HALF32 < serial
    requires s.snd.advanced == s.snd.lastSacked
    ensures var snd := Outbound.ReceiveSack(s.snd, k); snd.advanced == snd.lastSacked
  {
    hide Seen, Outbound.Acknowledge, Logged, StreamsOk, LayoutOk, AckedIsReceived, Outbound.AdjustWindow, OutboundLaws.SameChunks;
    assert SackOk(s, v.m, serial, k);
    SackAdvances(s, v.m, serial, k);
    if serial >= s.acked {
      assert Received(s.cum, v.m, serial);
      Gt32IsVirtualOrder(serial, s.acked);
      var a := Outbound.Acknowledge(s.snd.sent, s.snd.flight, k);
      OutboundLaws.AdjustKeepsQueues(s.snd.(lastSacked := k.cum, sent := a.tally.sent, flight := a.tally.flight),
                                     s.snd.flight >= s.snd.cwnd, a, k.cum);
    }
  }

  lemma StepMovesAdvanced(s: System, v: View, step: Step, s': System)
    requires Inv(s, v) && s.snd.maxPayload > 0 && Next(s, step, s') && s.snd.advanced == s.snd.lastSacked
    ensures s'.snd.advanced == s'.snd.lastSacked
  {
    hide Inv, Outbound.TransmitOnce, Inbound.ReceiveData, Fits, MakeSack, Outstanding, Outbound.ReceiveSack, Outbound.Split;
    match step
    case TransmitStep => OutboundLaws.TransmitKeepsChunks(s.snd);
    case ExpiryStep => OutboundLaws.TransmitKeepsChunks(Outbound.Expired(s.snd));
    case DeliverSackStep(serial, k) => SackMovesAdvanced(s, v, serial, k);
    case _ =>
  }

  /** While nothing is abandoned, `advancedPeerAckTsn` is the last TSN acknowledged cumulatively. */
  lemma {:induction false} AdvancedIsSacked(run: seq<System>, steps: seq<Step>, i: nat)
    requires IsRun(run, steps) && i < |run|
    ensures run[i].snd.advanced == run[i].snd.lastSacked
  {
    hide Next;
    if i > 0 {
      AdvancedIsSacked(run, steps, i - 1);
      var v := RunKeepsInv(run, steps, i - 1);
      StepMovesAdvanced(run[i - 1], v, steps[i - 1], run[i]);
    }
  }
}
