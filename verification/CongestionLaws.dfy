/**
 The congestion window over runs (section 7.2 of RFC 9260): how far one SACK moves it, that a
 loss reduces it once per recovery, and that it never falls below one payload
 (packages/sctp/src/sctp.ts:746-771, 1197-1221).
 */
module CongestionLaws {
  import opened SerialNumbers
  import opened Wrappers
  import opened Reassembly
  import opened Sacks
  import opened Outbound
  import opened OutboundLaws
  import FlightLaws
  import LossDetection

  predicate SameWindow(s: State, s': State) {
    && s'.cwnd == s.cwnd && s'.ssthresh == s.ssthresh && s'.partialAcked == s.partialAcked
    && s'.recoveryExit == s.recoveryExit && s'.maxPayload == s.maxPayload
  }

  lemma {:induction false} RetransmitKeepsWindow(s: State, window: nat, i: nat, packets: seq<Chunk>)
    requires i <= |s.sent|
    ensures SameWindow(s, Retransmit(s, window, i, packets).state)
    decreases |s.sent| - i
  {
    if i < |s.sent| {
      if !s.sent[i].retransmit {
        RetransmitKeepsWindow(s, window, i + 1, packets);
      } else if s.recoveryTransmit || s.flight < window {
        RetransmitKeepsWindow(Resent(s, i), window, i + 1, packets + [s.sent[i].chunk]);
      }
    }
  }

  lemma {:induction false} DrainKeepsWindow(s: State, window: nat, packets: seq<Chunk>)
    ensures SameWindow(s, Drain(s, window, packets).state)
    decreases |s.outbound|
  {
    if MayDrain(s, window) {
      DrainKeepsWindow(Drained(s), window, packets + [s.outbound[0].chunk]);
    }
  }

  /** Sending never moves the window. */
  lemma TransmitKeepsWindow(s: State)
    ensures SameWindow(s, TransmitOnce(s).state)
  {
    hide Retransmit, Drain;
    var r := Retransmit(s, BurstWindow(s), 0, []);
    RetransmitKeepsWindow(s, BurstWindow(s), 0, []);
    DrainKeepsWindow(r.state, BurstWindow(s), r.packets);
  }

  // One SACK

  /** The state whose window is adjusted: acknowledged, and the window still as it was. */
  function AfterAcks(s: State, k: Sack): State {
    var a := Acknowledge(s.sent, s.flight, k);
    s.(lastSacked := k.cum, sent := a.tally.sent, flight := a.tally.flight)
  }

  lemma SackAdjusts(s: State, k: Sack)
    requires !Gt32(s.lastSacked, k.cum)
    ensures SameWindow(AdjustWindow(AfterAcks(s, k), s.flight >= s.cwnd, Acknowledge(s.sent, s.flight, k), k.cum),
                       ReceiveSack(s, k))
  {
    hide Acknowledge, AdjustWindow;
  }

  lemma {:induction false} CumAckCountsBytes(t: Tally, cum: nat, done: nat)
    ensures var t' := CumAck(t, cum, done).0;
            t'.bytes + FlightLaws.Unacked(t'.sent) == t.bytes + FlightLaws.Unacked(t.sent)
    decreases |t.sent|
  {
    if t.sent != [] && Gte32(cum, t.sent[0].chunk.tsn) {
      CumAckCountsBytes(Dropped(t), cum, done + 1);
    }
  }

  lemma {:induction false} GapAckCountsBytes(t: Tally, seen: set<int>, highest: Option<int>, i: nat, newly: nat)
    requires i <= |t.sent|
    ensures var t' := GapAck(t, seen, highest, i, newly).0;
            t'.bytes + FlightLaws.Unacked(t'.sent) == t.bytes + FlightLaws.Unacked(t.sent)
    decreases |t.sent| - i
  {
    if i < |t.sent| && !Beyond(t.sent[i].chunk.tsn, highest) {
      if t.sent[i].chunk.tsn in seen && !t.sent[i].acked {
        FlightLaws.UnackedUpdate(t.sent, i, t.sent[i].(acked := true));
        GapAckCountsBytes(Acked(t, i), seen, highest, i + 1, t.sent[i].chunk.tsn);
      } else {
        GapAckCountsBytes(t, seen, highest, i + 1, newly);
      }
    }
  }

  /** Strikes acknowledge nothing, and until one is a loss they take no acknowledgement back. */
  lemma {:induction false} StrikeCountsBytes(t: Tally, seen: set<int>, newly: nat, i: nat, loss: bool)
    requires i <= |t.sent|
    ensures var (t', l) := Strike(t, seen, newly, i, loss);
            && t'.bytes == t.bytes && (loss ==> l) && (l && !loss ==> t.sent != [])
            && (!l ==> FlightLaws.Unacked(t'.sent) == FlightLaws.Unacked(t.sent))
    decreases |t.sent| - i
  {
    if i < |t.sent| && !Gt32(t.sent[i].chunk.tsn, newly) {
      if t.sent[i].chunk.tsn in seen {
        StrikeCountsBytes(t, seen, newly, i + 1, loss);
      } else {
        FlightLaws.UnackedUpdate(t.sent, i, t.sent[i].(misses := t.sent[i].misses + 1));
        StrikeCountsBytes(Struck(t, i), seen, newly, i + 1, loss || t.sent[i].misses == 2);
      }
    }
  }

  /** Without a loss the bytes a SACK counts are those it newly acknowledges. */
  lemma AcknowledgeCountsBytes(sent: seq<Entry>, flight: nat, k: Sack)
    ensures var a := Acknowledge(sent, flight, k);
            && (a.loss ==> a.tally.sent != [])
            && (!a.loss ==> a.tally.bytes + FlightLaws.Unacked(a.tally.sent) == FlightLaws.Unacked(sent))
            && a.done == |sent| - |a.tally.sent|
  {
    hide CumAck, GapAck, Strike, FlightLaws.Unacked, Seen, LastSeen;
    var t0 := Tally(sent, flight, 0);
    CumAckCountsBytes(t0, k.cum, 0);
    CumAckDropsPrefix(t0, k.cum, 0);
    var t := CumAck(t0, k.cum, 0).0;
    if k.gaps != [] {
      var seen, highest := Seen(k.cum, k.gaps), LastSeen(k.cum, k.gaps);
      GapAckCountsBytes(t, seen, highest, 0, k.cum);
      GapAckKeepsChunks(t, seen, highest, 0, k.cum);
      var (t1, newly) := GapAck(t, seen, highest, 0, k.cum);
      StrikeCountsBytes(t1, seen, newly, 0, false);
      StrikeKeepsChunks(t1, seen, newly, 0, false);
    }
  }

  /** The bytes acknowledged between two queues. */
  function NewlyAcked(s: State, s': State): int {
    FlightLaws.Unacked(s.sent) - FlightLaws.Unacked(s'.sent)
  }

  /**
   How a SACK without a loss grows the window: only if the window was full and chunks left the queue;
   in slow start by the bytes it newly acknowledges, up to a payload; above the threshold by a
   payload for every window's worth of them.
   */
  lemma SackGrowsTheWindow(s: State, k: Sack)
    requires !Gt32(s.lastSacked, k.cum) && s.recoveryExit.None? && ReceiveSack(s, k).recoveryExit.None?
    ensures var s' := ReceiveSack(s, k);
            var n := NewlyAcked(s, s');
            && n >= 0 && s'.ssthresh == s.ssthresh
            && if s.flight < s.cwnd || |s'.sent| == |s.sent| then s'.cwnd == s.cwnd && s'.partialAcked == s.partialAcked
               else if s.cwnd <= s.ssthresh then
                 s'.cwnd == s.cwnd + (if n < s.maxPayload then n else s.maxPayload) && s'.partialAcked == s.partialAcked
               else if s.partialAcked + n >= s.cwnd then
                 s'.cwnd == s.cwnd + s.maxPayload && s'.partialAcked == s.partialAcked + n - s.cwnd
               else s'.cwnd == s.cwnd && s'.partialAcked == s.partialAcked + n
  {
    hide Acknowledge, ReceiveSack, FlightLaws.Unacked;
    SackAdjusts(s, k);
    SackKeepsSent(s, k);
    AcknowledgeCountsBytes(s.sent, s.flight, k);
  }

  /** A loss halves the window, but not below four payloads, and opens a recovery up to the last TSN sent. */
  lemma LossHalvesTheWindow(s: State, k: Sack)
    requires !Gt32(s.lastSacked, k.cum) && s.recoveryExit.None? && ReceiveSack(s, k).recoveryExit.Some?
    ensures var s' := ReceiveSack(s, k);
            && s'.cwnd == s'.ssthresh && s'.partialAcked == 0
            && 4 * s.maxPayload <= s'.cwnd && (s'.cwnd == 4 * s.maxPayload || 2 * s'.cwnd <= s.cwnd + s.maxPayload)
            && s.cwnd / 2 <= s'.cwnd
            && s'.sent != [] && s'.recoveryExit == Some(s'.sent[|s'.sent| - 1].chunk.tsn)
  {
    hide Acknowledge, ReceiveSack;
    SackAdjusts(s, k);
    SackKeepsSent(s, k);
  }

  /** Outside a recovery a SACK opens one if and only if it passes over some chunk of the queue for the third time. */
  lemma RecoveryOpensIff(s: State, k: Sack, v: nat, c: nat)
    requires LossDetection.InSequence(s.sent, v) && 0 < v <= c + 1 && c < v + |s.sent| && k.cum == c % MOD32
    requires !Gt32(s.lastSacked, k.cum) && s.recoveryExit.None?
    ensures var q := s.sent[c + 1 - v..];
            ReceiveSack(s, k).recoveryExit.Some? <==>
            exists j: nat :: j < |q| && LossDetection.Missed(q, k, j) && q[j].misses == 2
  {
    hide Acknowledge, ReceiveSack, LossDetection.Missed, LossDetection.AfterSack, FlightLaws.Unacked;
    SackAdjusts(s, k);
    AcknowledgeCountsBytes(s.sent, s.flight, k);
    LossDetection.SackIsPointwise(s.sent, s.flight, k, v, c);
  }

  lemma SackKeepsSent(s: State, k: Sack)
    requires !Gt32(s.lastSacked, k.cum)
    ensures ReceiveSack(s, k).sent == AfterAcks(s, k).sent
  {
    hide Acknowledge, AdjustWindow;
    AdjustKeepsQueues(AfterAcks(s, k), s.flight >= s.cwnd, Acknowledge(s.sent, s.flight, k), k.cum);
  }

  /** An expiry of T3 ends any recovery and starts over with one payload, in slow start up to half the window. */
  lemma ExpiryRestartsSlowStart(s: State)
    ensures var s' := Timer3Expired(s).state;
            && s'.cwnd == s.maxPayload <= s'.ssthresh && s'.partialAcked == 0 && s'.recoveryExit.None?
            && (s'.ssthresh == 4 * s.maxPayload || s'.ssthresh == s.cwnd / 2)
            && s'.ssthresh >= 4 * s.maxPayload && s'.ssthresh >= s.cwnd / 2
  {
    hide TransmitOnce;
    TransmitKeepsWindow(Expired(s));
  }

  // Runs

  /** The event neither acknowledges `exit` nor is the expiry of T3. */
  predicate Within(e: Event, exit: nat) {
    match e
    case SackEvent(k) => !Gte32(k.cum, exit)
    case ExpiryEvent => false
    case _ => true
  }

  /** However many losses are seen, the window is reduced once per recovery. */
  lemma {:induction false} OneReductionPerRecovery(s: State, es: seq<Event>)
    requires s.maxPayload > 0 && s.recoveryExit.Some?
    requires forall i :: 0 <= i < |es| ==> Within(es[i], s.recoveryExit.value)
    ensures SameWindow(s, Execute(s, es))
    decreases |es|
  {
    hide TransmitOnce, ReceiveSack;
    if es != [] {
      match es[0] {
        case SendEvent(_, _, _, _) =>
        case TransmitEvent => TransmitKeepsWindow(s);
        case SackEvent(k) => SackInRecovery(s, k);
        case ExpiryEvent =>
      }
      OneReductionPerRecovery(Step(s, es[0]), es[1..]);
    }
  }

  /** And the recovery ends with the first SACK that acknowledges its last TSN, which leaves the window as it was. */
  lemma RecoveryEndsAtItsExit(s: State, es: seq<Event>, k: Sack)
    requires s.maxPayload > 0 && s.recoveryExit.Some?
    requires forall i :: 0 <= i < |es| ==> Within(es[i], s.recoveryExit.value)
    requires !Gt32(Execute(s, es).lastSacked, k.cum)
    ensures var s' := ReceiveSack(Execute(s, es), k);
            && s'.cwnd == s.cwnd && s'.ssthresh == s.ssthresh
            && (s'.recoveryExit.None? <==> Gte32(k.cum, s.recoveryExit.value))
  {
    hide Execute, ReceiveSack;
    OneReductionPerRecovery(s, es);
    SackInRecovery(Execute(s, es), k);
  }

  lemma SackInRecovery(s: State, k: Sack)
    requires s.recoveryExit.Some?
    ensures var s' := ReceiveSack(s, k);
            SameWindow(s.(recoveryExit := s'.recoveryExit), s')
    ensures ReceiveSack(s, k).recoveryExit ==
            if !Gt32(s.lastSacked, k.cum) && Gte32(k.cum, s.recoveryExit.value) then None else s.recoveryExit
  {
    hide Acknowledge;
    if !Gt32(s.lastSacked, k.cum) {
      SackAdjusts(s, k);
    }
  }

  function SackCount(es: seq<Event>): nat {
    if es == [] then 0 else (if es[0].SackEvent? then 1 else 0) + SackCount(es[1..])
  }

  lemma StepGrowsTheWindow(s: State, e: Event)
    requires s.maxPayload > 0
    ensures Step(s, e).cwnd <= Max(s.cwnd, 4 * s.maxPayload) + if e.SackEvent? then s.maxPayload else 0
  {
    hide TransmitOnce, ReceiveSack;
    match e
    case SendEvent(_, _, _, _) =>
    case TransmitEvent => TransmitKeepsWindow(s);
    case SackEvent(k) => SackMovesTheWindow(s, k);
    case ExpiryEvent => TransmitKeepsWindow(Expired(s));
  }

  lemma SackMovesTheWindow(s: State, k: Sack)
    requires s.maxPayload > 0
    ensures ReceiveSack(s, k).cwnd <= Max(s.cwnd, 4 * s.maxPayload) + s.maxPayload
  {
    hide Acknowledge, AdjustWindow;
    if !Gt32(s.lastSacked, k.cum) {
      if s.recoveryExit.Some? {
        SackInRecovery(s, k);
      } else if ReceiveSack(s, k).recoveryExit.None? {
        SackGrowsTheWindow(s, k);
      } else {
        LossHalvesTheWindow(s, k);
      }
    }
  }

  /** In every run the window grows by at most one payload per SACK, above four payloads. */
  lemma {:induction false} GrowthIsBounded(s: State, es: seq<Event>)
    requires s.maxPayload > 0
    ensures Execute(s, es).cwnd <= Max(s.cwnd, 4 * s.maxPayload) + s.maxPayload * SackCount(es)
    decreases |es|
  {
    hide Step;
    if es != [] {
      StepGrowsTheWindow(s, es[0]);
      GrowthIsBounded(Step(s, es[0]), es[1..]);
      var n := SackCount(es[1..]);
      assert s.maxPayload * (n + 1) == s.maxPayload * n + s.maxPayload;
    }
  }

  lemma StepKeepsFloor(s: State, e: Event)
    requires s.maxPayload > 0 && s.cwnd >= s.maxPayload
    ensures Step(s, e).cwnd >= s.maxPayload
  {
    hide TransmitOnce, Acknowledge;
    match e
    case SendEvent(_, _, _, _) =>
    case TransmitEvent => TransmitKeepsWindow(s);
    case SackEvent(k) =>
      if !Gt32(s.lastSacked, k.cum) {
        SackAdjusts(s, k);
      }
    case ExpiryEvent => TransmitKeepsWindow(Expired(s));
  }

  /** In every run at least one full chunk may be sent. */
  lemma {:induction false} WindowKeepsOnePayload(s: State, es: seq<Event>)
    requires s.maxPayload > 0 && s.cwnd >= s.maxPayload
    ensures Execute(s, es).cwnd >= s.maxPayload
    decreases |es|
  {
    if es != [] {
      StepKeepsFloor(s, es[0]);
      WindowKeepsOnePayload(Step(s, es[0]), es[1..]);
    }
  }
}
