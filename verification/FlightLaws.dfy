/**
 Flight-size accounting and the transmission windows of the outbound half
 (packages/sctp/src/sctp.ts:152-155, 686-724, 999-1055, 1104-1110; section 6.1 of RFC 9260).
 */
module FlightLaws {
  import opened SerialNumbers
  import opened Wrappers
  import opened Reassembly
  import opened Sacks
  import opened Outbound
  import opened OutboundLaws

  /** The bytes of the chunks not yet acknowledged. */
  function Unacked(q: seq<Entry>): nat {
    if q == [] then 0 else (if q[0].acked then 0 else BookSize(q[0])) + Unacked(q[1..])
  }

  lemma {:induction false} UnackedAppend(q: seq<Entry>, e: Entry)
    ensures Unacked(q + [e]) == Unacked(q) + (if e.acked then 0 else BookSize(e))
  {
    if q == [] {
      assert q + [e] == [e];
    } else {
      assert (q + [e])[1..] == q[1..] + [e];
      UnackedAppend(q[1..], e);
    }
  }

  lemma {:induction false} UnackedUpdate(q: seq<Entry>, i: nat, e: Entry)
    requires i < |q|
    ensures Unacked(q[i := e]) + (if q[i].acked then 0 else BookSize(q[i])) ==
            Unacked(q) + (if e.acked then 0 else BookSize(e))
  {
    if i == 0 {
      assert q[0 := e][1..] == q[1..];
    } else {
      assert q[i := e][1..] == q[1..][i - 1 := e];
      UnackedUpdate(q[1..], i - 1, e);
    }
  }

  predicate Fresh(q: seq<Entry>) {
    forall i :: 0 <= i < |q| ==> !q[i].acked && !q[i].retransmit
  }

  predicate Unmarked(q: seq<Entry>) {
    forall i :: 0 <= i < |q| ==> !q[i].retransmit
  }

  /** The bytes in flight: sent, not acknowledged, and not waiting to be sent again. */
  function InFlight(q: seq<Entry>): nat {
    if q == [] then 0 else (if !q[0].retransmit && !q[0].acked then BookSize(q[0]) else 0) + InFlight(q[1..])
  }

  /** While nothing waits to be sent again these are the unacknowledged bytes. */
  lemma {:induction false} UnmarkedInFlight(q: seq<Entry>)
    requires Unmarked(q)
    ensures InFlight(q) == Unacked(q)
  {
    if q != [] {
      UnmarkedInFlight(q[1..]);
    }
  }

  /** The counter is exact. */
  ghost predicate Exact(q: seq<Entry>, flight: nat) {
    Unmarked(q) && flight == Unacked(q)
  }

  lemma {:induction false} CumAckIsExact(t: Tally, cum: nat, done: nat)
    requires Exact(t.sent, t.flight)
    ensures var t' := CumAck(t, cum, done).0; Exact(t'.sent, t'.flight)
    decreases |t.sent|
  {
    if t.sent != [] && Gte32(cum, t.sent[0].chunk.tsn) {
      CumAckIsExact(Dropped(t), cum, done + 1);
    }
  }

  lemma {:induction false} GapAckIsExact(t: Tally, seen: set<int>, highest: Option<int>, i: nat, newly: nat)
    requires i <= |t.sent| && Exact(t.sent, t.flight)
    ensures var t' := GapAck(t, seen, highest, i, newly).0; Exact(t'.sent, t'.flight)
    decreases |t.sent| - i
  {
    if i < |t.sent| && !Beyond(t.sent[i].chunk.tsn, highest) {
      if t.sent[i].chunk.tsn in seen && !t.sent[i].acked {
        UnackedUpdate(t.sent, i, t.sent[i].(acked := true));
        GapAckIsExact(Acked(t, i), seen, highest, i + 1, t.sent[i].chunk.tsn);
      } else {
        GapAckIsExact(t, seen, highest, i + 1, newly);
      }
    }
  }

  /** Strikes keep the counter exact until one of them declares a loss. */
  lemma {:induction false} StrikeIsExact(t: Tally, seen: set<int>, newly: nat, i: nat, loss: bool)
    requires i <= |t.sent| && (!loss ==> Exact(t.sent, t.flight))
    ensures var (t', l) := Strike(t, seen, newly, i, loss);
            (loss ==> l) && (!l ==> Exact(t'.sent, t'.flight))
    decreases |t.sent| - i
  {
    if i < |t.sent| && !Gt32(t.sent[i].chunk.tsn, newly) {
      if t.sent[i].chunk.tsn in seen {
        StrikeIsExact(t, seen, newly, i + 1, loss);
      } else {
        UnackedUpdate(t.sent, i, t.sent[i].(misses := t.sent[i].misses + 1));
        StrikeIsExact(Struck(t, i), seen, newly, i + 1, loss || t.sent[i].misses == 2);
      }
    }
  }

  lemma AcknowledgeIsExact(sent: seq<Entry>, flight: nat, k: Sack)
    requires Exact(sent, flight)
    ensures var a := Acknowledge(sent, flight, k); !a.loss ==> Exact(a.tally.sent, a.tally.flight)
  {
    var t0 := Tally(sent, flight, 0);
    CumAckIsExact(t0, k.cum, 0);
    if k.gaps != [] {
      var t := CumAck(t0, k.cum, 0).0;
      var seen := Seen(k.cum, k.gaps);
      GapAckIsExact(t, seen, LastSeen(k.cum, k.gaps), 0, k.cum);
      var (t1, newly) := GapAck(t, seen, LastSeen(k.cum, k.gaps), 0, k.cum);
      StrikeIsExact(t1, seen, newly, 0, false);
    }
  }

  lemma {:induction false} UnmarkedIsNotResent(s: State, window: nat, i: nat, packets: seq<Chunk>)
    requires i <= |s.sent| && Unmarked(s.sent)
    ensures Retransmit(s, window, i, packets) == Transmission(s, packets)
    decreases |s.sent| - i
  {
    if i < |s.sent| {
      UnmarkedIsNotResent(s, window, i + 1, packets);
    }
  }

  lemma {:induction false} DrainIsExact(s: State, window: nat, packets: seq<Chunk>)
    requires Exact(s.sent, s.flight) && Fresh(s.outbound)
    ensures var r := Drain(s, window, packets); Exact(r.state.sent, r.state.flight) && Fresh(r.state.outbound)
    decreases |s.outbound|
  {
    if MayDrain(s, window) {
      var e := s.outbound[0];
      UnackedAppend(s.sent, e.(sentCount := e.sentCount + 1));
      DrainIsExact(Drained(s), window, packets + [e.chunk]);
    }
  }

  /** A run, and whether any chunk of it was ever marked for retransmission. */
  datatype Run = Run(s: State, marked: bool)

  function Marks(s: State, e: Event): bool {
    match e
    case SackEvent(k) => !Gt32(s.lastSacked, k.cum) && Acknowledge(s.sent, s.flight, k).loss
    case ExpiryEvent => s.sent != []
    case _ => false
  }

  function RunStep(r: Run, e: Event): (r': Run)
    requires r.s.maxPayload > 0
    ensures r'.s.maxPayload == r.s.maxPayload
  {
    Run(Step(r.s, e), r.marked || Marks(r.s, e))
  }

  function RunAll(r: Run, es: seq<Event>): Run
    requires r.s.maxPayload > 0
    decreases |es|
  {
    if es == [] then r else RunAll(RunStep(r, es[0]), es[1..])
  }

  ghost predicate Counted(r: Run) {
    Fresh(r.s.outbound) && (!r.marked ==> Exact(r.s.sent, r.s.flight))
  }

  lemma TransmitIsCounted(s: State)
    requires Exact(s.sent, s.flight) && Fresh(s.outbound)
    ensures var s' := TransmitOnce(s).state; Exact(s'.sent, s'.flight)
  {
    UnmarkedIsNotResent(s, BurstWindow(s), 0, []);
    DrainIsExact(s, BurstWindow(s), []);
  }

  lemma StepIsCounted(r: Run, e: Event)
    requires r.s.maxPayload > 0 && Counted(r)
    ensures Counted(RunStep(r, e))
  {
    match e
    case SendEvent(sid, ppid, data, ordered) =>
    case TransmitEvent =>
      TransmitKeepsChunks(r.s);
      if !r.marked {
        TransmitIsCounted(r.s);
      }
    case SackEvent(k) =>
      if !Gt32(r.s.lastSacked, k.cum) {
        var a := Acknowledge(r.s.sent, r.s.flight, k);
        var s1 := r.s.(lastSacked := k.cum, sent := a.tally.sent, flight := a.tally.flight);
        AdjustKeepsQueues(s1, r.s.flight >= r.s.cwnd, a, k.cum);
        if !r.marked {
          AcknowledgeIsExact(r.s.sent, r.s.flight, k);
        }
      }
    case ExpiryEvent =>
      TransmitKeepsChunks(Expired(r.s));
      if !r.marked && r.s.sent == [] {
        TransmitIsCounted(Expired(r.s));
      }
  }

  /**
   In every run, until a chunk is first marked for retransmission, the flight size is exactly
   the number of bytes in flight; the floor at zero never hides an error.
   */
  lemma {:induction false} FlightIsExactUntilMarked(r: Run, es: seq<Event>)
    requires r.s.maxPayload > 0 && Counted(r)
    ensures var r' := RunAll(r, es); !r'.marked ==> r'.s.flight == InFlight(r'.s.sent)
    decreases |es|
  {
    if es == [] {
      if !r.marked {
        UnmarkedInFlight(r.s.sent);
      }
    } else {
      StepIsCounted(r, es[0]);
      FlightIsExactUntilMarked(RunStep(r, es[0]), es[1..]);
    }
  }

  // After an expiry of T3

  /** The bytes of the entries not marked for retransmission. */
  function CountedBytes(q: seq<Entry>): nat {
    if q == [] then 0 else (if q[0].retransmit then 0 else BookSize(q[0])) + CountedBytes(q[1..])
  }

  /** Of these, the bytes that the peer has acknowledged. */
  function LeakedBytes(q: seq<Entry>): nat {
    if q == [] then 0 else (if !q[0].retransmit && q[0].acked then BookSize(q[0]) else 0) + LeakedBytes(q[1..])
  }

  lemma {:induction false} CountedSplits(q: seq<Entry>)
    ensures CountedBytes(q) == InFlight(q) + LeakedBytes(q)
  {
    if q != [] {
      CountedSplits(q[1..]);
    }
  }

  lemma {:induction false} CountedAppend(q: seq<Entry>, e: Entry)
    ensures CountedBytes(q + [e]) == CountedBytes(q) + (if e.retransmit then 0 else BookSize(e))
  {
    if q == [] {
      assert q + [e] == [e];
    } else {
      assert (q + [e])[1..] == q[1..] + [e];
      CountedAppend(q[1..], e);
    }
  }

  lemma {:induction false} CountedUpdate(q: seq<Entry>, i: nat, e: Entry)
    requires i < |q|
    ensures CountedBytes(q[i := e]) + (if q[i].retransmit then 0 else BookSize(q[i])) ==
            CountedBytes(q) + (if e.retransmit then 0 else BookSize(e))
  {
    if i == 0 {
      assert q[0 := e][1..] == q[1..];
    } else {
      assert q[i := e][1..] == q[1..][i - 1 := e];
      CountedUpdate(q[1..], i - 1, e);
    }
  }

  lemma {:induction false} RetransmitCounts(s: State, window: nat, i: nat, packets: seq<Chunk>)
    requires i <= |s.sent|
    ensures var s' := Retransmit(s, window, i, packets).state;
            s'.flight + CountedBytes(s.sent) == s.flight + CountedBytes(s'.sent) && s'.outbound == s.outbound
    decreases |s.sent| - i
  {
    hide CountedBytes;
    if i < |s.sent| {
      if !s.sent[i].retransmit {
        RetransmitCounts(s, window, i + 1, packets);
      } else if s.recoveryTransmit || s.flight < window {
        var e := s.sent[i];
        CountedUpdate(s.sent, i, e.(misses := 0, retransmit := false, sentCount := e.sentCount + 1));
        RetransmitCounts(Resent(s, i), window, i + 1, packets + [e.chunk]);
      }
    }
  }

  /** New DATA is counted as it is sent, and only appended. */
  lemma {:induction false} DrainCounts(s: State, window: nat, packets: seq<Chunk>)
    requires Fresh(s.outbound)
    ensures var s' := Drain(s, window, packets).state;
            && s'.flight + CountedBytes(s.sent) == s.flight + CountedBytes(s'.sent)
            && s.sent <= s'.sent && (forall j :: |s.sent| <= j < |s'.sent| ==> !s'.sent[j].acked)
    decreases |s.outbound|
  {
    hide CountedBytes;
    if MayDrain(s, window) {
      var e := s.outbound[0];
      CountedAppend(s.sent, e.(sentCount := e.sentCount + 1));
      DrainCounts(Drained(s), window, packets + [e.chunk]);
    }
  }

  lemma {:induction false} AllMarkedCountsNothing(q: seq<Entry>)
    requires forall i :: 0 <= i < |q| ==> q[i].retransmit
    ensures CountedBytes(q) == 0
  {
    if q != [] {
      AllMarkedCountsNothing(q[1..]);
    }
  }

  lemma {:induction false} LeaksNothingIff(q: seq<Entry>)
    ensures LeakedBytes(q) == 0 <==> forall j :: 0 <= j < |q| && !q[j].retransmit && q[j].acked ==> BookSize(q[j]) == 0
  {
    if q != [] {
      LeaksNothingIff(q[1..]);
      assert forall j :: 0 <= j < |q[1..]| ==> q[1..][j] == q[j + 1];
      if forall j :: 0 <= j < |q[1..]| && !q[1..][j].retransmit && q[1..][j].acked ==> BookSize(q[1..][j]) == 0 {
        assert forall j :: 1 <= j < |q| ==> q[j] == q[1..][j - 1];
      }
    }
  }

  /** The bytes of the first `n` entries. */
  function PrefixBytes(q: seq<Entry>, n: nat): nat
    requires n <= |q|
  {
    if n == 0 then 0 else PrefixBytes(q, n - 1) + BookSize(q[n - 1])
  }

  lemma {:induction false} PrefixGrows(q: seq<Entry>, i: nat, j: nat)
    requires i <= j <= |q|
    ensures PrefixBytes(q, i) <= PrefixBytes(q, j)
    decreases j
  {
    if i < j {
      PrefixGrows(q, i, j - 1);
    }
  }

  lemma {:induction false} PrefixOfSameSizes(q: seq<Entry>, q': seq<Entry>, n: nat)
    requires n <= |q| == |q'| && forall j :: 0 <= j < |q| ==> q[j].chunk == q'[j].chunk
    ensures PrefixBytes(q, n) == PrefixBytes(q', n)
  {
    if n > 0 {
      PrefixOfSameSizes(q, q', n - 1);
    }
  }

  /** The queue after the expiry resent the entries in front of which less than a payload lies. */
  ghost predicate ResentUpTo(q: seq<Entry>, q': seq<Entry>, i: nat, window: nat) {
    && |q'| == |q|
    && forall j :: 0 <= j < |q| ==>
         q'[j].chunk == q[j].chunk && q'[j].acked == q[j].acked &&
         (q'[j].retransmit <==> if i <= j && PrefixBytes(q, j) < window then false else q[j].retransmit)
  }

  lemma {:induction false} RetransmitsPrefix(s: State, window: nat, i: nat, packets: seq<Chunk>)
    requires i <= |s.sent| && s.flight == PrefixBytes(s.sent, i) && (s.recoveryTransmit ==> s.flight < window)
    requires forall j :: i <= j < |s.sent| ==> s.sent[j].retransmit
    ensures ResentUpTo(s.sent, Retransmit(s, window, i, packets).state.sent, i, window)
    decreases |s.sent| - i
  {
    hide PrefixBytes;
    if i < |s.sent| {
      if s.flight >= window {
        forall j | i <= j < |s.sent| ensures PrefixBytes(s.sent, j) >= window {
          PrefixGrows(s.sent, i, j);
        }
      } else {
        var s1 := Resent(s, i);
        forall n: nat | n <= |s.sent| ensures PrefixBytes(s1.sent, n) == PrefixBytes(s.sent, n) {
          PrefixOfSameSizes(s1.sent, s.sent, n);
        }
        NextPrefix(s.sent, i);
        RetransmitsPrefix(s1, window, i + 1, packets + [s.sent[i].chunk]);
      }
    }
  }

  lemma NextPrefix(q: seq<Entry>, i: nat)
    requires i < |q|
    ensures PrefixBytes(q, i + 1) == PrefixBytes(q, i) + BookSize(q[i])
  {
  }

  /** An expiry of T3 resends entry `j`: less than one payload lies in front of it in the queue. */
  predicate Resends(s: State, j: nat) {
    j < |s.sent| && PrefixBytes(s.sent, j) < s.maxPayload
  }

  /**
   From any state, the flight size after an expiry of T3 is exactly the bytes in flight if and
   only if no chunk the expiry sends again was already acknowledged. Which chunks these are
   depends on the queue before the expiry alone.
   */
  lemma ExpiryIsExactIff(s: State)
    requires s.maxPayload > 0 && Fresh(s.outbound)
    ensures var s' := Timer3Expired(s).state;
            s'.flight == InFlight(s'.sent) <==>
            forall j: nat :: Resends(s, j) && s.sent[j].acked ==> BookSize(s.sent[j]) == 0
  {
    hide Retransmit, Drain, CountedBytes, InFlight, LeakedBytes, PrefixBytes;
    var e := Expired(s);
    var w := BurstWindow(e);
    assert w == s.maxPayload;
    AllMarkedCountsNothing(e.sent);
    NoPrefix(e.sent);
    var r := Retransmit(e, w, 0, []);
    RetransmitCounts(e, w, 0, []);
    RetransmitsPrefix(e, w, 0, []);
    DrainCounts(r.state, w, r.packets);
    var q := Timer3Expired(s).state.sent;
    CountedSplits(q);
    LeaksNothingIff(q);
    ExpiryLeaksIff(s, r.state.sent, q);
  }

  lemma NoPrefix(q: seq<Entry>)
    ensures PrefixBytes(q, 0) == 0
  {
  }

  lemma ExpiryLeaksIff(s: State, q1: seq<Entry>, q: seq<Entry>)
    requires ResentUpTo(MarkAll(s.sent), q1, 0, s.maxPayload) && q1 <= q
    requires forall j :: |q1| <= j < |q| ==> !q[j].acked
    ensures (forall j :: 0 <= j < |q| && !q[j].retransmit && q[j].acked ==> BookSize(q[j]) == 0) <==>
            (forall j: nat :: Resends(s, j) && s.sent[j].acked ==> BookSize(s.sent[j]) == 0)
  {
    hide PrefixBytes;
    forall j: nat | j < |s.sent|
      ensures q[j].chunk == s.sent[j].chunk && q[j].acked == s.sent[j].acked && (!q[j].retransmit <==> Resends(s, j))
    {
      PrefixOfSameSizes(MarkAll(s.sent), s.sent, j);
      assert q[j] == q1[j];
    }
  }

  function Small(tsn: nat, ssn: nat, b: byte): Entry {
    Entry(Chunk(tsn, tsn, 0, ssn, 0, true, true, false, [b]), false, 0, false, 0)
  }

  /** A sender that has sent nothing, with room for two bytes. */
  predicate Roomy(s: State) {
    && s.maxPayload >= 2 && s.cwnd >= 2 && s.peerWindow >= 2
    && s.localTsn == s.nextSerial == 1 && s.lastSacked == 0 && s.streamSeq == map[]
    && s.outbound == [] && s.sent == [] && s.flight == 0 && s.recoveryExit.None?
  }

  lemma TwoSends(s: State)
    requires Roomy(s)
    ensures Send(s, 0, 0, [7], true).maxPayload == s.maxPayload
    ensures var s2 := Send(Send(s, 0, 0, [7], true), 0, 0, [8], true);
            s2 == s.(nextSerial := 3, localTsn := 3, streamSeq := map[0 := 2], outbound := [Small(1, 0, 7), Small(2, 1, 8)])
  {
    var s1 := Send(s, 0, 0, [7], true);
    assert s1.outbound == [Small(1, 0, 7)];
    assert s1 == s.(nextSerial := 2, localTsn := 2, streamSeq := map[0 := 1], outbound := [Small(1, 0, 7)]);
    var s2 := Send(s1, 0, 0, [8], true);
    assert s2.outbound == [Small(1, 0, 7), Small(2, 1, 8)];
  }

  lemma BothSent(s: State, a: Entry, b: Entry)
    requires s.sent == [] && s.outbound == [a, b] && BookSize(a) == BookSize(b) == 1 && s.flight == 0
    requires s.maxPayload >= 2 && s.cwnd >= 2 && s.peerWindow >= 2
    ensures TransmitOnce(s).state ==
            s.(outbound := [], sent := [a.(sentCount := a.sentCount + 1), b.(sentCount := b.sentCount + 1)], flight := 2, t3 := true)
  {
    var w := BurstWindow(s);
    var s1 := Drained(s);
    assert s1.outbound == [b];
    var s2 := Drained(s1);
    assert s2.outbound == [];
    assert Drain(s, w, []) == Drain(s1, w, [] + [a.chunk]);
    assert Drain(s1, w, [] + [a.chunk]) == Drain(s2, w, [] + [a.chunk] + [b.chunk]);
    assert s2.sent == [a.(sentCount := a.sentCount + 1), b.(sentCount := b.sentCount + 1)];
  }

  lemma SecondAcknowledged(s: State, a: Entry, b: Entry, rwnd: nat)
    requires s.sent == [a, b] && a.chunk.tsn == 1 && b.chunk.tsn == 2 && !a.acked && !b.acked && a.misses == 0
    requires s.lastSacked == 0 && s.recoveryExit.None?
    ensures var s' := ReceiveSack(s, Sack(0, rwnd, [Gap(2, 2)], []));
            s'.sent == [a.(misses := 1), b.(acked := true)] && s'.outbound == s.outbound && s'.maxPayload == s.maxPayload
  {
    var k := Sack(0, rwnd, [Gap(2, 2)], []);
    var t0 := Tally(s.sent, s.flight, 0);
    assert CumAck(t0, 0, 0) == (t0, 0);
    assert BlockTsns(0, 3, 2) == {};
    assert Seen(0, k.gaps[1..]) == {};
    assert Seen(0, k.gaps) == {2};
    var t1 := Acked(t0, 1);
    assert GapAck(t0, {2}, Some(2), 0, 0) == GapAck(t0, {2}, Some(2), 1, 0) == GapAck(t1, {2}, Some(2), 2, 2) == (t1, 2);
    var t2 := Struck(t1, 0);
    assert Strike(t1, {2}, 2, 0, false) == Strike(t2, {2}, 2, 1, false) == Strike(t2, {2}, 2, 2, false) == (t2, false);
    assert t2.sent == [a.(misses := 1), b.(acked := true)];
  }

  /**
   A run in which it is not exact: two messages are sent, a SACK reports the second, and T3
   expires, which sends the acknowledged one again.
   */
  lemma MarkedFlightIsInexact(s: State) returns (es: seq<Event>)
    requires Roomy(s)
    ensures var s' := Execute(s, es); s'.flight != InFlight(s'.sent)
  {
    hide Send, TransmitOnce, ReceiveSack, Timer3Expired, InFlight, Execute;
    var sack := Sack(0, s.peerWindow, [Gap(2, 2)], []);
    TwoSends(s);
    var s1 := Send(s, 0, 0, [7], true);
    var s2 := Send(s1, 0, 0, [8], true);
    BothSent(s2, Small(1, 0, 7), Small(2, 1, 8));
    var s3 := TransmitOnce(s2).state;
    SecondAcknowledged(s3, s3.sent[0], s3.sent[1], s.peerWindow);
    var s4 := ReceiveSack(s3, sack);
    assert PrefixBytes(s4.sent, 1) == PrefixBytes(s4.sent, 0) + 1;
    assert Resends(s4, 1);
    ExpiryIsExactIff(s4);
    var e5: seq<Event> := [];
    var e4 := [ExpiryEvent] + e5;
    var e3 := [SackEvent(sack)] + e4;
    var e2 := [TransmitEvent] + e3;
    var e1 := [SendEvent(0, 0, [8], true)] + e2;
    es := [SendEvent(0, 0, [7], true)] + e1;
    FirstEvent(s, SendEvent(0, 0, [7], true), e1);
    FirstEvent(s1, SendEvent(0, 0, [8], true), e2);
    FirstEvent(s2, TransmitEvent, e3);
    FirstEvent(s3, SackEvent(sack), e4);
    FirstEvent(s4, ExpiryEvent, e5);
    NoEvents(Step(s4, ExpiryEvent));
  }

  lemma FirstEvent(s: State, e: Event, es: seq<Event>)
    requires s.maxPayload > 0
    ensures Execute(s, [e] + es) == Execute(Step(s, e), es)
  {
    hide Step;
    assert ([e] + es)[1..] == es;
  }

  lemma NoEvents(s: State)
    requires s.maxPayload > 0
    ensures Execute(s, []) == s
  {
  }

  // After a SACK

  predicate Flying(e: Entry) {
    !e.retransmit && !e.acked
  }

  lemma {:induction false} InFlightUpdate(q: seq<Entry>, i: nat, e: Entry)
    requires i < |q|
    ensures InFlight(q[i := e]) + (if Flying(q[i]) then BookSize(q[i]) else 0) ==
            InFlight(q) + (if Flying(e) then BookSize(e) else 0)
  {
    if i == 0 {
      assert q[0 := e][1..] == q[1..];
    } else {
      assert q[i := e][1..] == q[1..][i - 1 := e];
      InFlightUpdate(q[1..], i - 1, e);
    }
  }

  /** The bytes the loop that drops chunks subtracts although they wait to be sent again. */
  function CumExcess(q: seq<Entry>, cum: nat): nat {
    if q == [] || !Gte32(cum, q[0].chunk.tsn) then 0
    else (if !q[0].acked && q[0].retransmit then BookSize(q[0]) else 0) + CumExcess(q[1..], cum)
  }

  /** The same for the loop that marks gap-acknowledged chunks. */
  function GapExcess(q: seq<Entry>, seen: set<int>, highest: Option<int>, i: nat): nat
    requires i <= |q|
    decreases |q| - i
  {
    if i == |q| || Beyond(q[i].chunk.tsn, highest) then 0
    else (if q[i].chunk.tsn in seen && !q[i].acked && q[i].retransmit then BookSize(q[i]) else 0) +
         GapExcess(q, seen, highest, i + 1)
  }

  /** And for the third strikes: chunks that already wait, or that an earlier SACK had acknowledged. */
  function StrikeExcess(q: seq<Entry>, seen: set<int>, newly: nat, i: nat): nat
    requires i <= |q|
    decreases |q| - i
  {
    if i == |q| || Gt32(q[i].chunk.tsn, newly) then 0
    else (if q[i].chunk.tsn !in seen && q[i].misses == 2 && !Flying(q[i]) then BookSize(q[i]) else 0) +
         StrikeExcess(q, seen, newly, i + 1)
  }

  /** The counter is `excess` below the bytes in flight, or at its floor. */
  ghost predicate ShortBy(q: seq<Entry>, flight: nat, excess: nat) {
    flight == Floor(InFlight(q) - excess)
  }

  lemma {:induction false} CumAckIsShort(t: Tally, cum: nat, done: nat, x: nat)
    requires ShortBy(t.sent, t.flight, x)
    ensures var t' := CumAck(t, cum, done).0; ShortBy(t'.sent, t'.flight, x + CumExcess(t.sent, cum))
    decreases |t.sent|
  {
    if t.sent != [] && Gte32(cum, t.sent[0].chunk.tsn) {
      var e := t.sent[0];
      CumAckIsShort(Dropped(t), cum, done + 1, x + if !e.acked && e.retransmit then BookSize(e) else 0);
    }
  }

  lemma {:induction false} GapExcessOfSame(q: seq<Entry>, q': seq<Entry>, seen: set<int>, highest: Option<int>, i: nat)
    requires i <= |q| == |q'| && q[i..] == q'[i..]
    ensures GapExcess(q, seen, highest, i) == GapExcess(q', seen, highest, i)
    decreases |q| - i
  {
    if i < |q| {
      assert q[i] == q[i..][0] == q'[i..][0] == q'[i];
      assert q[i + 1..] == q[i..][1..] == q'[i..][1..] == q'[i + 1..];
      GapExcessOfSame(q, q', seen, highest, i + 1);
    }
  }

  lemma {:induction false} GapAckIsShort(t: Tally, seen: set<int>, highest: Option<int>, i: nat, newly: nat, x: nat)
    requires i <= |t.sent| && ShortBy(t.sent, t.flight, x)
    ensures var t' := GapAck(t, seen, highest, i, newly).0;
            ShortBy(t'.sent, t'.flight, x + GapExcess(t.sent, seen, highest, i))
    decreases |t.sent| - i
  {
    hide InFlight;
    if i < |t.sent| && !Beyond(t.sent[i].chunk.tsn, highest) {
      var e := t.sent[i];
      if e.chunk.tsn in seen && !e.acked {
        var t1 := Acked(t, i);
        InFlightUpdate(t.sent, i, e.(acked := true));
        GapExcessOfSame(t.sent, t1.sent, seen, highest, i + 1);
        GapAckIsShort(t1, seen, highest, i + 1, e.chunk.tsn, x + if e.retransmit then BookSize(e) else 0);
      } else {
        GapAckIsShort(t, seen, highest, i + 1, newly, x);
      }
    }
  }

  lemma {:induction false} StrikeExcessOfSame(q: seq<Entry>, q': seq<Entry>, seen: set<int>, newly: nat, i: nat)
    requires i <= |q| == |q'| && q[i..] == q'[i..]
    ensures StrikeExcess(q, seen, newly, i) == StrikeExcess(q', seen, newly, i)
    decreases |q| - i
  {
    if i < |q| {
      assert q[i] == q[i..][0] == q'[i..][0] == q'[i];
      assert q[i + 1..] == q[i..][1..] == q'[i..][1..] == q'[i + 1..];
      StrikeExcessOfSame(q, q', seen, newly, i + 1);
    }
  }

  lemma {:induction false} StrikeIsShort(t: Tally, seen: set<int>, newly: nat, i: nat, loss: bool, x: nat)
    requires i <= |t.sent| && ShortBy(t.sent, t.flight, x)
    ensures var t' := Strike(t, seen, newly, i, loss).0;
            ShortBy(t'.sent, t'.flight, x + StrikeExcess(t.sent, seen, newly, i))
    decreases |t.sent| - i
  {
    hide InFlight;
    if i < |t.sent| && !Gt32(t.sent[i].chunk.tsn, newly) {
      var e := t.sent[i];
      if e.chunk.tsn in seen {
        StrikeIsShort(t, seen, newly, i + 1, loss, x);
      } else {
        var t1 := Struck(t, i);
        InFlightUpdate(t.sent, i, t1.sent[i]);
        StrikeExcessOfSame(t.sent, t1.sent, seen, newly, i + 1);
        StrikeIsShort(t1, seen, newly, i + 1, loss || e.misses == 2,
                      x + if e.misses == 2 && !Flying(e) then BookSize(e) else 0);
      }
    }
  }

  /** All that a SACK subtracts without its being in flight. */
  function Excess(q: seq<Entry>, k: Sack): nat {
    var t := CumAck(Tally(q, 0, 0), k.cum, 0).0.sent;
    CumExcess(q, k.cum) +
    if k.gaps == [] then 0
    else
      var seen, highest := Seen(k.cum, k.gaps), LastSeen(k.cum, k.gaps);
      var (g, newly) := GapAck(Tally(t, 0, 0), seen, highest, 0, k.cum);
      GapExcess(t, seen, highest, 0) + StrikeExcess(g.sent, seen, newly, 0)
  }

  // The queues do not depend on the counters

  lemma {:induction false} CumAckOfQueue(t: Tally, t': Tally, cum: nat, done: nat)
    requires t.sent == t'.sent
    ensures CumAck(t, cum, done).0.sent == CumAck(t', cum, done).0.sent
    decreases |t.sent|
  {
    if t.sent != [] && Gte32(cum, t.sent[0].chunk.tsn) {
      CumAckOfQueue(Dropped(t), Dropped(t'), cum, done + 1);
    }
  }

  lemma {:induction false} GapAckOfQueue(t: Tally, t': Tally, seen: set<int>, highest: Option<int>, i: nat, newly: nat)
    requires t.sent == t'.sent && i <= |t.sent|
    ensures var (a, x) := GapAck(t, seen, highest, i, newly);
            var (b, y) := GapAck(t', seen, highest, i, newly);
            a.sent == b.sent && x == y
    decreases |t.sent| - i
  {
    if i < |t.sent| && !Beyond(t.sent[i].chunk.tsn, highest) {
      if t.sent[i].chunk.tsn in seen && !t.sent[i].acked {
        GapAckOfQueue(Acked(t, i), Acked(t', i), seen, highest, i + 1, t.sent[i].chunk.tsn);
      } else {
        GapAckOfQueue(t, t', seen, highest, i + 1, newly);
      }
    }
  }

  lemma AcknowledgeIsShort(q: seq<Entry>, flight: nat, k: Sack)
    requires flight == InFlight(q)
    ensures var a := Acknowledge(q, flight, k); ShortBy(a.tally.sent, a.tally.flight, Excess(q, k))
  {
    hide CumAck, GapAck, Strike, InFlight, CumExcess, GapExcess, StrikeExcess, Seen, LastSeen;
    var t0 := Tally(q, flight, 0);
    CumAckIsShort(t0, k.cum, 0, 0);
    CumAckOfQueue(t0, Tally(q, 0, 0), k.cum, 0);
    var t := CumAck(t0, k.cum, 0).0;
    if k.gaps != [] {
      var seen, highest := Seen(k.cum, k.gaps), LastSeen(k.cum, k.gaps);
      GapAckIsShort(t, seen, highest, 0, k.cum, CumExcess(q, k.cum));
      GapAckOfQueue(t, Tally(t.sent, 0, 0), seen, highest, 0, k.cum);
      var (g, newly) := GapAck(t, seen, highest, 0, k.cum);
      StrikeIsShort(g, seen, newly, 0, false, CumExcess(q, k.cum) + GapExcess(t.sent, seen, highest, 0));
    }
  }

  /**
   From any state in which the flight size is exact, it is exact after a SACK if and only if the
   SACK subtracts no bytes that were not in flight, those of chunks that wait to be sent again or
   that lose an earlier acknowledgement at the third strike, or nothing is left in flight.
   */
  lemma SackIsExactIff(s: State, k: Sack)
    requires s.flight == InFlight(s.sent) && !Gt32(s.lastSacked, k.cum)
    ensures var s' := ReceiveSack(s, k);
            s'.flight == InFlight(s'.sent) <==> Excess(s.sent, k) == 0 || InFlight(s'.sent) == 0
  {
    hide Acknowledge, AdjustWindow, Excess, InFlight;
    AcknowledgeIsShort(s.sent, s.flight, k);
    var a := Acknowledge(s.sent, s.flight, k);
    AdjustKeepsQueues(s.(lastSacked := k.cum, sent := a.tally.sent, flight := a.tally.flight),
                      s.flight >= s.cwnd, a, k.cum);
  }

  // The windows

  predicate Bounded(q: seq<Entry>, n: nat) {
    forall i :: 0 <= i < |q| ==> BookSize(q[i]) <= n
  }

  /**
   After a transmission that sent new DATA the flight size is below the congestion window
   plus one payload, and within the window the peer advertised unless the last chunk sent is
   the only one counted.
   */
  lemma {:induction false} DrainRespectsWindows(s: State, window: nat, packets: seq<Chunk>)
    requires window <= s.cwnd && Bounded(s.outbound, s.maxPayload)
    ensures var r := Drain(s, window, packets);
            |r.state.sent| > |s.sent| ==>
              && r.state.flight < s.cwnd + s.maxPayload
              && (r.state.flight <= s.peerWindow || r.state.flight == BookSize(r.state.sent[|r.state.sent| - 1]))
    ensures var r := Drain(s, window, packets);
            |r.state.sent| >= |s.sent| && (|r.state.sent| == |s.sent| ==> r.state == s)
    decreases |s.outbound|
  {
    if MayDrain(s, window) {
      var s1, p1 := Drained(s), packets + [s.outbound[0].chunk];
      DrainRespectsWindows(s1, window, p1);
      assert Drain(s, window, packets) == Drain(s1, window, p1);
    }
  }

  lemma TransmitRespectsWindows(s: State)
    requires Bounded(s.outbound, s.maxPayload)
    ensures var s' := TransmitOnce(s).state;
            |s'.sent| > |s.sent| ==>
              && s'.flight < s.cwnd + s.maxPayload
              && (s'.flight <= s.peerWindow || s'.flight == BookSize(s'.sent[|s'.sent| - 1]))
  {
    RetransmitKeepsChunks(s, BurstWindow(s), 0, []);
    var r := Retransmit(s, BurstWindow(s), 0, []);
    DrainRespectsWindows(r.state, BurstWindow(s), r.packets);
  }

  lemma StepKeepsBounded(s: State, e: Event)
    requires s.maxPayload > 0 && Bounded(s.outbound, s.maxPayload)
    ensures Bounded(Step(s, e).outbound, s.maxPayload)
  {
    match e
    case SendEvent(sid, ppid, data, ordered) => SplitIsExact(data, s.maxPayload);
    case TransmitEvent => TransmitKeepsChunks(s);
    case SackEvent(k) =>
    case ExpiryEvent => TransmitKeepsChunks(Expired(s));
  }

  /** A transmission from `s` that sent new DATA left the flight size within the windows of `s`. */
  predicate WithinWindows(s: State, s': State) {
    |s'.sent| > |s.sent| ==>
      && s'.flight < s.cwnd + s.maxPayload
      && (s'.flight <= s.peerWindow || s'.flight == BookSize(s'.sent[|s'.sent| - 1]))
  }

  /**
   Every transmission of every run respects both windows, whether it follows a call or a SACK
   or is the one T3 runs when it expires, for which the congestion window is one payload.
   */
  lemma {:induction false} WindowsHoldInEveryRun(s: State, es: seq<Event>)
    requires s.maxPayload > 0 && Bounded(s.outbound, s.maxPayload)
    ensures var s1 := Execute(s, es);
            && WithinWindows(s1, TransmitOnce(s1).state)
            && WithinWindows(s1.(cwnd := s1.maxPayload), Timer3Expired(s1).state)
    decreases |es|
  {
    if es == [] {
      TransmitRespectsWindows(s);
      TransmitRespectsWindows(Expired(s));
    } else {
      StepKeepsBounded(s, es[0]);
      WindowsHoldInEveryRun(Step(s, es[0]), es[1..]);
    }
  }

  // Packet payloads

  lemma SackKeepsQueuesBounded(s: State, k: Sack)
    requires Bounded(Queues(s), s.maxPayload)
    ensures Bounded(Queues(ReceiveSack(s, k)), s.maxPayload)
  {
    hide Acknowledge, AdjustWindow;
    if !Gt32(s.lastSacked, k.cum) {
      AcknowledgeKeepsChunks(s.sent, s.flight, k);
      var a := Acknowledge(s.sent, s.flight, k);
      AdjustKeepsQueues(s.(lastSacked := k.cum, sent := a.tally.sent, flight := a.tally.flight),
                        s.flight >= s.cwnd, a, k.cum);
      var q, q' := Queues(s), Queues(ReceiveSack(s, k));
      forall i | 0 <= i < |q'|
        ensures BookSize(q'[i]) <= s.maxPayload
      {
        if i < |a.tally.sent| {
          assert q[a.done + i] == s.sent[a.done..][i];
        } else {
          assert q'[i] == q[a.done + i];
        }
      }
    }
  }

  lemma TransmitSendsBounded(s: State)
    requires Bounded(Queues(s), s.maxPayload)
    ensures var r := TransmitOnce(s);
            Bounded(Queues(r.state), s.maxPayload) && forall p :: p in r.packets ==> |p.data| <= s.maxPayload
  {
    hide TransmitOnce;
    TransmitKeepsChunks(s);
    var r := TransmitOnce(s);
    forall p | p in r.packets
      ensures |p.data| <= s.maxPayload
    {
      var i :| 0 <= i < |r.state.sent| && r.state.sent[i].chunk == p;
      assert Queues(r.state)[i] == r.state.sent[i];
    }
  }

  lemma ExpiredKeepsBounded(s: State)
    requires Bounded(Queues(s), s.maxPayload)
    ensures Bounded(Queues(Expired(s)), s.maxPayload) && Expired(s).maxPayload == s.maxPayload
  {
    forall i | 0 <= i < |Queues(s)|
      ensures Queues(Expired(s))[i].chunk == Queues(s)[i].chunk
    {
    }
  }

  lemma SendKeepsQueuesBounded(s: State, sid: nat, ppid: nat, data: seq<byte>, ordered: bool)
    requires s.maxPayload > 0 && Bounded(Queues(s), s.maxPayload)
    ensures Bounded(Queues(Send(s, sid, ppid, data, ordered)), s.maxPayload)
  {
    SplitIsExact(data, s.maxPayload);
    var q, q' := Queues(s), Queues(Send(s, sid, ppid, data, ordered));
    forall i | 0 <= i < |q'|
      ensures BookSize(q'[i]) <= s.maxPayload
    {
      if i < |q| {
        assert q'[i] == q[i];
      } else {
        assert q'[i].chunk.data == Split(data, s.maxPayload)[i - |q|];
      }
    }
  }

  lemma StepKeepsQueuesBounded(s: State, e: Event)
    requires s.maxPayload > 0 && Bounded(Queues(s), s.maxPayload)
    ensures Bounded(Queues(Step(s, e)), s.maxPayload)
  {
    hide Bounded, Queues, Send, TransmitOnce, ReceiveSack, Expired;
    match e
    case SendEvent(sid, ppid, data, ordered) => SendKeepsQueuesBounded(s, sid, ppid, data, ordered);
    case TransmitEvent => TransmitSendsBounded(s);
    case SackEvent(k) => SackKeepsQueuesBounded(s, k);
    case ExpiryEvent =>
      ExpiredKeepsBounded(s);
      TransmitSendsBounded(Expired(s));
  }

  /** In every run, no transmission sends a chunk with more than one payload of data. */
  lemma {:induction false} PayloadsHoldInEveryRun(s: State, es: seq<Event>, p: Chunk)
    requires s.maxPayload > 0 && Bounded(Queues(s), s.maxPayload)
    ensures var s1 := Execute(s, es);
            p in TransmitOnce(s1).packets || p in Timer3Expired(s1).packets ==> |p.data| <= s.maxPayload
    decreases |es|
  {
    hide Bounded, Queues, TransmitOnce, Expired;
    if es == [] {
      TransmitSendsBounded(s);
      ExpiredKeepsBounded(s);
      TransmitSendsBounded(Expired(s));
    } else {
      StepKeepsQueuesBounded(s, es[0]);
      PayloadsHoldInEveryRun(Step(s, es[0]), es[1..], p);
    }
  }
}
