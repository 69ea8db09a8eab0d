/**
 Laws of the outbound half (packages/sctp/src/sctp.ts): the T3 guard, flight-size
 accounting, the windows, and what the queues hold.
 */
module OutboundLaws {
  import opened SerialNumbers
  import opened Wrappers
  import opened Reassembly
  import opened OrderedStream
  import opened Sacks
  import opened Outbound

  // Fragmentation

  /** Cutting a message loses nothing: the fragments are non-empty, no longer than `n`, and concatenate to it. */
  lemma {:induction false} SplitIsExact(data: seq<byte>, n: nat)
    requires n > 0
    ensures Flatten(Split(data, n)) == data
    ensures forall j :: 0 <= j < |Split(data, n)| ==> 0 < |Split(data, n)[j]| <= n
    ensures |Split(data, n)| == (|data| + n - 1) / n
    decreases |data|
  {
    if data == [] {
      CeilOfZero(n);
    } else if |data| <= n {
      assert Flatten([data]) == data + Flatten([]);
      CeilOfOne(|data|, n);
    } else {
      SplitIsExact(data[n..], n);
      var rest := Split(data[n..], n);
      assert ([data[..n]] + rest)[1..] == rest;
      assert data[..n] + data[n..] == data;
      CeilStep(|data|, n);
    }
  }

  lemma CeilOfZero(n: nat)
    requires n > 0
    ensures (0 + n - 1) / n == 0
  {
  }

  lemma CeilOfOne(x: nat, n: nat)
    requires 0 < x <= n
    ensures (x + n - 1) / n == 1
  {
    assert (x + n - 1) == 1 * n + (x - 1);
    DivUnique(x + n - 1, n, 1, x - 1);
  }

  lemma CeilStep(x: nat, n: nat)
    requires n > 0 && x > n
    ensures (x + n - 1) / n == (x - n + n - 1) / n + 1
  {
    var q := (x - 1) / n;
    DivUnique(x + n - 1, n, q + 1, (x - 1) % n);
  }

  lemma DivUnique(a: nat, n: nat, q: nat, r: nat)
    requires n > 0 && r < n && a == q * n + r
    ensures a / n == q
  {
    var d := a / n - q;
    assert d * n == r - a % n;
    assert d >= 1 ==> d * n >= n;
    assert d <= -1 ==> d * n + n <= 0;
  }

  // Chunks stay what and where they are

  ghost predicate SameChunks(q: seq<Entry>, q': seq<Entry>) {
    |q| == |q'| && forall i :: 0 <= i < |q| ==> q'[i].chunk == q[i].chunk
  }

  /** Acknowledged entries of `q'` were acknowledged before or are among `seen`. */
  ghost predicate AckedFrom(q: seq<Entry>, q': seq<Entry>, seen: set<int>)
    requires |q| == |q'|
  {
    forall i :: 0 <= i < |q| && q'[i].acked ==> q[i].acked || q[i].chunk.tsn in seen
  }

  lemma {:induction false} CumAckDropsPrefix(t: Tally, cum: nat, done: nat)
    ensures var (t', d) := CumAck(t, cum, done);
            && done <= d && d - done <= |t.sent| && t'.sent == t.sent[d - done..]
            && (forall i :: 0 <= i < d - done ==> Gte32(cum, t.sent[i].chunk.tsn))
            && (d - done < |t.sent| ==> !Gte32(cum, t.sent[d - done].chunk.tsn))
    decreases |t.sent|
  {
    if t.sent != [] && Gte32(cum, t.sent[0].chunk.tsn) {
      CumAckDropsPrefix(Dropped(t), cum, done + 1);
    }
  }

  lemma {:induction false} GapAckKeepsChunks(t: Tally, seen: set<int>, highest: Option<int>, i: nat, newly: nat)
    requires i <= |t.sent|
    ensures var t' := GapAck(t, seen, highest, i, newly).0;
            SameChunks(t.sent, t'.sent) && AckedFrom(t.sent, t'.sent, seen)
    decreases |t.sent| - i
  {
    if i < |t.sent| && !Beyond(t.sent[i].chunk.tsn, highest) {
      if t.sent[i].chunk.tsn in seen && !t.sent[i].acked {
        GapAckKeepsChunks(Acked(t, i), seen, highest, i + 1, t.sent[i].chunk.tsn);
      } else {
        GapAckKeepsChunks(t, seen, highest, i + 1, newly);
      }
    }
  }

  lemma {:induction false} StrikeKeepsChunks(t: Tally, seen: set<int>, newly: nat, i: nat, loss: bool)
    requires i <= |t.sent|
    ensures var t' := Strike(t, seen, newly, i, loss).0;
            SameChunks(t.sent, t'.sent) && AckedFrom(t.sent, t'.sent, {})
    decreases |t.sent| - i
  {
    if i < |t.sent| && !Gt32(t.sent[i].chunk.tsn, newly) {
      if t.sent[i].chunk.tsn in seen {
        StrikeKeepsChunks(t, seen, newly, i + 1, loss);
      } else {
        StrikeKeepsChunks(Struck(t, i), seen, newly, i + 1, loss || t.sent[i].misses == 2);
      }
    }
  }

  /**
   A SACK removes from the sent queue the longest prefix at or below its cumulative TSN, keeps the other chunks,
   and flags only entries it reports.
   */
  lemma AcknowledgeKeepsChunks(sent: seq<Entry>, flight: nat, k: Sack)
    ensures var a := Acknowledge(sent, flight, k);
            && a.done <= |sent| && a.done == CumAck(Tally(sent, flight, 0), k.cum, 0).1
            && (forall i :: 0 <= i < a.done ==> Gte32(k.cum, sent[i].chunk.tsn))
            && (a.done < |sent| ==> !Gte32(k.cum, sent[a.done].chunk.tsn))
            && SameChunks(sent[a.done..], a.tally.sent)
            && AckedFrom(sent[a.done..], a.tally.sent, Seen(k.cum, k.gaps))
  {
    var t0 := Tally(sent, flight, 0);
    CumAckDropsPrefix(t0, k.cum, 0);
    if k.gaps != [] {
      var (t, done) := CumAck(t0, k.cum, 0);
      var seen := Seen(k.cum, k.gaps);
      GapAckKeepsChunks(t, seen, LastSeen(k.cum, k.gaps), 0, k.cum);
      var (t1, newly) := GapAck(t, seen, LastSeen(k.cum, k.gaps), 0, k.cum);
      StrikeKeepsChunks(t1, seen, newly, 0, false);
    }
  }

  lemma AdjustKeepsQueues(s: State, fullyUsed: bool, a: Acks, cum: nat)
    ensures var s' := AdjustWindow(s, fullyUsed, a, cum);
            s' == s.(cwnd := s'.cwnd, ssthresh := s'.ssthresh, partialAcked := s'.partialAcked,
                     recoveryExit := s'.recoveryExit, recoveryTransmit := s'.recoveryTransmit)
  {
  }

  /** The retransmission loop sends chunks that are in the sent queue and keeps the queue. */
  lemma {:induction false} RetransmitKeepsChunks(s: State, window: nat, i: nat, packets: seq<Chunk>)
    requires i <= |s.sent|
    ensures var r := Retransmit(s, window, i, packets);
            && r.state == s.(sent := r.state.sent, flight := r.state.flight, t3 := r.state.t3,
                             recoveryTransmit := r.state.recoveryTransmit)
            && SameChunks(s.sent, r.state.sent)
            && AckedFrom(s.sent, r.state.sent, {})
            && (s.t3 ==> r.state.t3) && (r.state.t3 ==> s.t3 || s.sent != [])
            && (forall p :: p in r.packets ==> p in packets || InQueue(p, s.sent))
    decreases |s.sent| - i
  {
    if i < |s.sent| {
      if !s.sent[i].retransmit {
        RetransmitKeepsChunks(s, window, i + 1, packets);
      } else if s.recoveryTransmit || s.flight < window {
        RetransmitKeepsChunks(Resent(s, i), window, i + 1, packets + [s.sent[i].chunk]);
        SameQueue(s.sent, Resent(s, i).sent);
        assert InQueue(s.sent[i].chunk, s.sent);
      }
    }
  }

  ghost predicate InQueue(c: Chunk, q: seq<Entry>) {
    exists i :: 0 <= i < |q| && q[i].chunk == c
  }

  lemma SameQueue(q: seq<Entry>, q': seq<Entry>)
    requires SameChunks(q, q')
    ensures forall c :: InQueue(c, q') <==> InQueue(c, q)
  {
    forall c ensures InQueue(c, q') <==> InQueue(c, q) {
      if InQueue(c, q) {
        var i :| 0 <= i < |q| && q[i].chunk == c;
        assert q'[i].chunk == c;
      }
      if InQueue(c, q') {
        var i :| 0 <= i < |q'| && q'[i].chunk == c;
        assert q[i].chunk == c;
      }
    }
  }

  /** New DATA moves from the head of one queue to the end of the other. */
  lemma {:induction false} DrainKeepsChunks(s: State, window: nat, packets: seq<Chunk>)
    ensures var r := Drain(s, window, packets);
            && r.state == s.(sent := r.state.sent, outbound := r.state.outbound,
                             flight := r.state.flight, t3 := r.state.t3)
            && |s.sent| <= |r.state.sent| && |r.state.sent| - |s.sent| <= |s.outbound|
            && r.state.outbound == s.outbound[|r.state.sent| - |s.sent|..]
            && r.state.sent[..|s.sent|] == s.sent
            && (forall i :: |s.sent| <= i < |r.state.sent| ==>
                  var e := s.outbound[i - |s.sent|];
                  r.state.sent[i] == e.(sentCount := e.sentCount + 1))
            && (forall p :: p in r.packets ==> p in packets || InQueue(p, r.state.sent))
    decreases |s.outbound|
  {
    if MayDrain(s, window) {
      var s1 := Drained(s);
      DrainKeepsChunks(s1, window, packets + [s.outbound[0].chunk]);
      var r := Drain(s, window, packets);
      var n := |r.state.sent| - |s.sent|;
      assert s1.outbound[n - 1..] == s.outbound[n..];
      assert r.state.sent[|s.sent|] == s1.sent[|s.sent|];
      assert InQueue(s.outbound[0].chunk, r.state.sent);
    }
  }

  /** Sent and waiting entries together. */
  function Queues(s: State): seq<Entry> {
    s.sent + s.outbound
  }

  /** A transmission sends only queued chunks and leaves the two queues, read together, as they were. */
  lemma TransmitKeepsChunks(s: State)
    ensures var r := TransmitOnce(s);
            && SameChunks(Queues(s), Queues(r.state))
            && |s.sent| <= |r.state.sent| <= |s.sent| + |s.outbound|
            && r.state.outbound == s.outbound[|r.state.sent| - |s.sent|..]
            && (forall p :: p in r.packets ==> InQueue(p, r.state.sent))
            && (forall i :: 0 <= i < |r.state.sent| && r.state.sent[i].acked ==> Queues(s)[i].acked)
            && r.state == s.(sent := r.state.sent, outbound := r.state.outbound, flight := r.state.flight,
                             t3 := r.state.t3, recoveryTransmit := r.state.recoveryTransmit)
  {
    var w := BurstWindow(s);
    RetransmitKeepsChunks(s, w, 0, []);
    var r1 := Retransmit(s, w, 0, []);
    DrainKeepsChunks(r1.state, w, r1.packets);
    var r := Drain(r1.state, w, r1.packets);
    SameQueue(s.sent, r1.state.sent);
    forall p | p in r.packets ensures InQueue(p, r.state.sent) {
      if p in r1.packets {
        var i :| 0 <= i < |r1.state.sent| && r1.state.sent[i].chunk == p;
        assert r.state.sent[i] == r.state.sent[..|s.sent|][i];
      }
    }
    forall i | 0 <= i < |Queues(s)| ensures Queues(r.state)[i].chunk == Queues(s)[i].chunk {
      if i < |s.sent| {
        assert r.state.sent[i] == r.state.sent[..|s.sent|][i];
      }
    }
    forall i | 0 <= i < |r.state.sent| && r.state.sent[i].acked ensures Queues(s)[i].acked {
      if i < |s.sent| {
        assert r.state.sent[i] == r.state.sent[..|s.sent|][i];
      }
    }
  }

  // The T3 guard

  /** The retransmission timer runs exactly while data is outstanding. */
  predicate Guarded(s: State) {
    s.t3 <==> s.sent != []
  }

  lemma {:induction false} DrainGuards(s: State, window: nat, packets: seq<Chunk>)
    requires Guarded(s)
    ensures Guarded(Drain(s, window, packets).state)
    decreases |s.outbound|
  {
    if MayDrain(s, window) {
      DrainGuards(Drained(s), window, packets + [s.outbound[0].chunk]);
    }
  }

  lemma TransmitGuards(s: State)
    requires Guarded(s)
    ensures Guarded(TransmitOnce(s).state)
  {
    RetransmitKeepsChunks(s, BurstWindow(s), 0, []);
    var r := Retransmit(s, BurstWindow(s), 0, []);
    DrainGuards(r.state, BurstWindow(s), r.packets);
  }

  lemma SackGuards(s: State, k: Sack)
    requires Guarded(s)
    ensures Guarded(ReceiveSack(s, k))
  {
    AcknowledgeKeepsChunks(s.sent, s.flight, k);
    if !Gt32(s.lastSacked, k.cum) {
      var a := Acknowledge(s.sent, s.flight, k);
      var s1 := s.(lastSacked := k.cum, sent := a.tally.sent, flight := a.tally.flight);
      AdjustKeepsQueues(s1, s.flight >= s.cwnd, a, k.cum);
    }
  }

  /** Expiry disarms the timer, but the transmission it runs resends the first chunk and arms it again. */
  lemma ExpiryGuards(s: State)
    requires s.maxPayload > 0
    ensures Guarded(Timer3Expired(s).state)
  {
    var e := Expired(s);
    var w := BurstWindow(e);
    if e.sent == [] {
      TransmitGuards(e);
    } else {
      assert e.flight < w;
      var s1, ps := Resent(e, 0), [] + [e.sent[0].chunk];
      assert Retransmit(e, w, 0, []) == Retransmit(s1, w, 1, ps);
      RetransmitKeepsChunks(s1, w, 1, ps);
      var r := Retransmit(s1, w, 1, ps);
      DrainGuards(r.state, w, r.packets);
    }
  }

  datatype Event =
    | SendEvent(sid: nat, ppid: nat, data: seq<byte>, ordered: bool)
    | TransmitEvent
    | SackEvent(sack: Sack)
    | ExpiryEvent

  function Step(s: State, e: Event): (s': State)
    requires s.maxPayload > 0
    ensures s'.maxPayload == s.maxPayload
  {
    match e
    case SendEvent(sid, ppid, data, ordered) => Send(s, sid, ppid, data, ordered)
    case TransmitEvent => TransmitKeepsChunks(s); TransmitOnce(s).state
    case SackEvent(k) => ReceiveSack(s, k)
    case ExpiryEvent => TransmitKeepsChunks(Expired(s)); Timer3Expired(s).state
  }

  function Execute(s: State, es: seq<Event>): State
    requires s.maxPayload > 0
    decreases |es|
  {
    if es == [] then s else Execute(Step(s, es[0]), es[1..])
  }

  lemma StepGuards(s: State, e: Event)
    requires s.maxPayload > 0 && Guarded(s)
    ensures Guarded(Step(s, e))
  {
    match e
    case SendEvent(_, _, _, _) =>
    case TransmitEvent => TransmitGuards(s);
    case SackEvent(k) => SackGuards(s, k);
    case ExpiryEvent => ExpiryGuards(s);
  }

  /**
   In every run, whatever SACKs arrive and whenever T3 expires, T3 is armed after every step if and
   only if the sent queue is not empty (section 6.3.2 of RFC 9260).
   */
  lemma {:induction false} T3GuardsEveryRun(s: State, es: seq<Event>)
    requires s.maxPayload > 0 && Guarded(s)
    ensures Guarded(Execute(s, es))
    decreases |es|
  {
    if es != [] {
      StepGuards(s, es[0]);
      T3GuardsEveryRun(Step(s, es[0]), es[1..]);
    }
  }
}
