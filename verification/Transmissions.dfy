/**
 What a transmission sends (`transmitOnce`, packages/sctp/src/sctp.ts:981-1057): exactly which
 chunks of the two queues, in which order, and from which SACK the peer's window comes.
 */
module Transmissions {
  import opened SerialNumbers
  import opened Reassembly
  import opened Sacks
  import opened Outbound
  import opened OutboundLaws
  import opened FlightLaws
  import LossDetection

  // Packets and counts

  /** The chunks that `q'` counts as sent once more than `q`, in queue order. */
  function SentBetween(q: seq<Entry>, q': seq<Entry>): seq<Chunk>
    requires |q| == |q'|
  {
    if q == [] then [] else OnceMore(q[0], q'[0]) + SentBetween(q[1..], q'[1..])
  }

  function OnceMore(e: Entry, e': Entry): seq<Chunk> {
    if e'.sentCount == e.sentCount + 1 then [e.chunk] else []
  }

  /** No chunk is counted more than once. */
  ghost predicate AtMostOnce(q: seq<Entry>, q': seq<Entry>) {
    |q| == |q'| && forall i :: 0 <= i < |q| ==> q[i].sentCount <= q'[i].sentCount <= q[i].sentCount + 1
  }

  lemma {:induction false} SameQueueSendsNothing(q: seq<Entry>)
    ensures SentBetween(q, q) == []
  {
    if q != [] {
      SameQueueSendsNothing(q[1..]);
    }
  }

  lemma SentBetweenHead(q: seq<Entry>, q': seq<Entry>)
    requires q != [] && |q| == |q'|
    ensures SentBetween(q, q') == OnceMore(q[0], q'[0]) + SentBetween(q[1..], q'[1..])
  {
  }

  lemma NothingBetween()
    ensures SentBetween([], []) == []
  {
  }

  lemma {:induction false} SentBetweenParts(a: seq<Entry>, b: seq<Entry>, a': seq<Entry>, b': seq<Entry>)
    requires |a| == |a'| && |b| == |b'|
    ensures SentBetween(a + b, a' + b') == SentBetween(a, a') + SentBetween(b, b')
  {
    hide SentBetween, OnceMore;
    if a == [] {
      NothingBetween();
      assert a + b == b && a' + b' == b';
    } else {
      SentBetweenHead(a + b, a' + b');
      SentBetweenHead(a, a');
      assert (a + b)[1..] == a[1..] + b && (a' + b')[1..] == a'[1..] + b';
      SentBetweenParts(a[1..], b, a'[1..], b');
    }
  }

  lemma SentBetweenFrom(q: seq<Entry>, q': seq<Entry>, i: nat)
    requires i < |q| == |q'|
    ensures SentBetween(q[i..], q'[i..]) == OnceMore(q[i], q'[i]) + SentBetween(q[i + 1..], q'[i + 1..])
  {
    hide SentBetween;
    SentBetweenHead(q[i..], q'[i..]);
    assert q[i..][1..] == q[i + 1..] && q'[i..][1..] == q'[i + 1..];
  }

  // The retransmission loop

  /** The bytes waiting to be sent again at the indices from `i` to `j`. */
  function MarkedBytes(q: seq<Entry>, i: nat, j: nat): nat
    requires j <= |q|
    decreases j - i
  {
    if i >= j then 0 else (if q[i].retransmit then BookSize(q[i]) else 0) + MarkedBytes(q, i + 1, j)
  }

  lemma {:induction false} MarkedBytesOfSame(q: seq<Entry>, q': seq<Entry>, i: nat, j: nat)
    requires j <= |q| == |q'| && forall x :: i <= x < j ==> q[x] == q'[x]
    ensures MarkedBytes(q, i, j) == MarkedBytes(q', i, j)
    decreases j - i
  {
    if i < j {
      MarkedBytesOfSame(q, q', i + 1, j);
    }
  }

  predicate NoneMarked(q: seq<Entry>, i: nat, j: nat)
    requires j <= |q|
  {
    forall x :: i <= x < j ==> !q[x].retransmit
  }

  /**
   Entry `j` is sent again: it is marked, and with the marked ones before it the flight size is still
   below the window, or a fast recovery has just begun and it is the first.
   */
  predicate GoesAgain(s: State, window: nat, i: nat, j: nat)
    requires j < |s.sent|
  {
    && i <= j && s.sent[j].retransmit
    && (s.flight + MarkedBytes(s.sent, i, j) < window || (s.recoveryTransmit && NoneMarked(s.sent, i, j)))
  }

  function Again(e: Entry): Entry {
    e.(misses := 0, retransmit := false, sentCount := e.sentCount + 1)
  }

  ghost predicate SentAgain(s: State, window: nat, i: nat, q: seq<Entry>) {
    |q| == |s.sent| && forall j: nat :: j < |q| ==> q[j] == if GoesAgain(s, window, i, j) then Again(s.sent[j]) else s.sent[j]
  }

  /** Past an entry that is not marked nothing changes for the others. */
  lemma SkipsUnmarked(s: State, window: nat, i: nat, j: nat)
    requires i < |s.sent| && j < |s.sent| && !s.sent[i].retransmit
    ensures GoesAgain(s, window, i, j) <==> GoesAgain(s, window, i + 1, j)
  {
    if i < j {
      assert MarkedBytes(s.sent, i, j) == MarkedBytes(s.sent, i + 1, j);
      assert NoneMarked(s.sent, i, j) <==> NoneMarked(s.sent, i + 1, j);
    }
  }

  lemma AfterResent(s: State, window: nat, i: nat, j: nat)
    requires i < |s.sent| && j < |s.sent| && s.sent[i].retransmit && j != i
    requires s.recoveryTransmit || s.flight < window
    ensures GoesAgain(s, window, i, j) <==> GoesAgain(Resent(s, i), window, i + 1, j)
  {
    if i < j {
      MarkedBytesOfSame(s.sent, Resent(s, i).sent, i + 1, j);
      assert MarkedBytes(s.sent, i, j) == BookSize(s.sent[i]) + MarkedBytes(s.sent, i + 1, j);
      assert !NoneMarked(s.sent, i, j);
    }
  }

  lemma NothingGoesAgain(s: State, window: nat, i: nat, j: nat)
    requires i <= |s.sent| && j < |s.sent|
    requires i < |s.sent| ==> s.sent[i].retransmit && !s.recoveryTransmit && s.flight >= window
    ensures !GoesAgain(s, window, i, j)
  {
  }

  /** The retransmission loop sends exactly the entries that may go again, and hands them over in order. */
  lemma {:induction false} RetransmitIs(s: State, window: nat, i: nat, packets: seq<Chunk>)
    requires i <= |s.sent|
    ensures var r := Retransmit(s, window, i, packets);
            && SentAgain(s, window, i, r.state.sent)
            && r.packets == packets + SentBetween(s.sent[i..], r.state.sent[i..])
            && (i == |s.sent| || NoneMarked(s.sent, i, |s.sent|) ==> r.state == s)
    decreases |s.sent| - i
  {
    hide GoesAgain, SentBetween;
    var r := Retransmit(s, window, i, packets);
    if i == |s.sent| || (s.sent[i].retransmit && !s.recoveryTransmit && s.flight >= window) {
      forall j: nat | j < |s.sent| ensures !GoesAgain(s, window, i, j) {
        NothingGoesAgain(s, window, i, j);
      }
      SameQueueSendsNothing(s.sent[i..]);
      assert i < |s.sent| ==> !NoneMarked(s.sent, i, |s.sent|);
    } else if !s.sent[i].retransmit {
      RetransmitIs(s, window, i + 1, packets);
      forall j: nat | j < |s.sent| ensures GoesAgain(s, window, i, j) <==> GoesAgain(s, window, i + 1, j) {
        SkipsUnmarked(s, window, i, j);
      }
      OwnTurn(s, window, i);
      SentBetweenFrom(s.sent, r.state.sent, i);
    } else {
      var s1 := Resent(s, i);
      RetransmitIs(s1, window, i + 1, packets + [s.sent[i].chunk]);
      forall j: nat | j < |s.sent| && j != i
        ensures GoesAgain(s, window, i, j) <==> GoesAgain(s1, window, i + 1, j)
      {
        AfterResent(s, window, i, j);
      }
      OwnTurn(s, window, i);
      OwnTurn(s1, window, i);
      SentBetweenFrom(s.sent, r.state.sent, i);
      assert s1.sent[i + 1..] == s.sent[i + 1..];
      assert !NoneMarked(s.sent, i, |s.sent|);
    }
  }

  lemma OwnTurn(s: State, window: nat, i: nat)
    requires i < |s.sent|
    ensures GoesAgain(s, window, i, i) <==> s.sent[i].retransmit && (s.flight < window || s.recoveryTransmit)
    ensures !GoesAgain(s, window, i + 1, i)
  {
  }

  // The loop that sends new DATA

  function ChunksOf(q: seq<Entry>): (cs: seq<Chunk>)
    ensures |cs| == |q| && forall i :: 0 <= i < |q| ==> cs[i] == q[i].chunk
  {
    seq(|q|, i requires 0 <= i < |q| => q[i].chunk)
  }

  /**
   With `flight` bytes outstanding a new chunk of `size` bytes may be sent: both windows are open,
   and it fits the peer's or is alone.
   */
  predicate Admits(flight: nat, size: nat, window: nat, peerWindow: nat) {
    flight < window && flight < peerWindow && (flight == 0 || flight + size <= peerWindow)
  }

  /** Chunk `j` of the outbound queue may be sent with those before it. */
  ghost predicate MayLeave(q: seq<Entry>, flight: nat, window: nat, peerWindow: nat, j: nat)
    requires j < |q|
  {
    forall x: nat :: x <= j ==> Admits(flight + PrefixBytes(q, x), BookSize(q[x]), window, peerWindow)
  }

  lemma {:induction false} PrefixOfRest(q: seq<Entry>, x: nat)
    requires 0 < x <= |q|
    ensures PrefixBytes(q, x) == BookSize(q[0]) + PrefixBytes(q[1..], x - 1)
  {
    if x > 1 {
      PrefixOfRest(q, x - 1);
    }
  }

  lemma MayLeaveRest(q: seq<Entry>, flight: nat, window: nat, peerWindow: nat, j: nat)
    requires 0 < j < |q|
    ensures MayLeave(q, flight, window, peerWindow, j) <==>
            Admits(flight, BookSize(q[0]), window, peerWindow) &&
            MayLeave(q[1..], flight + BookSize(q[0]), window, peerWindow, j - 1)
  {
    hide Admits, PrefixBytes;
    NoPrefix(q);
    forall x: nat | 0 < x <= j
      ensures PrefixBytes(q, x) == BookSize(q[0]) + PrefixBytes(q[1..], x - 1)
    {
      PrefixOfRest(q, x);
    }
    if MayLeave(q, flight, window, peerWindow, j) {
      forall x: nat | x <= j - 1
        ensures Admits(flight + BookSize(q[0]) + PrefixBytes(q[1..], x), BookSize(q[1..][x]), window, peerWindow)
      {
        var y := x + 1;
        assert Admits(flight + PrefixBytes(q, y), BookSize(q[y]), window, peerWindow);
      }
    }
    if MayLeave(q[1..], flight + BookSize(q[0]), window, peerWindow, j - 1) && Admits(flight, BookSize(q[0]), window, peerWindow) {
      forall x: nat | x <= j
        ensures Admits(flight + PrefixBytes(q, x), BookSize(q[x]), window, peerWindow)
      {
        if x > 0 {
          var y := x - 1;
          assert Admits(flight + BookSize(q[0]) + PrefixBytes(q[1..], y), BookSize(q[1..][y]), window, peerWindow);
        }
      }
    }
  }

  lemma MayLeaveFirst(q: seq<Entry>, flight: nat, window: nat, peerWindow: nat)
    requires q != []
    ensures MayLeave(q, flight, window, peerWindow, 0) <==> Admits(flight, BookSize(q[0]), window, peerWindow)
    ensures forall j: nat :: j < |q| && MayLeave(q, flight, window, peerWindow, j) ==> MayLeave(q, flight, window, peerWindow, 0)
  {
    NoPrefix(q);
  }

  /** `n` chunks leave the outbound queue: exactly those that may be sent. */
  ghost predicate Leaves(q: seq<Entry>, flight: nat, window: nat, peerWindow: nat, n: nat) {
    n <= |q| && forall j: nat :: j < |q| ==> (j < n <==> MayLeave(q, flight, window, peerWindow, j))
  }

  lemma {:induction false} DrainIs(s: State, window: nat, packets: seq<Chunk>)
    ensures var r := Drain(s, window, packets);
            var n := |r.state.sent| - |s.sent|;
            && 0 <= n <= |s.outbound| && Leaves(s.outbound, s.flight, window, s.peerWindow, n)
            && r.packets == packets + ChunksOf(s.outbound[..n])
    decreases |s.outbound|
  {
    hide MayLeave;
    var q := s.outbound;
    if MayDrain(s, window) {
      var s1 := Drained(s);
      DrainIs(s1, window, packets + [q[0].chunk]);
      var r := Drain(s, window, packets);
      var n := |r.state.sent| - |s.sent|;
      assert ChunksOf(q[..n]) == [q[0].chunk] + ChunksOf(q[1..][..n - 1]);
      MayLeaveFirst(q, s.flight, window, s.peerWindow);
      forall j: nat | j < |q|
        ensures j < n <==> MayLeave(q, s.flight, window, s.peerWindow, j)
      {
        if j > 0 {
          MayLeaveRest(q, s.flight, window, s.peerWindow, j);
        }
      }
    } else if q != [] {
      MayLeaveFirst(q, s.flight, window, s.peerWindow);
    }
  }

  // One transmission

  /** Four payloads at a time, two while recovering, within the congestion window. */
  function SendWindow(s: State): nat {
    var burst := if s.recoveryExit.None? then 4 * s.maxPayload else 2 * s.maxPayload;
    if s.flight + burst <= s.cwnd then s.flight + burst else s.cwnd
  }

  /** The bytes a list of chunks carries. */
  function DataBytes(cs: seq<Chunk>): nat {
    if cs == [] then 0 else |cs[0].data| + DataBytes(cs[1..])
  }

  lemma {:induction false} DataBytesParts(a: seq<Chunk>, b: seq<Chunk>)
    ensures DataBytes(a + b) == DataBytes(a) + DataBytes(b)
  {
    if a == [] {
      assert a + b == b;
    } else {
      assert (a + b)[1..] == a[1..] + b;
      DataBytesParts(a[1..], b);
    }
  }

  lemma {:induction false} RetransmitAddsBytes(s: State, window: nat, i: nat, packets: seq<Chunk>)
    requires i <= |s.sent|
    ensures var r := Retransmit(s, window, i, packets);
            r.state.flight + DataBytes(packets) == s.flight + DataBytes(r.packets)
    decreases |s.sent| - i
  {
    hide DataBytes;
    if i < |s.sent| {
      if !s.sent[i].retransmit {
        RetransmitAddsBytes(s, window, i + 1, packets);
      } else if s.recoveryTransmit || s.flight < window {
        OneMoreChunk(packets, s.sent[i].chunk);
        RetransmitAddsBytes(Resent(s, i), window, i + 1, packets + [s.sent[i].chunk]);
      }
    }
  }

  lemma OneMoreChunk(packets: seq<Chunk>, c: Chunk)
    ensures DataBytes(packets + [c]) == DataBytes(packets) + |c.data|
  {
    DataBytesParts(packets, [c]);
    assert DataBytes([c]) == |c.data| + DataBytes([]);
  }

  lemma {:induction false} DrainAddsBytes(s: State, window: nat, packets: seq<Chunk>)
    ensures var r := Drain(s, window, packets);
            r.state.flight + DataBytes(packets) == s.flight + DataBytes(r.packets)
    decreases |s.outbound|
  {
    hide DataBytes;
    if MayDrain(s, window) {
      OneMoreChunk(packets, s.outbound[0].chunk);
      DrainAddsBytes(Drained(s), window, packets + [s.outbound[0].chunk]);
    }
  }

  /** Old chunks sent by the transmission from `s` to `s'`. */
  function SentAnew(s: State, s': State): seq<Chunk>
    requires |s.sent| <= |s'.sent|
  {
    SentBetween(s.sent, s'.sent[..|s.sent|])
  }

  /**
   What one transmission sends: first every marked chunk that may go again, then every new chunk that may
   be sent, in queue order. The flight size grows by what is sent.
   */
  lemma TransmissionIs(s: State)
    ensures var r := TransmitOnce(s);
            var s' := r.state;
            && |s.sent| <= |s'.sent| && |s'.sent| - |s.sent| <= |s.outbound|
            && SentAgain(s, SendWindow(s), 0, s'.sent[..|s.sent|])
            && var n, again := |s'.sent| - |s.sent|, SentAnew(s, s');
               && Leaves(s.outbound, s.flight + DataBytes(again), SendWindow(s), s.peerWindow, n)
               && r.packets == again + ChunksOf(s.outbound[..n])
               && s'.flight == s.flight + DataBytes(r.packets)
  {
    hide Retransmit, Drain, SentBetween, GoesAgain, MayLeave, DataBytes;
    var w := BurstWindow(s);
    RetransmitKeepsChunks(s, w, 0, []);
    RetransmitIs(s, w, 0, []);
    RetransmitAddsBytes(s, w, 0, []);
    var r := Retransmit(s, w, 0, []);
    DrainKeepsChunks(r.state, w, r.packets);
    DrainIs(r.state, w, r.packets);
    DrainAddsBytes(r.state, w, r.packets);
    assert s.sent[0..] == s.sent && r.state.sent[0..] == r.state.sent;
    NoBytes();
    assert r.packets == SentAnew(s, TransmitOnce(s).state);
    assert r.state.flight == s.flight + DataBytes(r.packets);
  }

  lemma NoBytes()
    ensures DataBytes([]) == 0
  {
  }

  lemma {:induction false} AllSentBetween(q: seq<Entry>, q': seq<Entry>)
    requires |q| == |q'| && forall i :: 0 <= i < |q| ==> q'[i].sentCount == q[i].sentCount + 1
    ensures SentBetween(q, q') == ChunksOf(q)
  {
    if q != [] {
      AllSentBetween(q[1..], q'[1..]);
    }
  }

  lemma CountsAtMostOnce(s: State)
    ensures AtMostOnce(Queues(s), Queues(TransmitOnce(s).state))
  {
    hide TransmitOnce, SentBetween, GoesAgain, Leaves, DataBytes;
    TransmissionIs(s);
    TransmitKeepsChunks(s);
    NewAreCounted(s);
    var q, q', s' := Queues(s), Queues(TransmitOnce(s).state), TransmitOnce(s).state;
    forall i | 0 <= i < |q| ensures q[i].sentCount <= q'[i].sentCount <= q[i].sentCount + 1 {
      if i < |s.sent| {
        assert q'[i] == s'.sent[..|s.sent|][i];
      }
    }
  }

  /** The two queues before and after: old entries, entries that leave, and entries that stay. */
  lemma QueueParts(s: State, s': State, n: nat)
    requires n <= |s.outbound| && |s'.sent| == |s.sent| + n && s'.outbound == s.outbound[n..]
    requires forall i :: |s.sent| <= i < |s'.sent| ==>
               var e := s.outbound[i - |s.sent|]; s'.sent[i] == e.(sentCount := e.sentCount + 1)
    ensures SentBetween(Queues(s), Queues(s')) == SentAnew(s, s') + ChunksOf(s.outbound[..n])
  {
    hide SentBetween, OnceMore;
    var new', rest := s'.sent[|s.sent|..], s.outbound[n..];
    assert Queues(s) == s.sent + (s.outbound[..n] + rest);
    assert Queues(s') == s'.sent[..|s.sent|] + (new' + rest);
    SentBetweenParts(s.sent, s.outbound[..n] + rest, s'.sent[..|s.sent|], new' + rest);
    SentBetweenParts(s.outbound[..n], rest, new', rest);
    SameQueueSendsNothing(rest);
    AllSentBetween(s.outbound[..n], new');
  }

  /**
   A chunk is handed to the network if and only if it is counted as sent once more, each once and in
   the order of the queues, of which the sent one comes first.
   */
  lemma PacketsAreTheCounted(s: State)
    ensures var r := TransmitOnce(s);
            && AtMostOnce(Queues(s), Queues(r.state))
            && r.packets == SentBetween(Queues(s), Queues(r.state))
  {
    hide TransmitOnce, SentBetween, SentAgain, Leaves, DataBytes, AtMostOnce, SameChunks;
    CountsAtMostOnce(s);
    TransmissionIs(s);
    TransmitKeepsChunks(s);
    NewAreCounted(s);
    var s' := TransmitOnce(s).state;
    QueueParts(s, s', |s'.sent| - |s.sent|);
  }

  lemma NewAreCounted(s: State)
    ensures var s' := TransmitOnce(s).state;
            && |s.sent| <= |s'.sent| && |s'.sent| - |s.sent| <= |s.outbound|
            && forall i :: |s.sent| <= i < |s'.sent| ==>
                 var e := s.outbound[i - |s.sent|];
                 s'.sent[i] == e.(sentCount := e.sentCount + 1)
  {
    hide Retransmit, Drain;
    var w := BurstWindow(s);
    RetransmitKeepsChunks(s, w, 0, []);
    var r := Retransmit(s, w, 0, []);
    DrainKeepsChunks(r.state, w, r.packets);
  }

  // After an expiry of T3

  lemma {:induction false} AllMarkedBytes(q: seq<Entry>, i: nat, j: nat)
    requires i <= j <= |q| && forall x :: 0 <= x < |q| ==> q[x].retransmit
    ensures PrefixBytes(q, i) + MarkedBytes(q, i, j) == PrefixBytes(q, j)
    decreases j - i
  {
    if i < j {
      AllMarkedBytes(q, i + 1, j);
      NextPrefix(q, i);
    }
  }

  lemma ExpiryGoesAgainIff(s: State, j: nat)
    requires s.maxPayload > 0 && j < |s.sent|
    ensures SendWindow(Expired(s)) == s.maxPayload
    ensures GoesAgain(Expired(s), s.maxPayload, 0, j) <==> Resends(s, j)
  {
    var e := Expired(s);
    AllMarkedBytes(e.sent, 0, j);
    PrefixOfSameSizes(e.sent, s.sent, j);
    assert j > 0 ==> e.sent[0].retransmit;
  }

  lemma {:induction false} SentBetweenAt(q: seq<Entry>, q': seq<Entry>, j: nat)
    requires j < |q| == |q'| && forall x :: 0 <= x <= j ==> q'[x].sentCount == q[x].sentCount + 1
    ensures j < |SentBetween(q, q')| && SentBetween(q, q')[j] == q[j].chunk
  {
    if j > 0 {
      SentBetweenAt(q[1..], q'[1..], j - 1);
    }
  }

  /**
   An expiry of T3 sends again the chunks with less than one payload in front of them, in order and
   before anything else, and leaves the others waiting to be sent again.
   */
  lemma ExpiryResends(s: State)
    requires s.maxPayload > 0
    ensures var r := Timer3Expired(s);
            && |s.sent| <= |r.state.sent|
            && (forall j: nat :: j < |s.sent| ==>
                  r.state.sent[j] == if Resends(s, j) then Again(s.sent[j]) else s.sent[j].(retransmit := true))
            && (forall j: nat :: Resends(s, j) ==> j < |r.packets| && r.packets[j] == s.sent[j].chunk)
  {
    hide TransmitOnce, SentBetween, GoesAgain, Leaves, DataBytes, PrefixBytes;
    var e, r := Expired(s), Timer3Expired(s);
    TransmissionIs(e);
    forall j: nat | j < |s.sent|
      ensures SendWindow(e) == s.maxPayload && (GoesAgain(e, s.maxPayload, 0, j) <==> Resends(s, j))
    {
      ExpiryGoesAgainIff(s, j);
    }
    var q' := r.state.sent[..|s.sent|];
    forall j: nat | Resends(s, j)
      ensures j < |r.packets| && r.packets[j] == s.sent[j].chunk
    {
      forall x | 0 <= x <= j
        ensures q'[x].sentCount == e.sent[x].sentCount + 1
      {
        PrefixGrows(s.sent, x, j);
        assert Resends(s, x);
      }
      SentBetweenAt(e.sent, q', j);
    }
  }

  // The window the peer advertised

  /** Event `i` is the last SACK that was not rejected as old. */
  ghost predicate LastSack(s: State, es: seq<Event>, i: nat)
    requires s.maxPayload > 0
  {
    && i < |es| && es[i].SackEvent? && !Gt32(Execute(s, es[..i]).lastSacked, es[i].sack.cum)
    && forall j :: i < j < |es| && es[j].SackEvent? ==> Gt32(Execute(s, es[..j]).lastSacked, es[j].sack.cum)
  }

  lemma {:induction false} ExecuteLast(s: State, es: seq<Event>)
    requires s.maxPayload > 0 && es != []
    ensures var s1 := Execute(s, es[..|es| - 1]);
            s1.maxPayload == s.maxPayload && Execute(s, es) == Step(s1, es[|es| - 1])
    decreases |es|
  {
    hide Step;
    if |es| == 1 {
      assert es[1..] == [] && es[..0] == [];
    } else {
      ExecuteLast(Step(s, es[0]), es[1..]);
      assert es[1..][..|es| - 2] == es[..|es| - 1][1..];
    }
  }

  lemma StepKeepsPeerWindow(s: State, e: Event)
    requires s.maxPayload > 0 && (e.SackEvent? ==> Gt32(s.lastSacked, e.sack.cum))
    ensures Step(s, e).peerWindow == s.peerWindow
  {
    hide TransmitOnce;
    match e
    case SendEvent(_, _, _, _) =>
    case TransmitEvent => TransmitKeepsChunks(s);
    case SackEvent(_) =>
    case ExpiryEvent => TransmitKeepsChunks(Expired(s));
  }

  lemma {:induction false} WindowIsOfLastSack(s: State, es: seq<Event>, i: nat)
    requires s.maxPayload > 0 && LastSack(s, es, i)
    ensures Execute(s, es).peerWindow == es[i].sack.rwnd
    decreases |es|
  {
    hide Execute, Step;
    var n := |es| - 1;
    ExecuteLast(s, es);
    var s1 := Execute(s, es[..n]);
    if i == n {
      SackSetsWindow(s1, es[i].sack);
    } else {
      forall j | 0 <= j < n
        ensures es[..n][..j] == es[..j]
      {
      }
      WindowIsOfLastSack(s, es[..n], i);
      StepKeepsPeerWindow(s1, es[n]);
    }
  }

  lemma SackSetsWindow(s: State, k: Sack)
    requires s.maxPayload > 0 && !Gt32(s.lastSacked, k.cum)
    ensures Step(s, SackEvent(k)).peerWindow == k.rwnd
  {
    hide Acknowledge, AdjustWindow;
  }

  /**
   In every run the new DATA sent is what the last SACK that was not rejected as old allows: chunk `j`
   of the outbound queue goes out if and only if with it and those before it the flight size,
   after what is sent again, stays within the window of that SACK, or one chunk is all there is.
   */
  lemma NewDataFollowsLastSack(s: State, es: seq<Event>, i: nat, j: nat)
    requires s.maxPayload > 0 && LastSack(s, es, i) && j < |Execute(s, es).outbound|
    ensures var s1 := Execute(s, es);
            var s' := TransmitOnce(s1).state;
            && |s1.sent| <= |s'.sent|
            && (j < |s'.sent| - |s1.sent| <==>
                MayLeave(s1.outbound, s1.flight + DataBytes(SentAnew(s1, s')), SendWindow(s1), es[i].sack.rwnd, j))
  {
    hide Execute, LastSack, TransmitOnce, MayLeave, SentAgain, SentBetween, DataBytes, SendWindow;
    WindowIsOfLastSack(s, es, i);
    TransmissionIs(Execute(s, es));
  }

  /**
   A transmission that sends new DATA leaves the flight size within `rwnd`, or one chunk is all that
   is counted; a closed window sends none.
   */
  predicate Obeys(s: State, s': State, rwnd: nat) {
    |s'.sent| > |s.sent| ==>
      && rwnd > 0
      && (s'.flight <= rwnd || s'.flight == BookSize(s'.sent[|s'.sent| - 1]))
  }

  lemma TransmissionObeys(s: State)
    requires Bounded(s.outbound, s.maxPayload)
    ensures Obeys(s, TransmitOnce(s).state, s.peerWindow)
  {
    hide TransmitOnce, DataBytes, SentBetween, PrefixBytes;
    TransmitRespectsWindows(s);
    TransmissionIs(s);
    var s' := TransmitOnce(s).state;
    if |s'.sent| > |s.sent| {
      assert MayLeave(s.outbound, s.flight + DataBytes(SentAnew(s, s')), SendWindow(s), s.peerWindow, 0);
      MayLeaveFirst(s.outbound, s.flight + DataBytes(SentAnew(s, s')), SendWindow(s), s.peerWindow);
    }
  }

  /** Flow control over every run, by a call or by the expiry of T3, stated with the SACK itself. */
  lemma {:induction false} PeerWindowIsObeyed(s: State, es: seq<Event>, i: nat)
    requires s.maxPayload > 0 && Bounded(s.outbound, s.maxPayload) && LastSack(s, es, i)
    ensures var s1 := Execute(s, es);
            && Obeys(s1, TransmitOnce(s1).state, es[i].sack.rwnd)
            && Obeys(s1, Timer3Expired(s1).state, es[i].sack.rwnd)
  {
    hide Execute, LastSack, TransmitOnce;
    WindowIsOfLastSack(s, es, i);
    RunKeepsBounded(s, es);
    TransmissionObeys(Execute(s, es));
    TransmissionObeys(Expired(Execute(s, es)));
  }

  lemma {:induction false} RunKeepsBounded(s: State, es: seq<Event>)
    requires s.maxPayload > 0 && Bounded(s.outbound, s.maxPayload)
    ensures Execute(s, es).maxPayload == s.maxPayload && Bounded(Execute(s, es).outbound, s.maxPayload)
    decreases |es|
  {
    hide Step;
    if es != [] {
      StepKeepsBounded(s, es[0]);
      RunKeepsBounded(Step(s, es[0]), es[1..]);
    }
  }

  lemma NothingGoes(s: State)
    requires s.sent == [] && s.peerWindow == 0
    ensures var r := TransmitOnce(s);
            r.packets == [] && r.state.sent == [] && r.state.peerWindow == 0 && r.state.maxPayload == s.maxPayload
  {
    hide TransmitOnce, DataBytes, SendWindow;
    TransmissionIs(s);
    TransmitKeepsChunks(s);
    if s.outbound != [] {
      var again := SentAnew(s, TransmitOnce(s).state);
      MayLeaveFirst(s.outbound, s.flight + DataBytes(again), SendWindow(s), 0);
      assert !MayLeave(s.outbound, s.flight + DataBytes(again), SendWindow(s), 0, 0);
    }
  }

  /** With nothing outstanding and the window closed nothing is sent, whatever is queued or expires, until a SACK arrives. */
  lemma {:induction false} ClosedWindowIsSilent(s: State, es: seq<Event>)
    requires s.maxPayload > 0 && s.sent == [] && s.peerWindow == 0
    requires forall i :: 0 <= i < |es| ==> !es[i].SackEvent?
    ensures var s1 := Execute(s, es);
            s1.sent == [] && TransmitOnce(s1).packets == [] && Timer3Expired(s1).packets == []
    decreases |es|
  {
    hide TransmitOnce;
    NothingGoes(s);
    NothingGoes(Expired(s));
    if es != [] {
      ClosedWindowIsSilent(Step(s, es[0]), es[1..]);
    }
  }

  // Fast retransmission

  lemma {:induction false} SentBetweenFirst(q: seq<Entry>, q': seq<Entry>, j: nat)
    requires j < |q| == |q'| && q'[j].sentCount == q[j].sentCount + 1
    requires forall x :: 0 <= x < j ==> q'[x].sentCount == q[x].sentCount
    ensures SentBetween(q, q') != [] && SentBetween(q, q')[0] == q[j].chunk
  {
    if j > 0 {
      SentBetweenFirst(q[1..], q'[1..], j - 1);
    }
  }

  ghost predicate FirstMarked(q: seq<Entry>, j: nat) {
    j < |q| && q[j].retransmit && NoneMarked(q, 0, j)
  }

  lemma {:induction false} SomeFirstMarked(q: seq<Entry>, x: nat) returns (j: nat)
    requires x < |q| && q[x].retransmit
    ensures FirstMarked(q, j)
    decreases x
  {
    if y :| 0 <= y < x && q[y].retransmit {
      j := SomeFirstMarked(q, y);
    } else {
      j := x;
    }
  }

  /** A SACK that declares a loss leaves a chunk marked, and permission to send one regardless of the window. */
  lemma LossMarks(s: State, k: Sack) returns (j: nat)
    requires !Gt32(s.lastSacked, k.cum) && s.recoveryExit.None? && ReceiveSack(s, k).recoveryExit.Some?
    ensures ReceiveSack(s, k).recoveryTransmit && FirstMarked(ReceiveSack(s, k).sent, j)
  {
    hide CumAck, GapAck, Strike, Seen, LastSeen;
    var a := Acknowledge(s.sent, s.flight, k);
    assert a.loss && k.gaps != [];
    var t := CumAck(Tally(s.sent, s.flight, 0), k.cum, 0).0;
    var seen := Seen(k.cum, k.gaps);
    var (t1, newly) := GapAck(t, seen, LastSeen(k.cum, k.gaps), 0, k.cum);
    LossDetection.StrikeIsPointwise(t1, seen, newly, 0, false);
    assert ReceiveSack(s, k).sent == a.tally.sent == Strike(t1, seen, newly, 0, false).0.sent;
    var x: nat :| LossDetection.Third(t1.sent, seen, newly, 0, x);
    j := SomeFirstMarked(a.tally.sent, x);
  }

  /** The transmission after it begins with the first chunk that was lost, however full the window is. */
  lemma LossIsRepairedFirst(s: State, k: Sack) returns (j: nat)
    requires !Gt32(s.lastSacked, k.cum) && s.recoveryExit.None? && ReceiveSack(s, k).recoveryExit.Some?
    ensures var s' := ReceiveSack(s, k);
            && FirstMarked(s'.sent, j)
            && TransmitOnce(s').packets != [] && TransmitOnce(s').packets[0] == s'.sent[j].chunk
  {
    hide ReceiveSack, TransmitOnce, SentBetween, Leaves, DataBytes;
    j := LossMarks(s, k);
    var s' := ReceiveSack(s, k);
    TransmissionIs(s');
    assert GoesAgain(s', SendWindow(s'), 0, j);
    SentBetweenFirst(s'.sent, TransmitOnce(s').state.sent[..|s'.sent|], j);
  }
}
