/**
 Ordered streams on which empty messages were sent. `send` of an empty buffer
 (packages/sctp/src/sctp.ts:896-932) makes no chunk but uses up a sequence number, which
 `popMessages` looks at only where it judges a chunk afresh.
 */
module SparseStream {
  import opened SerialNumbers
  import opened Wrappers
  import opened Reassembly
  import opened OrderedStream
  import opened Bursts

  predicate Empty(p: Placed) {
    p.pieces == []
  }

  /** Messages occupy TSN ranges in the order they were sent; an empty one occupies none. */
  ghost predicate InOrder(sent: seq<Placed>) {
    forall k, l :: 0 <= k < l < |sent| ==> End(sent[k]) <= sent[l].start
  }

  /** As `OrderedStream.Holds`, with empty messages allowed: message `d` is the next by its number. */
  ghost predicate HoldsSome(s: Stream, h: Held, sid: nat, sent: seq<Placed>, d: nat, lo: nat) {
    && InOrder(sent) && d <= |sent| && s.ssn == d % MOD16
    && |h.us| == |h.ks| == |s.reassembly| && Increasing(h.us)
    && (forall i :: 0 <= i < |h.us| ==> HoldsAt(s, h, sid, sent, i))
    && (forall i :: 0 <= i < |h.ks| ==> d <= h.ks[i] < d + HALF16)
    && (forall i :: 0 <= i < |h.us| ==> lo <= h.us[i] < lo + HALF32)
  }

  // The list as TSNs

  /** The run at the front of the list is the longest stretch of consecutive TSNs there. */
  lemma {:induction false} RunIsConsecutive(s: Stream, h: Held, sid: nat, sent: seq<Placed>, d: nat, lo: nat, p: nat, e: nat)
    requires HoldsSome(s, h, sid, sent, d, lo) && p <= |h.us| && lo <= e
    requires if p == 0 then e < lo + HALF32 && (|h.us| > 0 ==> h.us[0] == e) else e == h.us[p - 1] + 1
    ensures var n := RunLength(s.reassembly, p, e % MOD32);
            && (forall i :: p <= i < p + n ==> h.us[i] == e + (i - p))
            && (p + n < |h.us| ==> h.us[p + n] > e + n)
    decreases |h.us| - p
  {
    if p < |h.us| {
      assert HoldsAt(s, h, sid, sent, p);
      var u := h.us[p];
      assert e <= u;
      Gt32IsVirtualOrder(u, e);
      if u == e {
        PlusOneIsVirtual(e);
        RunIsConsecutive(s, h, sid, sent, d, lo, p + 1, e + 1);
      }
    }
  }

  /** Chunks of the stream with the TSNs from `u` on; `ks` says of which messages. */
  ghost predicate RunOf(r: seq<Chunk>, ks: seq<nat>, sid: nat, sent: seq<Placed>, u: nat) {
    && |ks| == |r|
    && forall i :: 0 <= i < |r| ==> FragmentAt(r, ks, sid, sent, u, i)
  }

  ghost predicate FragmentAt(r: seq<Chunk>, ks: seq<nat>, sid: nat, sent: seq<Placed>, u: nat, i: nat)
    requires i < |r| && i < |ks|
  {
    && ks[i] < |sent| && sent[ks[i]].start <= u + i < End(sent[ks[i]])
    && r[i] == OrderedStream.Fragment(sid, ks[i], sent[ks[i]], u + i - sent[ks[i]].start)
  }

  lemma OneMessagePerTsn(sent: seq<Placed>, a: nat, b: nat, u: nat)
    requires InOrder(sent) && a < |sent| && b < |sent|
    requires sent[a].start <= u < End(sent[a]) && sent[b].start <= u < End(sent[b])
    ensures a == b
  {
  }

  /** How many messages from `a` to `b` are not empty. */
  function Filled(sent: seq<Placed>, a: nat, b: nat): nat
    requires b <= |sent|
  {
    if b <= a then 0 else Filled(sent, a, b - 1) + if Empty(sent[b - 1]) then 0 else 1
  }

  lemma {:induction false} FilledSplits(sent: seq<Placed>, a: nat, m: nat, b: nat)
    requires a <= m <= b <= |sent|
    ensures Filled(sent, a, b) == Filled(sent, a, m) + Filled(sent, m, b)
    decreases b
  {
    if m < b {
      FilledSplits(sent, a, m, b - 1);
    }
  }

  lemma {:induction false} NoneFilled(sent: seq<Placed>, a: nat, b: nat)
    requires b <= |sent| && forall x :: a <= x < b ==> Empty(sent[x])
    ensures Filled(sent, a, b) == 0
    decreases b
  {
    if a < b {
      NoneFilled(sent, a, b - 1);
    }
  }

  // Cutting the run

  /** The first message of the run, and where it ends in it. */
  lemma FirstMessageOfRun(r: seq<Chunk>, ks: seq<nat>, sid: nat, sent: seq<Placed>, d: nat)
    requires InOrder(sent) && d < |sent| && !Empty(sent[d]) && RunOf(r, ks, sid, sent, sent[d].start)
    ensures var n := |sent[d].pieces|;
            && FirstLast(r) == (if n <= |r| then n - 1 else |r|)
            && (n <= |r| ==> r[n - 1].ppid == sent[d].ppid && r[n - 1].streamId == sid && r[n - 1].ssn == d % MOD16 &&
                             Concat(r[..n]) == Flatten(sent[d].pieces))
  {
    var n := |sent[d].pieces|;
    forall i | 0 <= i < |r| && i < n
      ensures r[i] == OrderedStream.Fragment(sid, d, sent[d], i)
    {
      assert FragmentAt(r, ks, sid, sent, sent[d].start, i);
      OneMessagePerTsn(sent, ks[i], d, sent[d].start + i);
    }
    if n <= |r| {
      ConcatIsFlatten(r[..n], sent[d].pieces);
      assert r[n - 1].last;
    }
  }

  /** The message after it begins where it ends, and those in between are empty. */
  lemma NextMessageOfRun(r: seq<Chunk>, ks: seq<nat>, sid: nat, sent: seq<Placed>, d: nat)
    requires InOrder(sent) && d < |sent| && !Empty(sent[d]) && RunOf(r, ks, sid, sent, sent[d].start)
    requires |sent[d].pieces| < |r|
    ensures var n := |sent[d].pieces|;
            var k := ks[n];
            && d < k < |sent| && !Empty(sent[k]) && sent[k].start == End(sent[d])
            && (forall x :: d < x < k ==> Empty(sent[x]))
            && RunOf(r[n..], ks[n..], sid, sent, sent[k].start)
  {
    var n := |sent[d].pieces|;
    var k := ks[n];
    assert FragmentAt(r, ks, sid, sent, sent[d].start, n);
    assert d < k;
    assert forall x :: d < x < k ==> End(sent[d]) <= sent[x].start && End(sent[x]) <= sent[k].start;
    forall i | 0 <= i < |r[n..]|
      ensures FragmentAt(r[n..], ks[n..], sid, sent, sent[k].start, i)
    {
      assert FragmentAt(r, ks, sid, sent, sent[d].start, n + i);
    }
  }

  lemma FilledFromNext(sent: seq<Placed>, d: nat, next: nat, k: nat)
    requires d < next <= k <= |sent| && !Empty(sent[d])
    requires forall x :: d < x < next ==> Empty(sent[x])
    ensures Filled(sent, d, k) == 1 + Filled(sent, next, k)
  {
    FilledSplits(sent, d, next, k);
    FilledSplits(sent, d, d + 1, next);
    NoneFilled(sent, d + 1, next);
    assert Filled(sent, d, d + 1) == Filled(sent, d, d) + 1;
  }

  lemma CutAt(r: seq<Chunk>, m: Message)
    requires FirstLast(r) < |r| ==>
               var j := FirstLast(r);
               m == Message(r[j].streamId, r[j].ppid, Concat(r[..j + 1]))
    ensures Cut(r) == if FirstLast(r) < |r| then [m] + Cut(r[FirstLast(r) + 1..]) else []
  {
    hide FirstLast, Concat;
  }

  lemma CutOfFirst(r: seq<Chunk>, ks: seq<nat>, sid: nat, sent: seq<Placed>, d: nat)
    requires InOrder(sent) && d < |sent| && !Empty(sent[d]) && RunOf(r, ks, sid, sent, sent[d].start)
    ensures var n := |sent[d].pieces|;
            Cut(r) == if n <= |r| then [MessageOf(sid, sent[d])] + Cut(r[n..]) else []
  {
    hide FirstLast, Concat, Flatten, RunOf, InOrder, Cut;
    FirstMessageOfRun(r, ks, sid, sent, d);
    CutAt(r, MessageOf(sid, sent[d]));
  }

  /** The run delivers the messages that end inside it, empty ones left out. */
  lemma {:induction false} CutOfRun(r: seq<Chunk>, ks: seq<nat>, sid: nat, sent: seq<Placed>, d: nat, k: nat)
    requires InOrder(sent) && d <= k < |sent| && !Empty(sent[d]) && !Empty(sent[k])
    requires RunOf(r, ks, sid, sent, sent[d].start)
    ensures |Cut(r)| > Filled(sent, d, k) <==> End(sent[k]) <= sent[d].start + |r|
    ensures |Cut(r)| > Filled(sent, d, k) ==> Cut(r)[Filled(sent, d, k)] == MessageOf(sid, sent[k])
    decreases |r|
  {
    assert Cut([]) == [] && Filled(sent, d, d) == 0;
    var n := |sent[d].pieces|;
    assert k > d ==> End(sent[d]) <= sent[k].start;
    hide InOrder, RunOf, Cut, Filled, MessageOf;
    CutOfFirst(r, ks, sid, sent, d);
    if n < |r| && k > d {
      NextMessageOfRun(r, ks, sid, sent, d);
      var next := ks[n];
      CutOfRun(r[n..], ks[n..], sid, sent, next, k);
      FilledFromNext(sent, d, next, k);
    } else if n == |r| {
      assert r[n..] == [];
      if k > d {
        FilledFromNext(sent, d, d + 1, k);
      }
    }
  }

  /** Until the first number that is missing or belongs to an empty message the sequence number counts along. */
  ghost predicate StopsCounting(sent: seq<Placed>, d: nat, e: nat, end: nat) {
    && d <= e <= |sent|
    && (forall x :: d <= x < e ==> !Empty(sent[x]) && End(sent[x]) <= end)
    && (e < |sent| ==> Empty(sent[e]) || End(sent[e]) > end)
  }

  lemma {:induction false} NumberStays(r: seq<Chunk>, ssn: nat)
    requires forall i :: 0 <= i < |r| ==> r[i].ssn != ssn
    ensures Numbered(r, ssn, true) == ssn
    decreases |r|
  {
    var j := FirstLast(r);
    if j < |r| {
      NumberStays(r[j + 1..], ssn);
    }
  }

  lemma {:induction false} NumberOfRun(r: seq<Chunk>, ks: seq<nat>, sid: nat, sent: seq<Placed>, d: nat, top: nat)
    returns (e: nat)
    requires InOrder(sent) && d < |sent| && !Empty(sent[d]) && RunOf(r, ks, sid, sent, sent[d].start)
    requires top <= d + MOD16 && forall i :: 0 <= i < |ks| ==> ks[i] < top
    ensures StopsCounting(sent, d, e, sent[d].start + |r|) && Numbered(r, d % MOD16, true) == e % MOD16
    decreases |r|
  {
    hide FragmentAt, FirstLast, Concat, Flatten;
    FirstMessageOfRun(r, ks, sid, sent, d);
    var n := |sent[d].pieces|;
    if n > |r| {
      e := d;
    } else {
      Add16IsVirtual(d, 1);
      assert Numbered(r, d % MOD16, true) == Numbered(r[n..], (d + 1) % MOD16, true);
      if n == |r| {
        assert r[n..] == [];
        e := d + 1;
        assert e < |sent| ==> End(sent[d]) <= sent[e].start;
      } else {
        NextMessageOfRun(r, ks, sid, sent, d);
        var next := ks[n];
        if next == d + 1 {
          e := NumberOfRun(r[n..], ks[n..], sid, sent, next, top);
        } else {
          e := d + 1;
          assert Empty(sent[e]);
          NumbersAhead(r[n..], ks[n..], sid, sent, sent[next].start, e, next, top);
          NumberStays(r[n..], e % MOD16);
        }
      }
    }
  }

  lemma NumbersAhead(r: seq<Chunk>, ks: seq<nat>, sid: nat, sent: seq<Placed>, u: nat, e: nat, next: nat, top: nat)
    requires InOrder(sent) && RunOf(r, ks, sid, sent, u) && e < next < |sent| && top < e + MOD16
    requires !Empty(sent[next]) && u == sent[next].start && forall i :: 0 <= i < |ks| ==> ks[i] < top
    ensures forall i :: 0 <= i < |r| ==> r[i].ssn != e % MOD16
  {
    forall i | 0 <= i < |r|
      ensures r[i].ssn != e % MOD16
    {
      assert FragmentAt(r, ks, sid, sent, u, i);
      assert ks[i] >= next;
      DifferentNumbers(ks[i], e);
    }
  }

  lemma DifferentNumbers(a: nat, b: nat)
    requires b < a < b + MOD16
    ensures a % MOD16 != b % MOD16
  {
    assert a == a / MOD16 * MOD16 + a % MOD16 && b == b / MOD16 * MOD16 + b % MOD16;
  }

  // One call

  /** Every TSN from the start of message `d` to the end of message `k` is held. */
  ghost predicate NoGap(us: seq<nat>, sent: seq<Placed>, d: nat, k: nat)
    requires d < |sent| && k < |sent|
  {
    forall v :: sent[d].start <= v < End(sent[k]) ==> v in us
  }

  /** Message `x` starts right at the end of a message before it that is not empty. */
  ghost predicate Continues(sent: seq<Placed>, d: nat, x: nat) {
    x < |sent| && exists j :: d <= j < x && !Empty(sent[j]) && sent[x].start == End(sent[j])
  }

  ghost predicate AllThere(p: Placed, us: seq<nat>) {
    forall v :: p.start <= v < End(p) ==> v in us
  }

  /** All that is not empty from `d` to `k` is there, and each but the first continues one before it. */
  ghost predicate Unbroken(us: seq<nat>, sent: seq<Placed>, d: nat, k: nat)
    requires k < |sent|
  {
    forall x :: d <= x <= k && !Empty(sent[x]) ==> AllThere(sent[x], us) && (d < x ==> Continues(sent, d, x))
  }

  lemma NoGapIsUnbroken(s: Stream, h: Held, sid: nat, sent: seq<Placed>, d: nat, lo: nat, k: nat)
    requires HoldsSome(s, h, sid, sent, d, lo) && d <= k < |sent| && !Empty(sent[d]) && !Empty(sent[k])
    ensures NoGap(h.us, sent, d, k) <==> Unbroken(h.us, sent, d, k)
  {
    if NoGap(h.us, sent, d, k) {
      forall x | d <= x <= k && !Empty(sent[x])
        ensures AllThere(sent[x], h.us) && (d < x ==> Continues(sent, d, x))
      {
        assert x < k ==> End(sent[x]) <= sent[k].start;
        assert d < x ==> End(sent[d]) <= sent[x].start;
        if d < x {
          PredecessorContinues(s, h, sid, sent, d, lo, k, x);
        }
      }
    }
    if Unbroken(h.us, sent, d, k) {
      UnbrokenHasNoGap(h.us, sent, d, k, k);
    }
  }

  lemma PredecessorContinues(s: Stream, h: Held, sid: nat, sent: seq<Placed>, d: nat, lo: nat, k: nat, x: nat)
    requires HoldsSome(s, h, sid, sent, d, lo) && d < x <= k < |sent| && !Empty(sent[d]) && !Empty(sent[x])
    requires NoGap(h.us, sent, d, k)
    ensures Continues(sent, d, x)
  {
    var v := sent[x].start - 1;
    assert End(sent[d]) <= sent[x].start;
    assert End(sent[x]) <= End(sent[k]) by { assert x < k ==> End(sent[x]) <= sent[k].start; }
    assert v in h.us;
    var i :| 0 <= i < |h.us| && h.us[i] == v;
    assert HoldsAt(s, h, sid, sent, i);
    var j := h.ks[i];
    assert j < x;
  }

  lemma {:induction false} UnbrokenHasNoGap(us: seq<nat>, sent: seq<Placed>, d: nat, k: nat, x: nat)
    requires InOrder(sent) && d <= x <= k < |sent| && !Empty(sent[x]) && Unbroken(us, sent, d, k)
    ensures NoGap(us, sent, d, x)
    decreases x
  {
    if d < x {
      assert Continues(sent, d, x);
      var j :| d <= j < x && !Empty(sent[j]) && sent[x].start == End(sent[j]);
      UnbrokenHasNoGap(us, sent, d, k, j);
    }
  }

  lemma RunReachesIff(us: seq<nat>, sent: seq<Placed>, d: nat, k: nat, n: nat)
    requires Increasing(us) && d < |sent| && k < |sent| && 0 < n <= |us|
    requires forall i :: 0 <= i < n ==> us[i] == sent[d].start + i
    requires n < |us| ==> us[n] > sent[d].start + n
    ensures End(sent[k]) <= sent[d].start + n <==> NoGap(us, sent, d, k)
  {
    var u := sent[d].start;
    if End(sent[k]) <= u + n {
      forall v | u <= v < End(sent[k])
        ensures v in us
      {
        assert us[v - u] == v;
      }
    } else {
      assert u + n !in us by {
        assert forall i :: n <= i < |us| ==> us[n] <= us[i];
      }
    }
  }

  /** The call begins a message exactly if the first chunk held is the first of message `d`. */
  lemma BeginsIff(s: Stream, h: Held, sid: nat, sent: seq<Placed>, d: nat, lo: nat)
    requires HoldsSome(s, h, sid, sent, d, lo) && h.us != []
    ensures !s.reassembly[0].unordered
    ensures MayBegin(s.reassembly[0], s.ssn) <==> h.ks[0] == d < |sent| && h.us[0] == sent[d].start
  {
    assert HoldsAt(s, h, sid, sent, 0);
    Gt16IsVirtualOrder(h.ks[0], d);
  }

  lemma FrontRun(s: Stream, h: Held, sid: nat, sent: seq<Placed>, d: nat, lo: nat) returns (n: nat)
    requires HoldsSome(s, h, sid, sent, d, lo) && h.us != [] && MayBegin(s.reassembly[0], s.ssn)
    ensures d < |sent| && !Empty(sent[d]) && h.us[0] == sent[d].start
    ensures n == RunLength(s.reassembly, 0, s.reassembly[0].tsn) && 0 < n <= |h.us|
    ensures forall i :: 0 <= i < n ==> h.us[i] == sent[d].start + i
    ensures n < |h.us| ==> h.us[n] > sent[d].start + n
    ensures RunOf(s.reassembly[..n], h.ks[..n], sid, sent, sent[d].start)
  {
    BeginsIff(s, h, sid, sent, d, lo);
    assert HoldsAt(s, h, sid, sent, 0);
    var u := h.us[0];
    n := RunLength(s.reassembly, 0, s.reassembly[0].tsn);
    RunIsConsecutive(s, h, sid, sent, d, lo, 0, u);
    RunStarts(s.reassembly, 0);
    var r, ks := s.reassembly[..n], h.ks[..n];
    forall i | 0 <= i < |r|
      ensures FragmentAt(r, ks, sid, sent, u, i)
    {
      assert HoldsAt(s, h, sid, sent, i);
    }
  }

  /** Where the call does not begin, the first message is empty or misses its first chunk. */
  lemma NoBeginNoMessage(s: Stream, h: Held, sid: nat, sent: seq<Placed>, d: nat, lo: nat)
    requires HoldsSome(s, h, sid, sent, d, lo) && (h.us == [] || !MayBegin(s.reassembly[0], s.ssn))
    ensures Pop(s, FRESH) == Popped(s, [])
    ensures d < |sent| && !Empty(sent[d]) ==> sent[d].start !in h.us
  {
    CallIs(s);
    if h.us != [] {
      BeginsIff(s, h, sid, sent, d, lo);
      assert HoldsAt(s, h, sid, sent, 0);
      assert forall i :: 0 <= i < |h.us| ==> h.us[0] <= h.us[i];
      assert d < h.ks[0] ==> End(sent[d]) <= sent[h.ks[0]].start;
    }
  }

  /**
   Exactly which messages one call delivers when empty ones were sent too: a message that is not
   empty if and only if the next one by its number is not empty either, all that is not empty
   from there to it is held in whole, and each but the first starts right at the end of
   one before it. Empty messages in between do not matter.
   */
  lemma DeliveredDespiteEmptyIff(s: Stream, h: Held, sid: nat, sent: seq<Placed>, d: nat, lo: nat, k: nat)
    requires HoldsSome(s, h, sid, sent, d, lo) && d <= k < |sent| && !Empty(sent[k])
    ensures |Pop(s, FRESH).messages| > Filled(sent, d, k) <==> !Empty(sent[d]) && Unbroken(h.us, sent, d, k)
    ensures |Pop(s, FRESH).messages| > Filled(sent, d, k) ==>
              Pop(s, FRESH).messages[Filled(sent, d, k)] == MessageOf(sid, sent[k])
  {
    hide Pop, Cut, RunLength, Unbroken, Filled;
    if h.us == [] || !MayBegin(s.reassembly[0], s.ssn) {
      NoBeginNoMessage(s, h, sid, sent, d, lo);
      if !Empty(sent[d]) {
        NoGapIsUnbroken(s, h, sid, sent, d, lo, k);
        assert d < k ==> End(sent[d]) <= sent[k].start;
        assert !NoGap(h.us, sent, d, k);
      }
    } else {
      BeginsIff(s, h, sid, sent, d, lo);
      var n := FrontRun(s, h, sid, sent, d, lo);
      CallIs(s);
      DeliverBurst(s.reassembly, s.ssn);
      CutOfRun(s.reassembly[..n], h.ks[..n], sid, sent, d, k);
      RunReachesIff(h.us, sent, d, k, n);
      NoGapIsUnbroken(s, h, sid, sent, d, lo, k);
    }
  }

  /**
   After the call the number of the stream is that of the first message from `d` on that is empty or
   was not delivered: an empty message in between stops the count for good.
   */
  lemma CountStopsAtEmpty(s: Stream, h: Held, sid: nat, sent: seq<Placed>, d: nat, lo: nat) returns (e: nat)
    requires HoldsSome(s, h, sid, sent, d, lo)
    ensures d <= e <= |sent| && Pop(s, FRESH).stream.ssn == e % MOD16
    ensures forall x :: d <= x < e ==> !Empty(sent[x]) && Unbroken(h.us, sent, d, x)
    ensures e < |sent| ==> Empty(sent[e]) || !Unbroken(h.us, sent, d, e)
  {
    hide Pop, Cut, RunLength, Unbroken;
    if h.us == [] || !MayBegin(s.reassembly[0], s.ssn) {
      NoBeginNoMessage(s, h, sid, sent, d, lo);
      e := d;
      if d < |sent| && !Empty(sent[d]) {
        NoGapIsUnbroken(s, h, sid, sent, d, lo, d);
        assert !NoGap(h.us, sent, d, d);
      }
    } else {
      BeginsIff(s, h, sid, sent, d, lo);
      var n := FrontRun(s, h, sid, sent, d, lo);
      CallIs(s);
      DeliverBurst(s.reassembly, s.ssn);
      e := NumberOfRun(s.reassembly[..n], h.ks[..n], sid, sent, d, d + HALF16);
      forall x | d <= x < |sent| && !Empty(sent[x])
        ensures End(sent[x]) <= sent[d].start + n <==> Unbroken(h.us, sent, d, x)
      {
        RunReachesIff(h.us, sent, d, x, n);
        NoGapIsUnbroken(s, h, sid, sent, d, lo, x);
      }
    }
  }

  // And from then on

  /** The receiver's handling of a new chunk of the stream. */
  function Arrive(s: Stream, c: Chunk): Popped {
    match AddChunk(s.reassembly, c)
    case DuplicateChunk => Popped(s, [])
    case Added(list) => Pop(s.(reassembly := list), FRESH)
  }

  function ArriveAll(s: Stream, cs: seq<Chunk>): Popped
    decreases |cs|
  {
    if cs == [] then Popped(s, [])
    else
      var p := Arrive(s, cs[0]);
      var rest := ArriveAll(p.stream, cs[1..]);
      Popped(rest.stream, p.messages + rest.messages)
  }

  /** An ordered chunk with a later number than the stream's. */
  predicate Ahead(c: Chunk, ssn: nat) {
    !c.unordered && Gt16(c.ssn, ssn)
  }

  predicate AllAhead(cs: seq<Chunk>, ssn: nat) {
    forall i :: 0 <= i < |cs| ==> Ahead(cs[i], ssn)
  }

  lemma {:induction false} InsertKeepsAhead(list: seq<Chunk>, c: Chunk, ssn: nat, i: nat)
    requires AllAhead(list, ssn) && Ahead(c, ssn) && i <= |list|
    ensures InsertFrom(list, c, i).Added? ==> AllAhead(InsertFrom(list, c, i).list, ssn)
    decreases |list| - i
  {
    if i < |list| && list[i].tsn != c.tsn && !Gt32(list[i].tsn, c.tsn) {
      InsertKeepsAhead(list, c, ssn, i + 1);
    }
  }

  lemma AheadWaits(s: Stream)
    requires AllAhead(s.reassembly, s.ssn)
    ensures Pop(s, FRESH) == Popped(s, [])
  {
    CallIs(s);
  }

  /**
   While every chunk has a later number than the stream's, whatever arrives, in whatever order,
   nothing is delivered and the number stays.
   */
  lemma {:induction false} StalledForGood(s: Stream, cs: seq<Chunk>)
    requires AllAhead(s.reassembly, s.ssn) && AllAhead(cs, s.ssn)
    ensures var p := ArriveAll(s, cs);
            p.messages == [] && p.stream.ssn == s.ssn && AllAhead(p.stream.reassembly, s.ssn)
    decreases |cs|
  {
    hide Pop, AddChunk, Ahead;
    if cs != [] {
      var p := Arrive(s, cs[0]);
      assert p.messages == [] && p.stream.ssn == s.ssn && AllAhead(p.stream.reassembly, s.ssn) by {
        OneStalls(s, cs[0]);
      }
      StalledForGood(p.stream, cs[1..]);
    }
  }

  lemma OneStalls(s: Stream, c: Chunk)
    requires AllAhead(s.reassembly, s.ssn) && Ahead(c, s.ssn)
    ensures var p := Arrive(s, c);
            p.messages == [] && p.stream.ssn == s.ssn && AllAhead(p.stream.reassembly, s.ssn)
  {
    hide Pop, Ahead;
    InsertKeepsAhead(s.reassembly, c, s.ssn, 0);
    var r := AddChunk(s.reassembly, c);
    if r.Added? {
      AheadWaits(s.(reassembly := r.list));
    }
  }

  /** Messages after an empty one whose turn it is are ahead, up to 2^15 of them: the stream stalls for good. */
  lemma EmptyMessageStalls(sid: nat, sent: seq<Placed>, e: nat, k: nat, j: nat)
    requires e < k < |sent| && k < e + HALF16 && Empty(sent[e]) && j < |sent[k].pieces|
    ensures Ahead(OrderedStream.Fragment(sid, k, sent[k], j), e % MOD16)
  {
    Gt16IsVirtualOrder(k, e);
  }
}
