/**
 What the acknowledgement loops of `receiveSackChunk` (packages/sctp/src/sctp.ts:703-744) do to
 each entry of the sent queue, without their indices: a chunk is acknowledged when the SACK
 reports it, and marked for retransmission at the third SACK that passes it over.
 */
module LossDetection {
  import opened SerialNumbers
  import opened Wrappers
  import opened Sacks
  import opened Outbound
  import opened OutboundLaws

  /** No entry from `i` to `j` is beyond `tsn`: the loop does not stop before `j`. */
  ghost predicate Reaches(q: seq<Entry>, tsn: int, i: nat, j: nat)
    requires j < |q|
  {
    forall x :: i <= x <= j ==> !Gt32(q[x].chunk.tsn, tsn)
  }

  function StruckEntry(e: Entry): Entry {
    if e.misses == 2 then e.(misses := 0, retransmit := true, acked := false) else e.(misses := e.misses + 1)
  }

  /** The SACK passes over entry `j`: it reports a later TSN but not this one. */
  ghost predicate PassesOver(q: seq<Entry>, seen: set<int>, newly: int, i: nat, j: nat)
    requires j < |q|
  {
    i <= j && Reaches(q, newly, i, j) && q[j].chunk.tsn !in seen
  }

  ghost predicate Third(q: seq<Entry>, seen: set<int>, newly: int, i: nat, j: nat) {
    j < |q| && PassesOver(q, seen, newly, i, j) && q[j].misses == 2
  }

  ghost predicate AnyThird(q: seq<Entry>, seen: set<int>, newly: int, i: nat) {
    exists j: nat :: Third(q, seen, newly, i, j)
  }

  ghost predicate Strikes(q: seq<Entry>, q': seq<Entry>, seen: set<int>, newly: int, i: nat) {
    |q'| == |q| && forall j :: 0 <= j < |q| ==> q'[j] == if PassesOver(q, seen, newly, i, j) then StruckEntry(q[j]) else q[j]
  }

  /** Each entry passed over is struck, no other is; a loss is one whose third strike this is. */
  lemma {:induction false} StrikeIsPointwise(t: Tally, seen: set<int>, newly: nat, i: nat, loss: bool)
    requires i <= |t.sent|
    ensures var (t', l) := Strike(t, seen, newly, i, loss);
            && Strikes(t.sent, t'.sent, seen, newly, i)
            && (l <==> loss || AnyThird(t.sent, seen, newly, i))
    decreases |t.sent| - i
  {
    hide Strikes, AnyThird;
    var q := t.sent;
    var (t', l) := Strike(t, seen, newly, i, loss);
    if i == |q| || Gt32(q[i].chunk.tsn, newly) {
      NothingStruck(q, seen, newly, i);
    } else if q[i].chunk.tsn in seen {
      StrikeIsPointwise(t, seen, newly, i + 1, loss);
      SkipsEntry(q, t'.sent, seen, newly, i);
    } else {
      var t1 := Struck(t, i);
      StrikeIsPointwise(t1, seen, newly, i + 1, loss || q[i].misses == 2);
      StrikesEntry(q, t1.sent, t'.sent, seen, newly, i);
    }
  }

  lemma NothingStruck(q: seq<Entry>, seen: set<int>, newly: int, i: nat)
    requires i <= |q| && (i < |q| ==> Gt32(q[i].chunk.tsn, newly))
    ensures Strikes(q, q, seen, newly, i) && !AnyThird(q, seen, newly, i)
  {
    forall j | 0 <= j < |q|
      ensures !PassesOver(q, seen, newly, i, j)
    {
      assert i <= j ==> Gt32(q[i].chunk.tsn, newly);
    }
  }

  lemma PassesOverFrom(q: seq<Entry>, seen: set<int>, newly: int, i: nat, j: nat)
    requires i < |q| && j < |q| && !Gt32(q[i].chunk.tsn, newly) && j != i
    ensures PassesOver(q, seen, newly, i, j) <==> PassesOver(q, seen, newly, i + 1, j)
  {
  }

  lemma SkipsEntry(q: seq<Entry>, q': seq<Entry>, seen: set<int>, newly: int, i: nat)
    requires i < |q| && !Gt32(q[i].chunk.tsn, newly) && q[i].chunk.tsn in seen
    requires Strikes(q, q', seen, newly, i + 1)
    ensures Strikes(q, q', seen, newly, i)
    ensures AnyThird(q, seen, newly, i) <==> AnyThird(q, seen, newly, i + 1)
  {
    hide PassesOver, StruckEntry;
    forall j: nat | j < |q|
      ensures PassesOver(q, seen, newly, i, j) <==> PassesOver(q, seen, newly, i + 1, j)
    {
      if j != i {
        PassesOverFrom(q, seen, newly, i, j);
      } else {
        SeenIsNotPassedOver(q, seen, newly, i);
      }
    }
    var k := i + 1;
    assert forall j: nat :: Third(q, seen, newly, i, j) <==> Third(q, seen, newly, k, j);
  }

  lemma SeenIsNotPassedOver(q: seq<Entry>, seen: set<int>, newly: int, i: nat)
    requires i < |q| && q[i].chunk.tsn in seen
    ensures !PassesOver(q, seen, newly, i, i) && !PassesOver(q, seen, newly, i + 1, i)
  {
  }

  lemma StrikesEntry(q: seq<Entry>, q1: seq<Entry>, q': seq<Entry>, seen: set<int>, newly: int, i: nat)
    requires i < |q| && !Gt32(q[i].chunk.tsn, newly) && q[i].chunk.tsn !in seen
    requires q1 == q[i := StruckEntry(q[i])] && Strikes(q1, q', seen, newly, i + 1)
    ensures Strikes(q, q', seen, newly, i)
    ensures AnyThird(q, seen, newly, i) <==> q[i].misses == 2 || AnyThird(q1, seen, newly, i + 1)
  {
    hide PassesOver;
    OwnEntry(q, q1, seen, newly, i);
    forall j: nat | j < |q| && j != i
      ensures PassesOver(q, seen, newly, i, j) <==> PassesOver(q1, seen, newly, i + 1, j)
    {
      PassesOverFrom(q, seen, newly, i, j);
      SameTsns(q, q1, seen, newly, i + 1, j);
    }
    var k := i + 1;
    assert Third(q, seen, newly, i, i) <==> q[i].misses == 2;
    assert forall j: nat :: j != i ==> (Third(q, seen, newly, i, j) <==> Third(q1, seen, newly, k, j));
    assert !Third(q1, seen, newly, k, i);
  }

  lemma OwnEntry(q: seq<Entry>, q1: seq<Entry>, seen: set<int>, newly: int, i: nat)
    requires i < |q| == |q1| && !Gt32(q[i].chunk.tsn, newly) && q[i].chunk.tsn !in seen
    ensures PassesOver(q, seen, newly, i, i) && !PassesOver(q1, seen, newly, i + 1, i)
  {
  }

  lemma SameTsns(q: seq<Entry>, q1: seq<Entry>, seen: set<int>, newly: int, i: nat, j: nat)
    requires |q| == |q1| && j < |q| && forall x :: 0 <= x < |q| ==> q1[x].chunk == q[x].chunk
    ensures PassesOver(q, seen, newly, i, j) <==> PassesOver(q1, seen, newly, i, j)
  {
  }

  // Gap acknowledgements

  ghost predicate InReport(q: seq<Entry>, seen: set<int>, highest: Option<int>, i: nat, j: nat)
    requires j < |q|
  {
    && i <= j && q[j].chunk.tsn in seen
    && forall x :: i <= x <= j ==> !Beyond(q[x].chunk.tsn, highest)
  }

  ghost predicate Marks(q: seq<Entry>, q': seq<Entry>, seen: set<int>, highest: Option<int>, i: nat) {
    && |q'| == |q|
    && forall j :: 0 <= j < |q| ==> q'[j] == if InReport(q, seen, highest, i, j) then q[j].(acked := true) else q[j]
  }

  /** Exactly the entries the SACK reports become acknowledged, and nothing else about them changes. */
  lemma {:induction false} GapAckIsPointwise(t: Tally, seen: set<int>, highest: Option<int>, i: nat, newly: nat)
    requires i <= |t.sent|
    ensures Marks(t.sent, GapAck(t, seen, highest, i, newly).0.sent, seen, highest, i)
    decreases |t.sent| - i
  {
    hide Marks;
    var q, q' := t.sent, GapAck(t, seen, highest, i, newly).0.sent;
    if i == |q| || Beyond(q[i].chunk.tsn, highest) {
      NothingMarked(q, seen, highest, i);
    } else if q[i].chunk.tsn in seen && !q[i].acked {
      var t1 := Acked(t, i);
      GapAckIsPointwise(t1, seen, highest, i + 1, q[i].chunk.tsn);
      MarksEntry(q, t1.sent, q', seen, highest, i);
    } else {
      GapAckIsPointwise(t, seen, highest, i + 1, newly);
      MarksEntry(q, q, q', seen, highest, i);
    }
  }

  lemma NothingMarked(q: seq<Entry>, seen: set<int>, highest: Option<int>, i: nat)
    requires i <= |q| && (i < |q| ==> Beyond(q[i].chunk.tsn, highest))
    ensures Marks(q, q, seen, highest, i)
  {
    forall j | 0 <= j < |q|
      ensures !InReport(q, seen, highest, i, j)
    {
      assert i <= j ==> Beyond(q[i].chunk.tsn, highest);
    }
  }

  lemma MarksEntry(q: seq<Entry>, q1: seq<Entry>, q': seq<Entry>, seen: set<int>, highest: Option<int>, i: nat)
    requires i < |q| && !Beyond(q[i].chunk.tsn, highest)
    requires q1 == if q[i].chunk.tsn in seen then q[i := q[i].(acked := true)] else q
    requires Marks(q1, q', seen, highest, i + 1)
    ensures Marks(q, q', seen, highest, i)
  {
    hide InReport;
    forall j: nat | j < |q|
      ensures InReport(q, seen, highest, i, j) <==> InReport(q1, seen, highest, i + 1, j) || (j == i && q[i].chunk.tsn in seen)
    {
      ReportedFrom(q, q1, seen, highest, i, j);
    }
    assert !InReport(q1, seen, highest, i + 1, i) by { NotBefore(q1, seen, highest, i); }
  }

  lemma NotBefore(q: seq<Entry>, seen: set<int>, highest: Option<int>, i: nat)
    requires i < |q|
    ensures !InReport(q, seen, highest, i + 1, i)
  {
  }

  lemma ReportedFrom(q: seq<Entry>, q1: seq<Entry>, seen: set<int>, highest: Option<int>, i: nat, j: nat)
    requires |q| == |q1| && i < |q| && j < |q| && !Beyond(q[i].chunk.tsn, highest)
    requires forall x :: 0 <= x < |q| ==> q1[x].chunk == q[x].chunk
    ensures InReport(q, seen, highest, i, j) <==> InReport(q1, seen, highest, i + 1, j) || (j == i && q[i].chunk.tsn in seen)
  {
  }

  // The highest TSN newly acknowledged

  ghost predicate NewlyMarked(q: seq<Entry>, seen: set<int>, highest: Option<int>, i: nat, j: nat) {
    j < |q| && InReport(q, seen, highest, i, j) && !q[j].acked
  }

  ghost predicate LastMarked(q: seq<Entry>, seen: set<int>, highest: Option<int>, i: nat, j: nat) {
    j < |q| && NewlyMarked(q, seen, highest, i, j) && forall x: nat :: NewlyMarked(q, seen, highest, i, x) ==> x <= j
  }

  lemma NewlyMarkedFrom(q: seq<Entry>, q1: seq<Entry>, seen: set<int>, highest: Option<int>, i: nat, j: nat)
    requires |q| == |q1| && i < |q| && !Beyond(q[i].chunk.tsn, highest)
    requires q1 == q || q1 == q[i := q[i].(acked := true)]
    ensures j != i ==> (NewlyMarked(q, seen, highest, i, j) <==> NewlyMarked(q1, seen, highest, i + 1, j))
    ensures NewlyMarked(q, seen, highest, i, i) <==> q[i].chunk.tsn in seen && !q[i].acked
    ensures !NewlyMarked(q1, seen, highest, i + 1, i)
  {
    if j < |q| {
      ReportedFrom(q, q1, seen, highest, i, j);
    }
    ReportedFrom(q, q1, seen, highest, i, i);
  }

  /** `n` is the TSN of the last entry marked from `i` on, or `before` if there is none. */
  ghost predicate IsNewly(q: seq<Entry>, seen: set<int>, highest: Option<int>, i: nat, before: nat, n: nat) {
    && ((forall j: nat :: !NewlyMarked(q, seen, highest, i, j)) ==> n == before)
    && (forall j: nat :: LastMarked(q, seen, highest, i, j) ==> n == q[j].chunk.tsn)
  }

  /** The loop that marks chunks returns the TSN of the last one it marked. */
  lemma {:induction false} NewlyIs(t: Tally, seen: set<int>, highest: Option<int>, i: nat, newly: nat)
    requires i <= |t.sent|
    ensures IsNewly(t.sent, seen, highest, i, newly, GapAck(t, seen, highest, i, newly).1)
    decreases |t.sent| - i
  {
    hide NewlyMarked;
    var q := t.sent;
    if i == |q| || Beyond(q[i].chunk.tsn, highest) {
      forall j: nat ensures !NewlyMarked(q, seen, highest, i, j) {
        NothingNew(q, seen, highest, i, j);
      }
    } else {
      var hit := q[i].chunk.tsn in seen && !q[i].acked;
      var t1 := if hit then Acked(t, i) else t;
      var k := i + 1;
      NewlyIs(t1, seen, highest, k, if hit then q[i].chunk.tsn else newly);
      forall j: nat
        ensures j != i ==> (NewlyMarked(q, seen, highest, i, j) <==> NewlyMarked(t1.sent, seen, highest, k, j))
        ensures NewlyMarked(q, seen, highest, i, i) <==> hit
        ensures !NewlyMarked(t1.sent, seen, highest, k, i)
      {
        NewlyMarkedFrom(q, t1.sent, seen, highest, i, j);
      }
      if forall j: nat :: !NewlyMarked(q, seen, highest, i, j) {
        assert !hit by { assert !NewlyMarked(q, seen, highest, i, i); }
        assert forall j: nat :: !NewlyMarked(t1.sent, seen, highest, k, j);
      }
      forall j: nat | LastMarked(q, seen, highest, i, j)
        ensures GapAck(t, seen, highest, i, newly).1 == q[j].chunk.tsn
      {
        if j != i {
          assert LastMarked(t1.sent, seen, highest, k, j);
        } else {
          forall x: nat ensures !NewlyMarked(t1.sent, seen, highest, k, x) {
            NotBeforeTurn(t1.sent, seen, highest, k, x);
          }
        }
      }
    }
  }

  lemma NothingNew(q: seq<Entry>, seen: set<int>, highest: Option<int>, i: nat, j: nat)
    requires i <= |q| && (i < |q| ==> Beyond(q[i].chunk.tsn, highest))
    ensures !NewlyMarked(q, seen, highest, i, j)
  {
    if j < |q| && i <= j {
      assert Beyond(q[i].chunk.tsn, highest);
    }
  }

  lemma NotBeforeTurn(q: seq<Entry>, seen: set<int>, highest: Option<int>, i: nat, j: nat)
    ensures NewlyMarked(q, seen, highest, i, j) ==> i <= j
  {
  }

  // One SACK

  ghost predicate InSequence(q: seq<Entry>, v: nat) {
    |q| < HALF32 && forall i :: 0 <= i < |q| ==> q[i].chunk.tsn == (v + i) % MOD32
  }

  /** The SACK reports entry `j` of the queue. */
  ghost predicate Reported(q: seq<Entry>, k: Sack, j: nat)
    requires j < |q|
  {
    InReport(q, Seen(k.cum, k.gaps), LastSeen(k.cum, k.gaps), 0, j)
  }

  /** And had not been reported before. */
  ghost predicate NewlyReported(q: seq<Entry>, k: Sack, j: nat) {
    j < |q| && Reported(q, k, j) && !q[j].acked
  }

  /** It does not report entry `j`, and newly reports a later one. */
  ghost predicate Missed(q: seq<Entry>, k: Sack, j: nat)
    requires j < |q|
  {
    q[j].chunk.tsn !in Seen(k.cum, k.gaps) && exists h: nat :: j < h && NewlyReported(q, k, h)
  }

  /** The last block of the SACK that is not empty. */
  ghost predicate LastBlock(gaps: seq<Gap>, l: nat) {
    l < |gaps| && gaps[l].start <= gaps[l].end && forall i :: l < i < |gaps| ==> gaps[i].start > gaps[i].end
  }

  lemma {:induction false} LastSeenIs(cum: nat, gaps: seq<Gap>, l: nat)
    requires LastBlock(gaps, l)
    ensures LastSeen(cum, gaps) == Some(TsnAt(cum, gaps[l].end))
    decreases |gaps|
  {
    var n := |gaps| - 1;
    if l < n {
      LastSeenIs(cum, gaps[..n], l);
    }
  }

  lemma OffsetOnTheWire(k: Sack, c: nat, p: nat)
    requires k.cum == c % MOD32
    ensures TsnAt(k.cum, p) == (c + p) % MOD32
  {
  }

  lemma SeenAt(k: Sack, c: nat, u: nat)
    requires k.cum == c % MOD32 && OffsetsUpTo(k.gaps, HALF32 - 1) && u < HALF32
    ensures (c + u) % MOD32 in Seen(k.cum, k.gaps) <==> InGaps(k.gaps, u)
  {
    hide TsnAt, Seen;
    SeenIs(k.cum, k.gaps, (c + u) % MOD32);
    OffsetOnTheWire(k, c, u);
    if p :| InGaps(k.gaps, p) && (c + u) % MOD32 == TsnAt(k.cum, p) {
      OffsetOnTheWire(k, c, p);
      Gt32IsVirtualOrder(c + u, c + p);
    }
  }

  /**
   Entry `j`, whose TSN is `j + 1` after the cumulative one, counts as reported if and only if some block
   contains that offset and it is not beyond the end of the last block. Blocks that ascend report all they contain.
   */
  lemma ReportedIff(q: seq<Entry>, k: Sack, c: nat, l: nat, j: nat)
    requires InSequence(q, c + 1) && k.cum == c % MOD32 && OffsetsUpTo(k.gaps, HALF32 - 1)
    requires LastBlock(k.gaps, l) && j < |q|
    ensures Reported(q, k, j) <==> InGaps(k.gaps, j + 1) && j + 1 <= k.gaps[l].end
  {
    hide Seen, LastSeen, InGaps, TsnAt;
    LastSeenIs(k.cum, k.gaps, l);
    var end := k.gaps[l].end;
    OffsetOnTheWire(k, c, end);
    forall x | 0 <= x < |q|
      ensures Beyond(q[x].chunk.tsn, LastSeen(k.cum, k.gaps)) <==> x + 1 > end
    {
      Gt32IsVirtualOrder(c + 1 + x, c + end);
    }
    assert Reported(q, k, j) ==> !Beyond(q[j].chunk.tsn, LastSeen(k.cum, k.gaps));
    SeenAt(k, c, j + 1);
  }

  lemma ReachesIff(q: seq<Entry>, v: nat, h: nat, j: nat)
    requires InSequence(q, v) && h < |q| && j < |q|
    ensures Reaches(q, q[h].chunk.tsn, 0, j) <==> j <= h
  {
    forall x | 0 <= x < |q|
      ensures Gt32(q[x].chunk.tsn, q[h].chunk.tsn) <==> x > h
    {
      Gt32IsVirtualOrder(v + x, v + h);
    }
    assert Reaches(q, q[h].chunk.tsn, 0, j) ==> !Gt32(q[j].chunk.tsn, q[h].chunk.tsn);
  }

  lemma {:induction false} SomeLastMarked(q: seq<Entry>, seen: set<int>, highest: Option<int>, h: nat) returns (l: nat)
    requires NewlyMarked(q, seen, highest, 0, h)
    ensures h <= l && LastMarked(q, seen, highest, 0, l)
    decreases |q| - h
  {
    hide InReport;
    if x: nat :| x > h && NewlyMarked(q, seen, highest, 0, x) {
      l := SomeLastMarked(q, seen, highest, x);
    } else {
      l := h;
    }
  }

  /** The strikes of a SACK, once the reported entries of `q` are marked in `g`. */
  lemma PassesOverIff(q: seq<Entry>, g: seq<Entry>, v: nat, k: Sack, newly: nat, j: nat)
    requires InSequence(q, v) && v > 0 && j < |q| == |g| && k.cum == (v - 1) % MOD32
    requires forall x :: 0 <= x < |q| ==> g[x].chunk == q[x].chunk
    requires IsNewly(q, Seen(k.cum, k.gaps), LastSeen(k.cum, k.gaps), 0, k.cum, newly)
    ensures PassesOver(g, Seen(k.cum, k.gaps), newly, 0, j) <==> Missed(q, k, j)
  {
    hide InReport, Seen, LastSeen, Reaches;
    var seen, highest := Seen(k.cum, k.gaps), LastSeen(k.cum, k.gaps);
    assert forall x: nat :: NewlyMarked(q, seen, highest, 0, x) <==> NewlyReported(q, k, x);
    SameReach(q, g, newly, j);
    if h: nat :| NewlyMarked(q, seen, highest, 0, h) {
      var l := SomeLastMarked(q, seen, highest, h);
      ReachesIff(q, v, l, j);
      MarkedIsSeen(q, seen, highest, l);
      if j < l {
        assert NewlyReported(q, k, l);
      }
    } else {
      Gt32IsVirtualOrder(v, v - 1);
      BeyondAll(q, newly, j);
    }
  }

  lemma SameReach(q: seq<Entry>, g: seq<Entry>, newly: int, j: nat)
    requires j < |q| == |g| && forall x :: 0 <= x < |q| ==> g[x].chunk == q[x].chunk
    ensures Reaches(q, newly, 0, j) <==> Reaches(g, newly, 0, j)
  {
  }

  lemma MarkedIsSeen(q: seq<Entry>, seen: set<int>, highest: Option<int>, l: nat)
    requires NewlyMarked(q, seen, highest, 0, l)
    ensures q[l].chunk.tsn in seen
  {
  }

  lemma BeyondAll(q: seq<Entry>, newly: int, j: nat)
    requires j < |q| && Gt32(q[0].chunk.tsn, newly)
    ensures !Reaches(q, newly, 0, j)
  {
  }

  /** What the SACK makes of entry `j` of the queue that the cumulative acknowledgement left. */
  ghost function AfterSack(q: seq<Entry>, k: Sack, j: nat): Entry
    requires j < |q|
  {
    if Missed(q, k, j) then StruckEntry(q[j])
    else if Reported(q, k, j) then q[j].(acked := true)
    else q[j]
  }

  /** The acknowledgement loops on a queue in sequence whose first TSN is the one after the cumulative TSN. */
  lemma LoopsArePointwise(q: seq<Entry>, flight: nat, bytes: nat, v: nat, k: Sack)
    requires InSequence(q, v) && v > 0 && k.cum == (v - 1) % MOD32
    ensures var seen := Seen(k.cum, k.gaps);
            var (t1, newly) := GapAck(Tally(q, flight, bytes), seen, LastSeen(k.cum, k.gaps), 0, k.cum);
            var (t2, loss) := Strike(t1, seen, newly, 0, false);
            && |t2.sent| == |q|
            && (forall j: nat :: j < |q| ==> t2.sent[j] == AfterSack(q, k, j))
            && (loss <==> exists j: nat :: j < |q| && Missed(q, k, j) && q[j].misses == 2)
  {
    hide GapAck, Strike, InReport, PassesOver, Missed, Seen, LastSeen, StruckEntry, IsNewly, InSequence;
    var seen, highest := Seen(k.cum, k.gaps), LastSeen(k.cum, k.gaps);
    var t := Tally(q, flight, bytes);
    GapAckIsPointwise(t, seen, highest, 0, k.cum);
    NewlyIs(t, seen, highest, 0, k.cum);
    var (t1, newly) := GapAck(t, seen, highest, 0, k.cum);
    StrikeIsPointwise(t1, seen, newly, 0, false);
    var (t2, loss) := Strike(t1, seen, newly, 0, false);
    forall j: nat | j < |q|
      ensures PassesOver(t1.sent, seen, newly, 0, j) <==> Missed(q, k, j)
      ensures Missed(q, k, j) ==> !Reported(q, k, j)
    {
      PassesOverIff(q, t1.sent, v, k, newly, j);
      MissedIsUnreported(q, k, j);
    }
    assert forall j: nat :: Third(t1.sent, seen, newly, 0, j) <==> j < |q| && Missed(q, k, j) && q[j].misses == 2;
  }

  lemma MissedIsUnreported(q: seq<Entry>, k: Sack, j: nat)
    requires j < |q|
    ensures Missed(q, k, j) ==> !Reported(q, k, j)
  {
  }

  lemma AtOrBelow(c: nat, u: nat)
    requires -HALF32 < u - c < HALF32
    ensures Gte32(c % MOD32, u % MOD32) <==> u <= c
  {
    Gt32IsVirtualOrder(c, u);
  }

  /** The cumulative acknowledgement drops exactly the entries at or below `c`. */
  lemma CumAckLeaves(sent: seq<Entry>, flight: nat, k: Sack, v: nat, c: nat)
    requires InSequence(sent, v) && 0 < v <= c + 1 && c < v + |sent| && k.cum == c % MOD32
    ensures var (t, done) := CumAck(Tally(sent, flight, 0), k.cum, 0);
            done == c + 1 - v && t.sent == sent[c + 1 - v..] && InSequence(t.sent, c + 1)
  {
    hide CumAck, Gte32;
    var t0 := Tally(sent, flight, 0);
    CumAckDropsPrefix(t0, k.cum, 0);
    var done := CumAck(t0, k.cum, 0).1;
    forall i | 0 <= i < |sent|
      ensures Gte32(k.cum, sent[i].chunk.tsn) <==> v + i <= c
    {
      AtOrBelow(c, v + i);
    }
    assert done > 0 ==> Gte32(k.cum, sent[done - 1].chunk.tsn);
    assert done < |sent| ==> !Gte32(k.cum, sent[done].chunk.tsn);
  }

  /**
   A SACK drops what is at or below its cumulative TSN `c`. Of the rest it marks what it reports, and strikes
   what it does not report below a TSN it newly reports; the third strike is a loss
   (section 7.2.4 of RFC 9260).
   */
  lemma SackIsPointwise(sent: seq<Entry>, flight: nat, k: Sack, v: nat, c: nat)
    requires InSequence(sent, v) && 0 < v <= c + 1 && c < v + |sent| && k.cum == c % MOD32
    ensures var a := Acknowledge(sent, flight, k);
            var q := sent[c + 1 - v..];
            && a.done == c + 1 - v && |a.tally.sent| == |q|
            && (forall j: nat :: j < |q| ==> a.tally.sent[j] == AfterSack(q, k, j))
            && (a.loss <==> exists j: nat :: j < |q| && Missed(q, k, j) && q[j].misses == 2)
  {
    hide CumAck, GapAck, Strike, AfterSack, Missed, InSequence, Seen, LastSeen;
    CumAckLeaves(sent, flight, k, v, c);
    var t := CumAck(Tally(sent, flight, 0), k.cum, 0).0;
    var q := sent[c + 1 - v..];
    if k.gaps == [] {
      NothingReported(q, k);
    } else {
      LoopsArePointwise(q, t.flight, t.bytes, c + 1, k);
    }
  }

  lemma NothingReported(q: seq<Entry>, k: Sack)
    requires k.gaps == []
    ensures forall j: nat :: j < |q| ==> !Missed(q, k, j) && AfterSack(q, k, j) == q[j]
  {
  }
}
