/**
 Selective acknowledgements: how `sendSack` (packages/sctp/src/sctp.ts:326-355) encodes the
 out-of-order TSNs as gap blocks, and how `receiveSackChunk` (703-711) expands them.
 */
module Sacks {
  import opened SerialNumbers
  import opened StringOrder
  import opened TsnTracking
  import opened Wrappers

  /** Offsets from the cumulative TSN; the source subtracts, so they can be negative. */
  datatype Gap = Gap(start: int, end: int)

  datatype Sack = Sack(cum: nat, rwnd: nat, gaps: seq<Gap>, duplicates: seq<nat>)

  function Offset(last: nat, tsn: nat): int {
    JsRemainder(tsn - last, MOD32)
  }

  /** One turn of the `forEach`: a TSN that follows the previous one extends the last block. */
  function Extend(g: seq<Gap>, next: Option<nat>, last: nat, tsn: nat): (g': seq<Gap>)
    requires next.Some? ==> g != []
    ensures g' != []
  {
    var pos := Offset(last, tsn);
    if next == Some(tsn) then g[..|g| - 1] + [Gap(g[|g| - 1].start, pos)] else g + [Gap(pos, pos)]
  }

  function NextOf(order: seq<nat>): Option<nat> {
    if order == [] then None else Some(PlusOne(order[|order| - 1]))
  }

  /** The blocks built from an enumeration of the out-of-order TSNs. */
  function Gaps(last: nat, order: seq<nat>): (g: seq<Gap>)
    ensures order != [] ==> g != []
  {
    if order == [] then []
    else
      var init := order[..|order| - 1];
      Extend(Gaps(last, init), NextOf(init), last, order[|order| - 1])
  }

  lemma NoGapsYet(last: nat, order: seq<nat>)
    ensures Gaps(last, order[..0]) == [] && NextOf(order[..0]) == None
  {
  }

  lemma GapsSnoc(last: nat, order: seq<nat>, i: nat)
    requires i < |order|
    ensures NextOf(order[..i]).Some? ==> Gaps(last, order[..i]) != []
    ensures Gaps(last, order[..i + 1]) == Extend(Gaps(last, order[..i]), NextOf(order[..i]), last, order[i])
    ensures NextOf(order[..i + 1]) == Some(PlusOne(order[i]))
  {
    hide Extend;
    assert order[..i + 1][..i] == order[..i] && order[..i + 1][i] == order[i];
  }

  function TsnAt(cum: nat, pos: int): int {
    JsRemainder(cum + pos, MOD32)
  }

  /** The loop that adds the TSNs of one block to `seen`. */
  function BlockTsns(cum: nat, pos: int, end: int): set<int>
    decreases end + 1 - pos
  {
    if pos >= end + 1 then {} else {TsnAt(cum, pos)} + BlockTsns(cum, pos + 1, end)
  }

  function Seen(cum: nat, gaps: seq<Gap>): set<int>
    decreases |gaps|
  {
    if gaps == [] then {} else BlockTsns(cum, gaps[0].start, gaps[0].end) + Seen(cum, gaps[1..])
  }

  /** What `SackChunk.bytes` can write; anything else makes the serialization throw, and no SACK is sent. */
  predicate Fits(s: Sack) {
    && s.cum < MOD32 && s.rwnd < MOD32
    && 16 + 4 * (|s.gaps| + |s.duplicates|) < MOD16
    && (forall i :: 0 <= i < |s.gaps| ==> 0 <= s.gaps[i].start < MOD16 && 0 <= s.gaps[i].end < MOD16)
    && (forall i :: 0 <= i < |s.duplicates| ==> s.duplicates[i] < MOD32)
  }

  ghost predicate InGaps(g: seq<Gap>, p: int) {
    exists i :: 0 <= i < |g| && g[i].start <= p <= g[i].end
  }

  lemma {:induction false} BlockTsnsAre(cum: nat, pos: int, end: int, t: int)
    ensures t in BlockTsns(cum, pos, end) <==> exists p :: pos <= p <= end && t == TsnAt(cum, p)
    decreases end + 1 - pos
  {
    hide TsnAt;
    if pos < end + 1 {
      BlockTsnsAre(cum, pos + 1, end, t);
      if exists p :: pos <= p <= end && t == TsnAt(cum, p) {
        var p :| pos <= p <= end && t == TsnAt(cum, p);
        assert p == pos || pos + 1 <= p <= end;
      }
    }
  }

  lemma {:induction false} SeenIs(cum: nat, g: seq<Gap>, t: int)
    ensures t in Seen(cum, g) <==> exists p :: InGaps(g, p) && t == TsnAt(cum, p)
    decreases |g|
  {
    hide TsnAt, InGaps;
    if g == [] {
      assert forall p :: !InGaps(g, p) by { NoGaps(); }
    } else {
      BlockTsnsAre(cum, g[0].start, g[0].end, t);
      SeenIs(cum, g[1..], t);
      forall p ensures InGaps(g, p) <==> g[0].start <= p <= g[0].end || InGaps(g[1..], p) {
        InGapsSplit(g, p);
      }
    }
  }

  lemma NoGaps()
    ensures forall p :: !InGaps([], p)
  {
  }

  lemma InGapsSplit(g: seq<Gap>, p: int)
    requires g != []
    ensures InGaps(g, p) <==> g[0].start <= p <= g[0].end || InGaps(g[1..], p)
  {
    if InGaps(g[1..], p) {
      var i :| 0 <= i < |g[1..]| && g[1..][i].start <= p <= g[1..][i].end;
      assert g[i + 1].start <= p <= g[i + 1].end;
    }
    if InGaps(g, p) {
      var i :| 0 <= i < |g| && g[i].start <= p <= g[i].end;
      if i > 0 {
        assert g[1..][i - 1].start <= p <= g[1..][i - 1].end;
      }
    }
  }

  lemma InGapsAppend(g: seq<Gap>, x: Gap, p: int)
    ensures InGaps(g + [x], p) <==> InGaps(g, p) || x.start <= p <= x.end
  {
    var h := g + [x];
    if InGaps(g, p) {
      var i :| 0 <= i < |g| && g[i].start <= p <= g[i].end;
      assert h[i] == g[i];
    }
    if x.start <= p <= x.end {
      assert h[|g|] == x;
    }
  }

  /** The blocks so far: non-empty if anything was read, ending at the offset of the TSN read last. */
  ghost predicate EndsAt(g: seq<Gap>, last: nat, order: seq<nat>) {
    order != [] ==> g != [] && g[|g| - 1].end == Offset(last, order[|order| - 1])
  }

  lemma GapsEnd(last: nat, order: seq<nat>)
    ensures EndsAt(Gaps(last, order), last, order)
  {
  }

  lemma ExtendCovers(g: seq<Gap>, last: nat, order: seq<nat>, tsn: nat, p: int)
    requires last < MOD32 && last < tsn < MOD32 && EndsAt(g, last, order)
    requires forall i :: 0 <= i < |order| ==> last < order[i] < MOD32
    requires forall i :: 0 <= i < |g| ==> 1 <= g[i].start <= g[i].end
    ensures var g' := Extend(g, NextOf(order), last, tsn);
            && (InGaps(g', p) <==> InGaps(g, p) || p == tsn - last)
            && (forall i :: 0 <= i < |g'| ==> 1 <= g'[i].start <= g'[i].end)
  {
    var pos := tsn - last;
    if NextOf(order) == Some(tsn) {
      var k := |g| - 1;
      assert g == g[..k] + [g[k]];
      assert g[k].end == pos - 1;
      InGapsAppend(g[..k], g[k], p);
      InGapsAppend(g[..k], Gap(g[k].start, pos), p);
    } else {
      InGapsAppend(g, Gap(pos, pos), p);
    }
  }

  /** The blocks cover exactly the offsets of the enumerated TSNs, whatever their order. */
  lemma {:induction false} GapsCover(last: nat, order: seq<nat>, p: int)
    requires last < MOD32 && forall i :: 0 <= i < |order| ==> last < order[i] < MOD32
    ensures InGaps(Gaps(last, order), p) <==> last + p in order
    ensures forall i :: 0 <= i < |Gaps(last, order)| ==> 1 <= Gaps(last, order)[i].start <= Gaps(last, order)[i].end
    decreases |order|
  {
    hide InGaps, Extend, NextOf, EndsAt;
    if order == [] {
      NoGaps();
    } else {
      var n := |order| - 1;
      var init := order[..n];
      GapsCover(last, init, p);
      GapsEnd(last, init);
      ExtendCovers(Gaps(last, init), last, init, order[n], p);
      assert order == init + [order[n]];
    }
  }

  ghost predicate HasNegative(g: seq<Gap>) {
    exists i :: 0 <= i < |g| && (g[i].start < 0 || g[i].end < 0)
  }

  lemma ExtendKeepsNegative(g: seq<Gap>, last: nat, order: seq<nat>, tsn: nat)
    requires last < MOD32 && tsn < MOD32 && tsn != last && EndsAt(g, last, order)
    requires forall j :: 0 <= j < |order| ==> order[j] < MOD32 && order[j] != last
    requires HasNegative(g) || tsn < last
    ensures HasNegative(Extend(g, NextOf(order), last, tsn))
  {
    var g' := Extend(g, NextOf(order), last, tsn);
    var k := |g'| - 1;
    if tsn < last {
      assert g'[k].end < 0;
    } else {
      var i :| 0 <= i < |g| && (g[i].start < 0 || g[i].end < 0);
      assert i < |g'| && g'[i].start == g[i].start;
      if NextOf(order) == Some(tsn) && i == |g| - 1 {
        assert order[|order| - 1] == tsn - 1;
      } else {
        assert g'[i] == g[i];
      }
    }
  }

  /** A TSN below the cumulative one (the space wrapped) leaves a negative offset in the blocks. */
  lemma {:induction false} WrapIsNegative(last: nat, order: seq<nat>, i: nat)
    requires last < MOD32 && i < |order| && order[i] < last
    requires forall j :: 0 <= j < |order| ==> order[j] < MOD32 && order[j] != last
    ensures HasNegative(Gaps(last, order))
    decreases |order|
  {
    hide HasNegative, Extend, NextOf, EndsAt;
    var n := |order| - 1;
    GapsEnd(last, order[..n]);
    if i < n {
      WrapIsNegative(last, order[..n], i);
    }
    ExtendKeepsNegative(Gaps(last, order[..n]), last, order[..n], order[n]);
  }

  lemma WiresBound(t: Tracker, c: nat, m: set<nat>, x: nat)
    requires Tracks(t, c, m) && x in t.misordered
    ensures x < MOD32 && x != t.last
  {
    var v :| v in m && v % MOD32 == x;
    Gt32IsVirtualOrder(v, c);
  }

  /** A SACK that can be serialized comes from TSNs that have not wrapped past the cumulative one. */
  lemma FitsMeansNoWrap(t: Tracker, c: nat, m: set<nat>, order: seq<nat>, i: nat)
    requires Tracks(t, c, m) && Enumerates(order, t.misordered) && i < |order|
    requires !HasNegative(Gaps(t.last, order))
    ensures t.last < order[i] < MOD32
  {
    hide HasNegative, Gaps;
    forall j | 0 <= j < |order| ensures order[j] < MOD32 && order[j] != t.last {
      assert order[j] in t.misordered;
      WiresBound(t, c, m, order[j]);
    }
    if order[i] < t.last {
      WrapIsNegative(t.last, order, i);
    }
  }

  /**
   The round trip of the gap blocks, for any enumeration order: if the SACK can be
   serialized at all, the TSNs the sender expands are exactly the out-of-order TSNs.
   */
  lemma GapsRoundTrip(t: Tracker, c: nat, m: set<nat>, order: seq<nat>, rwnd: nat)
    requires Tracks(t, c, m) && Enumerates(order, t.misordered)
    requires Fits(Sack(t.last, rwnd, Gaps(t.last, order), t.duplicates))
    ensures Seen(t.last, Gaps(t.last, order)) == t.misordered
  {
    var g := Gaps(t.last, order);
    assert !HasNegative(g);
    forall i | 0 <= i < |order| ensures t.last < order[i] < MOD32 {
      FitsMeansNoWrap(t, c, m, order, i);
    }
    forall x ensures x in Seen(t.last, g) <==> x in t.misordered {
      SeenIsEnumerated(t.last, order, x);
      assert x in t.misordered ==> x >= 0;
    }
  }

  lemma SeenIsEnumerated(last: nat, order: seq<nat>, x: int)
    requires last < MOD32 && forall i :: 0 <= i < |order| ==> last < order[i] < MOD32
    ensures x in Seen(last, Gaps(last, order)) <==> x in order
  {
    hide InGaps, Gaps, Seen;
    var g := Gaps(last, order);
    SeenIs(last, g, x);
    if x in order {
      GapsCover(last, order, x - last);
      assert TsnAt(last, x - last) == x;
    }
    if x in Seen(last, g) {
      var p :| InGaps(g, p) && x == TsnAt(last, p);
      GapsCover(last, order, p);
      assert last + p in order;
    }
  }

  // Which SACKs can be written

  /** How many enumerated TSNs do not follow the one before them. */
  function Blocks(order: seq<nat>): nat {
    if order == [] then 0
    else
      var init := order[..|order| - 1];
      Blocks(init) + if NextOf(init) == Some(order[|order| - 1]) then 0 else 1
  }

  lemma {:induction false} OneGapPerBlock(last: nat, order: seq<nat>)
    ensures |Gaps(last, order)| == Blocks(order)
    decreases |order|
  {
    if order != [] {
      OneGapPerBlock(last, order[..|order| - 1]);
    }
  }

  ghost predicate OffsetsUpTo(g: seq<Gap>, n: int) {
    forall i :: 0 <= i < |g| ==> 0 <= g[i].start <= n && 0 <= g[i].end <= n
  }

  lemma {:induction false} GapsAreOffsets(last: nat, order: seq<nat>, n: int)
    requires forall i :: 0 <= i < |order| ==> 0 <= Offset(last, order[i]) <= n
    ensures OffsetsUpTo(Gaps(last, order), n)
    decreases |order|
  {
    hide Offset;
    if order != [] {
      GapsAreOffsets(last, order[..|order| - 1], n);
    }
  }

  /** Every out-of-order TSN is above the cumulative one, at most 65535 away, and the blocks and duplicates fit the chunk. */
  predicate Sendable(t: Tracker, order: seq<nat>, rwnd: nat) {
    && (forall x :: x in t.misordered ==> t.last < x < t.last + MOD16)
    && 16 + 4 * (Blocks(order) + |t.duplicates|) < MOD16
    && rwnd < MOD32 && (forall i :: 0 <= i < |t.duplicates| ==> t.duplicates[i] < MOD32)
  }

  lemma NearMeansFits(t: Tracker, c: nat, m: set<nat>, order: seq<nat>, rwnd: nat)
    requires Tracks(t, c, m) && Enumerates(order, t.misordered) && Sendable(t, order, rwnd)
    ensures Fits(Sack(t.last, rwnd, Gaps(t.last, order), t.duplicates))
  {
    hide Gaps, Blocks;
    OneGapPerBlock(t.last, order);
    forall i | 0 <= i < |order| ensures 0 <= Offset(t.last, order[i]) <= MOD16 - 1 {
      assert order[i] in t.misordered;
      WiresBound(t, c, m, order[i]);
    }
    GapsAreOffsets(t.last, order, MOD16 - 1);
  }

  lemma FitsMeansNear(t: Tracker, c: nat, m: set<nat>, order: seq<nat>, rwnd: nat)
    requires Tracks(t, c, m) && Enumerates(order, t.misordered)
    requires Fits(Sack(t.last, rwnd, Gaps(t.last, order), t.duplicates))
    ensures Sendable(t, order, rwnd)
  {
    hide Gaps, Blocks, Tracks;
    var g := Gaps(t.last, order);
    OneGapPerBlock(t.last, order);
    assert !HasNegative(g);
    forall i | 0 <= i < |order| ensures t.last < order[i] < MOD32 {
      FitsMeansNoWrap(t, c, m, order, i);
    }
    forall x | x in t.misordered ensures t.last < x < t.last + MOD16 {
      assert x in order;
      GapsCover(t.last, order, x - t.last);
      var i :| 0 <= i < |g| && g[i].start <= x - t.last <= g[i].end;
    }
  }

  /** A SACK is sent exactly if the receiver's state is `Sendable`, for any enumeration order. */
  lemma FitsIff(t: Tracker, c: nat, m: set<nat>, order: seq<nat>, rwnd: nat)
    requires Tracks(t, c, m) && Enumerates(order, t.misordered)
    ensures Fits(Sack(t.last, rwnd, Gaps(t.last, order), t.duplicates)) <==> Sendable(t, order, rwnd)
  {
    hide Fits, Sendable;
    if Sendable(t, order, rwnd) {
      NearMeansFits(t, c, m, order, rwnd);
    }
    if Fits(Sack(t.last, rwnd, Gaps(t.last, order), t.duplicates)) {
      FitsMeansNear(t, c, m, order, rwnd);
    }
  }

  /** Two receivers that cannot send theirs: the TSNs wrapped past 0, or one is 65536 away. */
  lemma SomeSacksAreNotSent(order: seq<nat>, rwnd: nat)
    ensures Tracks(Tracker(MOD32 - 1, {1}, []), MOD32 - 1, {MOD32 + 1})
    ensures Enumerates(order, {1}) ==> !Fits(Sack(MOD32 - 1, rwnd, Gaps(MOD32 - 1, order), []))
    ensures Tracks(Tracker(7, {7 + MOD16}, []), 7, {7 + MOD16})
    ensures Enumerates(order, {7 + MOD16}) ==> !Fits(Sack(7, rwnd, Gaps(7, order), []))
  {
    hide Fits, Gaps;
    var wrapped, far := Tracker(MOD32 - 1, {1}, []), Tracker(7, {7 + MOD16}, []);
    assert 1 in wrapped.misordered && 7 + MOD16 in far.misordered;
    assert (MOD32 + 1) in {MOD32 + 1} && (MOD32 + 1) % MOD32 == 1;
    assert (7 + MOD16) in {7 + MOD16} && (7 + MOD16) % MOD32 == 7 + MOD16;
    if Enumerates(order, {1}) {
      FitsIff(wrapped, MOD32 - 1, {MOD32 + 1}, order, rwnd);
    }
    if Enumerates(order, {7 + MOD16}) {
      FitsIff(far, 7, {7 + MOD16}, order, rwnd);
    }
  }

  /** The blocks are ascending with a gap between them. */
  ghost predicate WellSeparated(g: seq<Gap>) {
    && (forall i :: 0 <= i < |g| ==> g[i].start <= g[i].end)
    && (forall i, j :: 0 <= i < j < |g| ==> g[i].end + 1 < g[j].start)
  }

  /** All blocks start at 2 or more. */
  ghost predicate FromTwo(g: seq<Gap>) {
    forall i :: 0 <= i < |g| ==> 2 <= g[i].start
  }

  lemma WidenLast(g: seq<Gap>, end: int)
    requires WellSeparated(g) && FromTwo(g) && g != [] && g[|g| - 1].end <= end
    ensures var g' := g[..|g| - 1] + [Gap(g[|g| - 1].start, end)];
            WellSeparated(g') && FromTwo(g')
  {
  }

  lemma AddBlock(g: seq<Gap>, pos: int)
    requires WellSeparated(g) && FromTwo(g) && 2 <= pos && (g != [] ==> g[|g| - 1].end + 1 < pos)
    ensures WellSeparated(g + [Gap(pos, pos)]) && FromTwo(g + [Gap(pos, pos)])
  {
    assert forall i :: 0 <= i < |g| ==> g[i].end <= g[|g| - 1].end;
  }

  lemma ExtendSeparates(g: seq<Gap>, last: nat, order: seq<nat>, tsn: nat)
    requires last + 1 < tsn < MOD32 && EndsAt(g, last, order)
    requires forall i :: 0 <= i < |order| ==> last + 1 < order[i] < tsn
    requires WellSeparated(g) && FromTwo(g) && (order == [] ==> g == [])
    ensures var g' := Extend(g, NextOf(order), last, tsn); WellSeparated(g') && FromTwo(g')
  {
    hide WellSeparated, FromTwo;
    if NextOf(order) == Some(tsn) {
      WidenLast(g, tsn - last);
    } else {
      assert order != [] ==> order[|order| - 1] + 1 < tsn;
      AddBlock(g, tsn - last);
    }
  }

  /**
   Under numeric order, with the next TSN missing, the blocks are those of section 3.3.4 of
   RFC 9260: disjoint, non-adjacent, ascending, the first starting at 2 or more.
   */
  lemma {:induction false} NumericGapsAreSeparated(last: nat, order: seq<nat>)
    requires last < MOD32 && Ascending(order)
    requires forall i :: 0 <= i < |order| ==> last + 1 < order[i] < MOD32
    ensures WellSeparated(Gaps(last, order))
    ensures forall i :: 0 <= i < |Gaps(last, order)| ==> 2 <= Gaps(last, order)[i].start
    decreases |order|
  {
    hide Extend, NextOf, EndsAt, WellSeparated;
    if order == [] {
      assert WellSeparated([]) by { NothingIsSeparated(); }
    } else {
      var n := |order| - 1;
      NumericGapsAreSeparated(last, order[..n]);
      GapsEnd(last, order[..n]);
      ExtendSeparates(Gaps(last, order[..n]), last, order[..n], order[n]);
    }
  }

  lemma NothingIsSeparated()
    ensures WellSeparated([])
  {
  }
}
