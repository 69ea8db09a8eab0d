/**
 Which TSNs have been received: `lastReceivedTsn`, `sackMisOrdered` and
 `sackDuplicates` of packages/sctp/src/sctp.ts, as `markReceived` (857-878) and the
 cumulative half of `receiveForwardTsnChunk` (787-810) change them.

 `Tracks(t, c, m)` ties the 32-bit fields to the virtual cumulative TSN `c` and the
 virtual TSNs `m` received beyond it, so that the TSNs received so far are exactly
 those with `Received(c, m, v)`.
 */
module TsnTracking {
  import opened SerialNumbers
  import opened StringOrder

  datatype Tracker = Tracker(last: nat, misordered: set<nat>, duplicates: seq<nat>)

  /** The loop that moves the cumulative TSN over an enumeration of the out-of-order TSNs. */
  function Advance(last: nat, order: seq<nat>): nat
    decreases |order|
  {
    if order != [] && order[0] == PlusOne(last) then Advance(order[0], order[1..]) else last
  }

  function LaterSet(s: set<nat>, last: nat): set<nat> {
    set x | x in s && Gt32(x, last)
  }

  function LaterSeq(q: seq<nat>, last: nat): seq<nat> {
    if q == [] then []
    else (if Gt32(q[0], last) then [q[0]] else []) + LaterSeq(q[1..], last)
  }

  predicate IsDuplicate(t: Tracker, tsn: nat) {
    Gte32(t.last, tsn) || tsn in t.misordered
  }

  /** `markReceived`, for whatever enumeration `order` the sort produces. */
  function MarkReceivedBy(t: Tracker, tsn: nat, order: seq<nat>): Tracker {
    if IsDuplicate(t, tsn) then t.(duplicates := t.duplicates + [tsn])
    else
      var last := Advance(t.last, order);
      Tracker(last, LaterSet(t.misordered + {tsn}, last), LaterSeq(t.duplicates, last))
  }

  function MarkReceived(t: Tracker, tsn: nat): Tracker {
    MarkReceivedBy(t, tsn, JsSort(t.misordered + {tsn}))
  }

  /** The cumulative half of `receiveForwardTsnChunk`, for any enumeration of what lies beyond `cum`. */
  function ForwardBy(t: Tracker, cum: nat, order: seq<nat>): Tracker {
    if Gte32(t.last, cum) then t
    else
      var last := Advance(cum, order);
      Tracker(last, LaterSet(LaterSet(t.misordered, cum), last), LaterSeq(t.duplicates, last))
  }

  function Forward(t: Tracker, cum: nat): Tracker {
    ForwardBy(t, cum, JsSort(LaterSet(t.misordered, cum)))
  }

  // Virtual TSNs

  ghost predicate Received(c: nat, m: set<nat>, v: nat) {
    v <= c || v in m
  }

  ghost predicate Within(c: int, s: set<nat>) {
    forall v :: v in s ==> c < v < c + HALF32
  }

  ghost predicate WiresOf(w: set<nat>, s: set<nat>) {
    && (forall v :: v in s ==> v % MOD32 in w)
    && (forall x :: x in w ==> exists v :: v in s && v % MOD32 == x)
  }

  ghost predicate Tracks(t: Tracker, c: nat, m: set<nat>) {
    t.last == c % MOD32 && Within(c, m) && WiresOf(t.misordered, m)
  }

  /** `r` belongs to the unbroken run of received TSNs that follows `c`. */
  ghost predicate InRun(c: nat, s: set<nat>, r: nat) {
    c < r && forall v :: c < v <= r ==> v in s
  }

  /**
   Whatever the order, the advance only passes TSNs that were received. `base` keeps
   the window fixed while `c` moves.
   */
  lemma {:induction false} AdvanceIsSound(base: nat, c: nat, s: set<nat>, order: seq<nat>) returns (c': nat)
    requires base <= c < base + HALF32 && Within(base, s)
    requires forall x :: x in order ==> exists v :: v in s && v % MOD32 == x
    ensures c <= c' < base + HALF32
    ensures c' % MOD32 == Advance(c % MOD32, order)
    ensures forall v :: c < v <= c' ==> v in s
    ensures c' - c <= |order|
    ensures forall i :: 0 <= i < c' - c ==> order[i] == (c + 1 + i) % MOD32
    ensures c' - c < |order| ==> order[c' - c] != (c' + 1) % MOD32
    decreases |order|
  {
    PlusOneIsVirtual(c);
    if order != [] && order[0] == PlusOne(c % MOD32) {
      assert order[0] in order;
      var v :| v in s && v % MOD32 == order[0];
      Gt32IsVirtualOrder(v, c + 1);
      assert forall x :: x in order[1..] ==> x in order;
      c' := AdvanceIsSound(base, c + 1, s, order[1..]);
      forall i | 0 <= i < c' - c ensures order[i] == (c + 1 + i) % MOD32 {
        if i > 0 {
          assert order[i] == order[1..][i - 1];
        }
      }
    } else {
      c' := c;
    }
  }

  lemma LaterIsAbove(w: set<nat>, s: set<nat>, lo: nat, c: nat) returns (m: set<nat>)
    requires lo <= c < lo + HALF32 && Within(lo, s) && WiresOf(w, s)
    ensures m == set v | v in s && v > c
    ensures Within(c, m) && WiresOf(LaterSet(w, c % MOD32), m)
  {
    m := set v | v in s && v > c;
    forall v | v in s ensures Gt32(v % MOD32, c % MOD32) <==> v > c {
      Gt32IsVirtualOrder(v, c);
    }
    forall x | x in LaterSet(w, c % MOD32) ensures exists v :: v in m && v % MOD32 == x {
      var v :| v in s && v % MOD32 == x;
      assert v in m;
    }
  }

  /** `markReceived` answers "duplicate" for exactly the TSNs received before. */
  lemma DuplicateIsReceived(t: Tracker, c: nat, m: set<nat>, u: nat)
    requires Tracks(t, c, m) && -HALF32 < u - c < HALF32
    ensures IsDuplicate(t, u % MOD32) <==> Received(c, m, u)
  {
    Gt32IsVirtualOrder(c, u);
    if u > c && u % MOD32 in t.misordered {
      var v :| v in m && v % MOD32 == u % MOD32;
      Gt32IsVirtualOrder(v, u);
    }
  }

  /**
   The bookkeeping is exact for every enumeration order: a new TSN adds itself to the
   received set and nothing else, a duplicate changes neither field.
   */
  lemma MarkReceivedIsExact(t: Tracker, c: nat, m: set<nat>, u: nat, order: seq<nat>)
    returns (c': nat, m': set<nat>)
    requires Tracks(t, c, m) && -HALF32 < u - c < HALF32
    requires Enumerates(order, t.misordered + {u % MOD32})
    ensures Tracks(MarkReceivedBy(t, u % MOD32, order), c', m')
    ensures IsDuplicate(t, u % MOD32) <==> Received(c, m, u)
    ensures Received(c, m, u) ==> c' == c && m' == m
    ensures c <= c' < c + HALF32
    ensures forall v: nat :: Received(c', m', v) <==> Received(c, m, v) || v == u
  {
    DuplicateIsReceived(t, c, m, u);
    if Received(c, m, u) {
      c', m' := c, m;
    } else {
      var s := m + {u};
      WiresGrow(t.misordered, m, u);
      assert forall x :: x in order ==> x in t.misordered + {u % MOD32};
      c' := AdvanceIsSound(c, c, s, order);
      m' := LaterIsAbove(t.misordered + {u % MOD32}, s, c, c');
      forall v: nat ensures Received(c', m', v) <==> Received(c, m, v) || v == u {
        assert c < v <= c' ==> v in s;
      }
    }
  }

  lemma WiresGrow(w: set<nat>, m: set<nat>, u: nat)
    requires WiresOf(w, m)
    ensures WiresOf(w + {u % MOD32}, m + {u})
  {
    forall x | x in w + {u % MOD32} ensures exists v :: v in m + {u} && v % MOD32 == x {
      if x in w {
        var v :| v in m && v % MOD32 == x;
        assert v in m + {u};
      } else {
        assert u in m + {u};
      }
    }
  }

  /** An accepted FORWARD-TSN makes exactly the TSNs up to its cumulative TSN count as received. */
  lemma ForwardIsExact(t: Tracker, c: nat, m: set<nat>, f: nat, order: seq<nat>)
    returns (c': nat, m': set<nat>)
    requires Tracks(t, c, m) && -HALF32 < f - c < HALF32
    requires Enumerates(order, LaterSet(t.misordered, f % MOD32))
    ensures Tracks(ForwardBy(t, f % MOD32, order), c', m')
    ensures Gte32(t.last, f % MOD32) <==> f <= c
    ensures c <= c' < c + HALF32 && f <= c'
    ensures forall v: nat :: Received(c', m', v) <==> Received(c, m, v) || v <= f
  {
    Gt32IsVirtualOrder(c, f);
    if f <= c {
      c', m' := c, m;
    } else {
      var s := LaterIsAbove(t.misordered, m, c, f);
      c' := AdvanceIsSound(f, f, s, order);
      m' := LaterIsAbove(LaterSet(t.misordered, f % MOD32), s, f, c');
      assert c' == f || c' in s;
      forall v: nat ensures Received(c', m', v) <==> Received(c, m, v) || v <= f {
        assert f < v <= c' ==> v in s;
        assert v in s <==> v in m && v > f;
        assert v in m' <==> v in s && v > c';
      }
    }
  }

  // How far the advance gets

  /**
   The cumulative TSN stops at the end of the received run (the next TSN is missing) if
   and only if the enumeration lists every TSN of the run before any larger one.
   */
  lemma AdvanceIsMaximalIff(c: nat, s: set<nat>, w: set<nat>, order: seq<nat>, c': nat)
    requires Within(c, s) && WiresOf(w, s) && Enumerates(order, w)
    requires c <= c' < c + HALF32 && c' % MOD32 == Advance(c % MOD32, order)
    ensures c' + 1 !in s <==>
            forall r: nat, x: nat :: InRun(c, s, r) && x in s && x > r ==> Precedes(order, r % MOD32, x % MOD32)
  {
    assert forall x :: x in order ==> x in w;
    var e := AdvanceIsSound(c, c, s, order);
    Gt32IsVirtualOrder(e, c');
    if c' + 1 !in s {
      forall r: nat, x: nat | InRun(c, s, r) && x in s && x > r ensures Precedes(order, r % MOD32, x % MOD32) {
        RunPrecedes(c, s, w, order, c', r, x);
      }
    } else {
      var x := NextIsPreceded(c, s, w, order, c');
    }
  }

  lemma RunPrecedes(c: nat, s: set<nat>, w: set<nat>, order: seq<nat>, c': nat, r: nat, x: nat)
    requires Within(c, s) && WiresOf(w, s) && Enumerates(order, w)
    requires c <= c' < c + HALF32 && c' - c <= |order|
    requires forall i :: 0 <= i < c' - c ==> order[i] == (c + 1 + i) % MOD32
    requires c' + 1 !in s && InRun(c, s, r) && x in s && x > r
    ensures Precedes(order, r % MOD32, x % MOD32)
  {
    assert r <= c';
    assert order[r - c - 1] == r % MOD32;
    var j :| 0 <= j < |order| && order[j] == x % MOD32;
    if j < c' - c {
      Gt32IsVirtualOrder(x, c + 1 + j);
    }
  }

  lemma NextIsPreceded(c: nat, s: set<nat>, w: set<nat>, order: seq<nat>, c': nat) returns (x: nat)
    requires Within(c, s) && WiresOf(w, s) && Enumerates(order, w)
    requires c <= c' && c' - c <= |order| && c' + 1 in s
    requires forall v :: c < v <= c' ==> v in s
    requires forall i :: 0 <= i < c' - c ==> order[i] == (c + 1 + i) % MOD32
    requires c' - c < |order| ==> order[c' - c] != (c' + 1) % MOD32
    ensures InRun(c, s, c' + 1)
    ensures x in s && x > c' + 1 && !Precedes(order, (c' + 1) % MOD32, x % MOD32)
  {
    var j :| 0 <= j < |order| && order[j] == (c' + 1) % MOD32;
    var k := c' - c;
    if j < k {
      Gt32IsVirtualOrder(c' + 1, c + 1 + j);
    }
    assert k < j;
    assert order[k] in w;
    assert forall v: nat :: c < v <= c' ==> v % MOD32 == order[v - c - 1] != order[k];
    x :| x in s && x % MOD32 == order[k];
    assert x > c' + 1;
  }

  /** For the sort of the code: maximal exactly where string order is numeric order above the run. */
  lemma JsAdvanceIsMaximalIff(c: nat, s: set<nat>, w: set<nat>, c': nat)
    requires Within(c, s) && WiresOf(w, s)
    requires c <= c' < c + HALF32 && c' % MOD32 == Advance(c % MOD32, JsSort(w))
    ensures c' + 1 !in s <==>
            forall r: nat, x: nat :: InRun(c, s, r) && x in s && x > r ==> StringLess(r % MOD32, x % MOD32)
  {
    AdvanceIsMaximalIff(c, s, w, JsSort(w), c');
    forall r: nat, x: nat | InRun(c, s, r) && x in s
      ensures Precedes(JsSort(w), r % MOD32, x % MOD32) <==> StringLess(r % MOD32, x % MOD32)
    {
      assert r in s;
      PrecedesIsStringLess(JsSort(w), r % MOD32, x % MOD32);
    }
  }

  /** The string order does strand a received TSN: with 9 and 10 received after 8, it stays at 8. */
  lemma StrandedTsn()
    ensures MarkReceived(Tracker(8, {10}, []), 9) == Tracker(8, {9, 10}, [])
  {
    var q := JsSort({10} + {9});
    TenBeforeNine();
    assert 9 in q && 10 in q;
    PrecedesIsStringLess(q, 10, 9);
    assert q[0] in q;
    assert Advance(8, q) == 8;
    assert LaterSet({10} + {9}, 8) == {9, 10};
    assert LaterSeq([], 8) == [];
  }

  /** The next TSN was received, but the sort puts another received one in front of it. */
  ghost predicate Stranded(t: Tracker) {
    && PlusOne(t.last) in t.misordered
    && exists x :: x in t.misordered && Gt32(x, t.last) && StringLess(x, PlusOne(t.last))
  }

  function MarkAllReceived(t: Tracker, tsns: seq<nat>): Tracker
    decreases |tsns|
  {
    if tsns == [] then t else MarkAllReceived(MarkReceived(t, tsns[0]), tsns[1..])
  }

  /** A TSN that another of the set precedes does not come first, so it is not where an advance starts. */
  lemma PrecededIsNotFirst(w: set<nat>, last: nat, x: nat)
    requires x in w && PlusOne(last) in w && StringLess(x, PlusOne(last))
    ensures Advance(last, JsSort(w)) == last
  {
    hide Decimal, LexLess, StringLess, PlusOne;
    var order := JsSort(w);
    PrecedesIsStringLess(order, x, PlusOne(last));
    hide JsSort;
    var i, j :| 0 <= i < j < |order| && order[i] == x && order[j] == PlusOne(last);
    assert order[0] != order[j];
  }

  lemma StrandedStays(t: Tracker, tsn: nat)
    requires t.last < MOD32 && Stranded(t)
    ensures var t' := MarkReceived(t, tsn);
            && t'.last == t.last && Stranded(t')
            && forall x :: x in t.misordered && Gt32(x, t.last) ==> x in t'.misordered
  {
    hide JsSort, Advance, StringLess, LaterSeq;
    var x :| x in t.misordered && Gt32(x, t.last) && StringLess(x, PlusOne(t.last));
    if !IsDuplicate(t, tsn) {
      PrecededIsNotFirst(t.misordered + {tsn}, t.last, x);
      assert x in MarkReceived(t, tsn).misordered;
    }
  }

  /**
   A stranded cumulative TSN is never recovered by DATA: whatever TSNs arrive, in whatever order, it stays,
   and so does everything received above it. Only a FORWARD-TSN moves it.
   */
  lemma {:induction false} StrandedForGood(t: Tracker, tsns: seq<nat>)
    requires t.last < MOD32 && Stranded(t)
    ensures var t' := MarkAllReceived(t, tsns);
            && t'.last == t.last && Stranded(t')
            && forall x :: x in t.misordered && Gt32(x, t.last) ==> x in t'.misordered
    decreases |tsns|
  {
    hide MarkReceived, Stranded;
    if tsns != [] {
      StrandedStays(t, tsns[0]);
      StrandedForGood(MarkReceived(t, tsns[0]), tsns[1..]);
    }
  }

  // Duplicates to report

  lemma {:induction false} LaterSeqIs(q: seq<nat>, last: nat, x: nat)
    ensures x in LaterSeq(q, last) <==> x in q && Gt32(x, last)
  {
    if q != [] {
      LaterSeqIs(q[1..], last, x);
      assert q == [q[0]] + q[1..];
    }
  }

  lemma {:induction false} LastArrival(t: Tracker, tsns: seq<nat>)
    requires tsns != []
    ensures var n := |tsns| - 1;
            MarkAllReceived(t, tsns) == MarkReceived(MarkAllReceived(t, tsns[..n]), tsns[n])
    decreases |tsns|
  {
    hide MarkReceived;
    if |tsns| == 1 {
      assert tsns[1..] == [] && tsns[..0] == [];
    } else {
      LastArrival(MarkReceived(t, tsns[0]), tsns[1..]);
      assert tsns[1..][..|tsns| - 2] == tsns[..|tsns| - 1][1..];
    }
  }

  /** Arrival `j` is a TSN received before. */
  predicate ArrivesAgain(t: Tracker, tsns: seq<nat>, j: nat) {
    j < |tsns| && IsDuplicate(MarkAllReceived(t, tsns[..j]), tsns[j])
  }

  /** Arrival `i` is a duplicate of `x`, and no new TSN since then moved the cumulative TSN up to `x`. */
  ghost predicate ToReport(t: Tracker, tsns: seq<nat>, x: nat, i: nat) {
    && ArrivesAgain(t, tsns, i) && tsns[i] == x
    && forall j: nat :: i < j < |tsns| && !ArrivesAgain(t, tsns, j) ==> Gt32(x, MarkAllReceived(t, tsns[..j + 1]).last)
  }

  /** What `ToReport` says of the arrivals before the last. */
  lemma ToReportBefore(t: Tracker, tsns: seq<nat>, x: nat, i: nat)
    requires tsns != [] && i < |tsns| - 1
    ensures var n := |tsns| - 1;
            ToReport(t, tsns, x, i) <==>
            ToReport(t, tsns[..n], x, i) && (ArrivesAgain(t, tsns, n) || Gt32(x, MarkAllReceived(t, tsns).last))
  {
    hide MarkAllReceived, IsDuplicate, Gt32;
    var n := |tsns| - 1;
    assert forall j :: 0 <= j <= n ==> tsns[..n][..j] == tsns[..j];
    assert tsns[..n + 1] == tsns;
    assert forall j: nat :: j < n ==> (ArrivesAgain(t, tsns, j) <==> ArrivesAgain(t, tsns[..n], j));
    if ToReport(t, tsns, x, i) && !ArrivesAgain(t, tsns, n) {
      assert Gt32(x, MarkAllReceived(t, tsns[..n + 1]).last);
    }
    if ToReport(t, tsns, x, i) {
      forall j: nat | i < j < n && !ArrivesAgain(t, tsns[..n], j)
        ensures Gt32(x, MarkAllReceived(t, tsns[..n][..j + 1]).last)
      {
        assert Gt32(x, MarkAllReceived(t, tsns[..j + 1]).last);
      }
    }
    if ToReport(t, tsns[..n], x, i) && (ArrivesAgain(t, tsns, n) || Gt32(x, MarkAllReceived(t, tsns).last)) {
      forall j: nat | i < j < |tsns| && !ArrivesAgain(t, tsns, j)
        ensures Gt32(x, MarkAllReceived(t, tsns[..j + 1]).last)
      {
        if j < n {
          assert Gt32(x, MarkAllReceived(t, tsns[..n][..j + 1]).last);
        }
      }
    }
  }

  lemma ReportOfLast(t: Tracker, tsns: seq<nat>, x: nat)
    requires tsns != []
    ensures var n := |tsns| - 1;
            var d, d' := MarkAllReceived(t, tsns[..n]).duplicates, MarkAllReceived(t, tsns);
            x in d'.duplicates <==>
            if ArrivesAgain(t, tsns, n) then x in d || x == tsns[n] else x in d && Gt32(x, d'.last)
  {
    hide MarkAllReceived, Gt32, JsSort, Advance, LaterSeq;
    LastArrival(t, tsns);
    var n := |tsns| - 1;
    LaterSeqIs(MarkAllReceived(t, tsns[..n]).duplicates, MarkAllReceived(t, tsns).last, x);
  }

  /**
   After any arrivals since the last SACK, the duplicates to report are exactly the TSNs that arrived
   again and that no new TSN has moved the cumulative TSN up to since.
   */
  lemma {:induction false} DuplicatesAre(t: Tracker, tsns: seq<nat>, x: nat)
    requires t.duplicates == []
    ensures x in MarkAllReceived(t, tsns).duplicates <==> exists i: nat :: ToReport(t, tsns, x, i)
    decreases |tsns|
  {
    hide MarkReceived, MarkAllReceived, ToReport, ArrivesAgain;
    if tsns == [] {
      NoArrivals(t, x);
    } else {
      var n := |tsns| - 1;
      DuplicatesAre(t, tsns[..n], x);
      ReportOfLast(t, tsns, x);
      forall i: nat
        ensures ToReport(t, tsns, x, i) <==>
                if i < n then ToReport(t, tsns[..n], x, i) && (ArrivesAgain(t, tsns, n) || Gt32(x, MarkAllReceived(t, tsns).last))
                else i == n && ArrivesAgain(t, tsns, n) && tsns[n] == x
      {
        if i < n {
          ToReportBefore(t, tsns, x, i);
        } else {
          ToReportLast(t, tsns, x, i);
        }
      }
      if i: nat :| ToReport(t, tsns[..n], x, i) {
        ToReportIndex(t, tsns[..n], x, i);
      }
      assert ToReport(t, tsns, x, n) <==> ArrivesAgain(t, tsns, n) && tsns[n] == x;
    }
  }

  lemma NoArrivals(t: Tracker, x: nat)
    ensures MarkAllReceived(t, []) == t
    ensures forall i: nat :: !ToReport(t, [], x, i)
  {
  }

  lemma ToReportIndex(t: Tracker, tsns: seq<nat>, x: nat, i: nat)
    requires ToReport(t, tsns, x, i)
    ensures i < |tsns|
  {
  }

  lemma ToReportLast(t: Tracker, tsns: seq<nat>, x: nat, i: nat)
    requires tsns != [] && i >= |tsns| - 1
    ensures ToReport(t, tsns, x, i) <==> i == |tsns| - 1 && ArrivesAgain(t, tsns, i) && tsns[i] == x
  {
    hide MarkAllReceived, IsDuplicate;
  }

  /** With equally many digits in every wire TSN and no wrap the advance is maximal. */
  lemma AdvanceIsMaximalWhenNumeric(c: nat, s: set<nat>, w: set<nat>, c': nat)
    requires Within(c, s) && WiresOf(w, s)
    requires c <= c' < c + HALF32 && c' % MOD32 == Advance(c % MOD32, JsSort(w))
    requires forall v :: v in s ==> v / MOD32 == c / MOD32
    requires forall a, b :: a in w && b in w ==> |Decimal(a)| == |Decimal(b)|
    ensures c' + 1 !in s
  {
    JsAdvanceIsMaximalIff(c, s, w, c');
    forall r: nat, x: nat | InRun(c, s, r) && x in s && x > r ensures StringLess(r % MOD32, x % MOD32) {
      assert r in s;
      SameLengthIsNumeric(r % MOD32, x % MOD32);
    }
  }

  /** TSNs of equally many digits that have not wrapped. */
  ghost predicate Uniform(s: set<nat>, digits: nat) {
    forall v :: v in s ==> v < MOD32 && |Decimal(v)| == digits
  }

  lemma UniformWires(s: set<nat>, w: set<nat>, digits: nat)
    requires WiresOf(w, s) && Uniform(s, digits)
    ensures forall a :: a in w ==> |Decimal(a)| == digits
  {
    hide Decimal;
    forall a | a in w
      ensures |Decimal(a)| == digits
    {
      var v :| v in s && v % MOD32 == a;
      assert v == a;
    }
  }

  lemma UniformAdvance(c: nat, s: set<nat>, w: set<nat>, c': nat, digits: nat)
    requires Within(c, s) && WiresOf(w, s) && Uniform(s, digits)
    requires c <= c' < c + HALF32 && c' % MOD32 == Advance(c % MOD32, JsSort(w))
    ensures c' + 1 !in s
  {
    if v0 :| v0 in s {
      assert c < v0 < MOD32;
      assert forall v :: v in s ==> v / MOD32 == 0;
      UniformWires(s, w, digits);
      hide JsSort, Decimal, Advance, WiresOf, Within, Uniform;
      AdvanceIsMaximalWhenNumeric(c, s, w, c');
    }
  }

  /** `markReceived` leaves the next TSN missing if it was, while the TSNs are uniform. */
  lemma MarkReceivedIsMaximal(t: Tracker, c: nat, m: set<nat>, u: nat, c': nat, m': set<nat>, digits: nat)
    requires Tracks(t, c, m) && -HALF32 < u - c < HALF32 && c + 1 !in m && Uniform(m + {u}, digits)
    requires Tracks(MarkReceived(t, u % MOD32), c', m') && c <= c' < c + HALF32
    requires forall v: nat :: Received(c', m', v) <==> Received(c, m, v) || v == u
    ensures c' + 1 !in m'
  {
    hide JsSort, Decimal, Advance;
    DuplicateIsReceived(t, c, m, u);
    assert c' + 1 in m' ==> Received(c', m', c' + 1);
    if Received(c, m, u) {
      Gt32IsVirtualOrder(c, c');
    } else {
      WiresGrow(t.misordered, m, u);
      UniformAdvance(c, m + {u}, t.misordered + {u % MOD32}, c', digits);
    }
  }

  lemma ForwardIsMaximal(t: Tracker, c: nat, m: set<nat>, f: nat, c': nat, m': set<nat>, digits: nat)
    requires Tracks(t, c, m) && -HALF32 < f - c < HALF32 && c + 1 !in m && Uniform(m, digits)
    requires Tracks(Forward(t, f % MOD32), c', m') && c <= c' < c + HALF32 && f <= c'
    requires forall v: nat :: Received(c', m', v) <==> Received(c, m, v) || v <= f
    ensures c' + 1 !in m'
  {
    hide JsSort, Decimal, Advance;
    Gt32IsVirtualOrder(c, f);
    assert c' + 1 in m' ==> Received(c', m', c' + 1);
    if f <= c {
      Gt32IsVirtualOrder(c, c');
    } else {
      var s := LaterIsAbove(t.misordered, m, c, f);
      assert forall v :: v in s ==> v in m;
      UniformAdvance(f, s, LaterSet(t.misordered, f % MOD32), c', digits);
      assert c' + 1 in m ==> c' + 1 in s;
    }
  }
}
