/**
 What one stream of an association keeps through every step: the messages delivered on it
 are a prefix of those sent, and its reassembly list holds exactly the received fragments
 of the others.
 */
module StreamInvariant {
  import opened SerialNumbers
  import opened TsnTracking
  import opened Reassembly
  import opened OrderedStream

  /** Received TSNs of the stream are those of delivered messages and those it holds. */
  ghost predicate Accounts(us: seq<nat>, sent: seq<Placed>, d: nat, c: nat, m: set<nat>) {
    forall k, u: nat :: 0 <= k < |sent| && sent[k].start <= u < End(sent[k]) ==>
      (Received(c, m, u) <==> k < d || u in us)
  }

  /** The oldest undelivered TSN of the stream. */
  function Oldest(sent: seq<Placed>, d: nat, next: nat): nat {
    if d < |sent| then sent[d].start else next
  }

  /** The messages between the oldest undelivered one and the newest fit half the number spaces. */
  ghost predicate Fitting(sent: seq<Placed>, d: nat, next: nat) {
    d <= |sent| < d + HALF16 && (d < |sent| ==> next - sent[d].start <= HALF32)
  }

  ghost predicate Below(sent: seq<Placed>, next: nat) {
    forall k :: 0 <= k < |sent| ==> End(sent[k]) <= next
  }

  /**
   `st` is the receiver's side of stream `sid`, on which `sent` was sent and `delivered`
   delivered, when the next TSN is `next` and the received TSNs are those of `(c, m)`.
   */
  ghost predicate StreamInv(
    st: Stream, h: Held, sid: nat, sent: seq<Placed>, delivered: seq<Message>, next: nat, c: nat, m: set<nat>)
  {
    var d := |delivered|;
    && Fitting(sent, d, next) && Below(sent, next)
    && delivered == MessagesOf(sid, sent)[..d]
    && Holds(st, h, sid, sent, d, Oldest(sent, d, next))
    && Accounts(h.us, sent, d, c, m)
    && (d < |sent| ==> Incomplete(sent[d], h.us) || (d > 0 && !Adjacent(sent, d)))
  }

  lemma EmptyStreamInv(sid: nat, next: nat, c: nat, m: set<nat>)
    ensures StreamInv(EMPTY_STREAM, Held([], []), sid, [], [], next, c, m)
  {
  }

  lemma HeldMeansMore(st: Stream, h: Held, sid: nat, sent: seq<Placed>, d: nat, lo: nat)
    requires Holds(st, h, sid, sent, d, lo) && h.us != []
    ensures d < |sent|
  {
    assert HoldsAt(st, h, sid, sent, 0);
  }

  lemma NoneHeld(st: Stream, h: Held, sid: nat, sent: seq<Placed>, d: nat, lo: nat)
    requires Holds(st, h, sid, sent, d, lo) && d == |sent|
    ensures h.us == [] && h.ks == [] && st.reassembly == []
  {
    if h.us != [] {
      HeldMeansMore(st, h, sid, sent, d, lo);
    }
  }

  lemma HeldRange(st: Stream, h: Held, sid: nat, sent: seq<Placed>, d: nat, lo: nat, u: nat)
    requires Holds(st, h, sid, sent, d, lo) && u in h.us
    ensures exists k :: d <= k < |sent| && sent[k].start <= u < End(sent[k])
  {
    var i :| 0 <= i < |h.us| && h.us[i] == u;
    assert HoldsAt(st, h, sid, sent, i);
  }

  /** Other streams take TSNs: nothing changes here. */
  lemma OthersSend(
    st: Stream, h: Held, sid: nat, sent: seq<Placed>, delivered: seq<Message>, next: nat, c: nat, m: set<nat>, next': nat)
    requires StreamInv(st, h, sid, sent, delivered, next, c, m)
    requires next <= next' && Fitting(sent, |delivered|, next')
    ensures StreamInv(st, h, sid, sent, delivered, next', c, m)
  {
    hide Accounts, Adjacent, Incomplete;
    var d := |delivered|;
    if d == |sent| {
      NoneHeld(st, h, sid, sent, d, next);
    }
  }

  lemma HoldsGrows(st: Stream, h: Held, sid: nat, sent: seq<Placed>, d: nat, lo: nat, p: Placed)
    requires Holds(st, h, sid, sent, d, lo) && Below(sent, p.start) && |p.pieces| > 0
    ensures Holds(st, h, sid, sent + [p], d, lo)
  {
    var sent' := sent + [p];
    forall i | 0 <= i < |h.us| ensures HoldsAt(st, h, sid, sent', i) {
      assert HoldsAt(st, h, sid, sent, i);
    }
  }

  lemma AccountsGrows(us: seq<nat>, sent: seq<Placed>, d: nat, c: nat, m: set<nat>, p: Placed)
    requires Accounts(us, sent, d, c, m) && d <= |sent|
    requires forall u: nat :: u >= p.start ==> !Received(c, m, u) && u !in us
    ensures Accounts(us, sent + [p], d, c, m)
  {
    var sent' := sent + [p];
    forall k, u: nat | 0 <= k < |sent'| && sent'[k].start <= u < End(sent'[k])
      ensures Received(c, m, u) <==> k < d || u in us
    {
      if k < |sent| {
        assert sent'[k] == sent[k];
      }
    }
  }

  /** A message is sent on the stream. */
  lemma MessageSent(
    st: Stream, h: Held, sid: nat, sent: seq<Placed>, delivered: seq<Message>, next: nat, c: nat, m: set<nat>, p: Placed)
    requires StreamInv(st, h, sid, sent, delivered, next, c, m)
    requires p.start == next && |p.pieces| > 0 && Fitting(sent + [p], |delivered|, End(p))
    requires forall u: nat :: Received(c, m, u) ==> u < next
    ensures StreamInv(st, h, sid, sent + [p], delivered, End(p), c, m)
  {
    hide HoldsAt, Incomplete, Accounts;
    var d, sent' := |delivered|, sent + [p];
    forall u | u in h.us ensures u < next {
      HeldRange(st, h, sid, sent, d, Oldest(sent, d, next), u);
    }
    HoldsGrows(st, h, sid, sent, d, Oldest(sent, d, next), p);
    AccountsGrows(h.us, sent, d, c, m, p);
    assert MessagesOf(sid, sent')[..d] == MessagesOf(sid, sent)[..d];
    if d == |sent| {
      NoneHeld(st, h, sid, sent, d, next);
      assert Incomplete(p, h.us) by { NothingCompletes(p); }
    }
  }

  lemma NothingCompletes(p: Placed)
    requires |p.pieces| > 0
    ensures Incomplete(p, [])
  {
    assert p.start !in [];
  }

  /** A TSN that belongs to no message of this stream is received, or nothing new is. */
  lemma ReceivedElsewhere(
    st: Stream, h: Held, sid: nat, sent: seq<Placed>, delivered: seq<Message>, next: nat, c: nat, m: set<nat>,
    c': nat, m': set<nat>)
    requires StreamInv(st, h, sid, sent, delivered, next, c, m)
    requires forall k, u: nat :: 0 <= k < |sent| && sent[k].start <= u < End(sent[k]) ==>
               (Received(c', m', u) <==> Received(c, m, u))
    ensures StreamInv(st, h, sid, sent, delivered, next, c', m')
  {
    hide Holds, Incomplete, Adjacent;
  }

  // A fragment of this stream arrives

  function Splice(h: Held, i: nat, u: nat, k: nat): Held
    requires i <= |h.us| && i <= |h.ks|
  {
    Held(h.us[..i] + [u] + h.us[i..], h.ks[..i] + [k] + h.ks[i..])
  }

  lemma SpliceHolds(
    st: Stream, h: Held, sid: nat, sent: seq<Placed>, d: nat, lo: nat, k: nat, j: nat, i: nat)
    requires Holds(st, h, sid, sent, d, lo) && d <= k < |sent| && k < d + HALF16 && j < |sent[k].pieces|
    requires i <= |st.reassembly| && lo <= sent[k].start && sent[k].start + j < lo + HALF32
    requires Increasing(h.us[..i] + [sent[k].start + j] + h.us[i..])
    ensures Holds(st.(reassembly := st.reassembly[..i] + [Fragment(sid, k, sent[k], j)] + st.reassembly[i..]),
                  Splice(h, i, sent[k].start + j, k), sid, sent, d, lo)
  {
    hide Fragment, LaidOut;
    var u := sent[k].start + j;
    var list := st.reassembly[..i] + [Fragment(sid, k, sent[k], j)] + st.reassembly[i..];
    var st', h' := st.(reassembly := list), Splice(h, i, u, k);
    forall x | 0 <= x < |list|
      ensures HoldsAt(st', h', sid, sent, x) && d <= h'.ks[x] < d + HALF16 && lo <= h'.us[x] < lo + HALF32
    {
      var y := if x < i then x else x - 1;
      if x != i {
        assert HoldsAt(st, h, sid, sent, y);
        assert h'.ks[x] == h.ks[y] && h'.us[x] == h.us[y] && list[x] == st.reassembly[y];
      }
    }
  }

  /** The fragment is inserted at its place. */
  lemma FragmentInserted(
    st: Stream, h: Held, sid: nat, sent: seq<Placed>, d: nat, lo: nat, k: nat, j: nat) returns (i: nat)
    requires Holds(st, h, sid, sent, d, lo) && d <= k < |sent| && k < d + HALF16 && j < |sent[k].pieces|
    requires lo <= sent[k].start && sent[k].start + j < lo + HALF32 && sent[k].start + j !in h.us
    ensures i <= |st.reassembly|
    ensures var f := Fragment(sid, k, sent[k], j);
            var list := st.reassembly[..i] + [f] + st.reassembly[i..];
            && AddChunk(st.reassembly, f) == Added(list)
            && Holds(st.(reassembly := list), Splice(h, i, sent[k].start + j, k), sid, sent, d, lo)
  {
    var u, f := sent[k].start + j, Fragment(sid, k, sent[k], j);
    forall x | 0 <= x < |h.us| ensures st.reassembly[x].tsn == h.us[x] % MOD32 {
      assert HoldsAt(st, h, sid, sent, x);
    }
    assert SortedAs(st.reassembly, h.us) && Near(h.us, u);
    i := AddChunkInserts(st.reassembly, h.us, f, u);
    SpliceHolds(st, h, sid, sent, d, lo, k, j, i);
  }

  lemma AccountsInserted(h: Held, sent: seq<Placed>, d: nat, c: nat, m: set<nat>, i: nat, k: nat, u: nat, c': nat, m': set<nat>)
    requires Accounts(h.us, sent, d, c, m) && i <= |h.us| && i <= |h.ks|
    requires forall v: nat :: Received(c', m', v) <==> Received(c, m, v) || v == u
    requires d <= k < |sent| && LaidOut(sent) && sent[k].start <= u < End(sent[k])
    ensures Accounts(Splice(h, i, u, k).us, sent, d, c', m')
  {
    var us' := Splice(h, i, u, k).us;
    forall x: nat ensures x in us' <==> x in h.us || x == u {
      assert us' == h.us[..i] + [u] + h.us[i..];
      assert h.us == h.us[..i] + h.us[i..];
    }
    forall l, v: nat | 0 <= l < |sent| && sent[l].start <= v < End(sent[l])
      ensures Received(c', m', v) <==> l < d || v in us'
    {
      assert Received(c, m, v) <==> l < d || v in h.us;
    }
  }

  lemma StillHeld(h: Held, sent: seq<Placed>, d: nat, n: nat, d': nat, k: nat, u: nat)
    requires LaidOut(sent) && |h.us| == |h.ks| && n <= |h.us| && d' <= k < |sent|
    requires forall i :: 0 <= i < n ==> d <= h.ks[i] < d'
    requires forall i :: 0 <= i < |h.us| ==> h.ks[i] < |sent| && sent[h.ks[i]].start <= h.us[i] < End(sent[h.ks[i]])
    requires sent[k].start <= u < End(sent[k]) && u in h.us
    ensures u in h.us[n..]
  {
    var i :| 0 <= i < |h.us| && h.us[i] == u;
    SameRange(sent, h.ks[i], k, u);
    assert h.us[n..][i - n] == u;
  }

  /** Delivery moves TSNs from "held" to "delivered". */
  lemma AccountsDelivered(h: Held, sent: seq<Placed>, d: nat, c: nat, m: set<nat>, h': Held, d': nat)
    requires LaidOut(sent) && Accounts(h.us, sent, d, c, m) && |h.us| == |h.ks| && d <= d' <= |sent|
    requires Consumed(h, d, h', d') && Present(h.us, sent, d, d')
    requires forall i :: 0 <= i < |h'.ks| && i < |h'.us| ==> d' <= h'.ks[i]
    requires forall i :: 0 <= i < |h.us| ==> h.ks[i] < |sent| && sent[h.ks[i]].start <= h.us[i] < End(sent[h.ks[i]])
    ensures Accounts(h'.us, sent, d', c, m)
  {
    var n: nat :| n <= |h.us| && h' == Drop(h, n) && forall i :: 0 <= i < n ==> d <= h.ks[i] < d';
    forall k, u: nat | 0 <= k < |sent| && sent[k].start <= u < End(sent[k])
      ensures Received(c, m, u) <==> k < d' || u in h'.us
    {
      assert Received(c, m, u) <==> k < d || u in h.us;
      if k >= d' {
        assert u in h'.us ==> u in h.us;
        if u in h.us {
          StillHeld(h, sent, d, n, d', k, u);
        }
      } else if k >= d {
        assert u in h.us;
      }
    }
  }

  lemma SameRange(sent: seq<Placed>, a: nat, b: nat, u: nat)
    requires LaidOut(sent) && a < |sent| && b < |sent|
    requires sent[a].start <= u < End(sent[a]) && sent[b].start <= u < End(sent[b])
    ensures a == b
  {
  }

  lemma OldestIsLowest(sent: seq<Placed>, d: nat, k: nat, next: nat)
    requires LaidOut(sent) && d <= k < |sent|
    ensures Oldest(sent, d, next) <= sent[k].start
  {
  }

  lemma HoldsFrom(st: Stream, h: Held, sid: nat, sent: seq<Placed>, d: nat, lo: nat, lo': nat)
    requires Holds(st, h, sid, sent, d, lo)
    requires forall i :: 0 <= i < |h.us| ==> lo' <= h.us[i] < lo' + HALF32
    ensures Holds(st, h, sid, sent, d, lo')
  {
  }

  /** The window slides up with delivery. */
  lemma WindowSlides(
    st: Stream, h: Held, sid: nat, sent: seq<Placed>, d: nat, d': nat, next: nat)
    requires Holds(st, h, sid, sent, d', Oldest(sent, d, next)) && d <= d' && Below(sent, next)
    requires Fitting(sent, d, next)
    ensures Fitting(sent, d', next) && Holds(st, h, sid, sent, d', Oldest(sent, d', next))
  {
    var lo' := Oldest(sent, d', next);
    if d' < |sent| {
      assert d < d' ==> End(sent[d]) <= sent[d'].start;
    }
    forall i | 0 <= i < |h.us| ensures lo' <= h.us[i] < lo' + HALF32 {
      assert HoldsAt(st, h, sid, sent, i);
      OldestIsLowest(sent, d', h.ks[i], next);
    }
    HoldsFrom(st, h, sid, sent, d', Oldest(sent, d, next), lo');
  }

  /**
   A new fragment arrives: it is inserted, whatever it completes is delivered, in order, and
   the stream keeps its invariant.
   */
  lemma FragmentReceived(
    st: Stream, h: Held, sid: nat, sent: seq<Placed>, delivered: seq<Message>, next: nat, c: nat, m: set<nat>,
    k: nat, j: nat, c': nat, m': set<nat>)
    returns (list: seq<Chunk>, h': Held)
    requires StreamInv(st, h, sid, sent, delivered, next, c, m)
    requires k < |sent| && j < |sent[k].pieces| && !Received(c, m, sent[k].start + j)
    requires forall v: nat :: Received(c', m', v) <==> Received(c, m, v) || v == sent[k].start + j
    ensures AddChunk(st.reassembly, Fragment(sid, k, sent[k], j)) == Added(list)
    ensures exists i: nat :: i <= |st.reassembly| &&
              list == st.reassembly[..i] + [Fragment(sid, k, sent[k], j)] + st.reassembly[i..]
    ensures var p := Pop(st.(reassembly := list), FRESH);
            StreamInv(p.stream, h', sid, sent, delivered + p.messages, next, c', m')
  {
    hide AddChunk, Pop, Fragment, HoldsAt, Adjacent, Incomplete;
    var d, u := |delivered|, sent[k].start + j;
    var lo := Oldest(sent, d, next);
    assert k >= d && u !in h.us;
    OldestIsLowest(sent, d, k, next);
    assert u < End(sent[k]) <= next;
    var i := FragmentInserted(st, h, sid, sent, d, lo, k, j);
    list := st.reassembly[..i] + [Fragment(sid, k, sent[k], j)] + st.reassembly[i..];
    var st1, h1 := st.(reassembly := list), Splice(h, i, u, k);
    AccountsInserted(h, sent, d, c, m, i, k, u, c', m');
    var d';
    h', d' := PopMessagesDelivers(st1, h1, sid, sent, d, lo);
    HeldInRange(st1, h1, sid, sent, d, lo);
    var p := Pop(st1, FRESH);
    AccountsDelivered(h1, sent, d, c', m', h', d');
    WindowSlides(p.stream, h', sid, sent, d, d', next);
    var ms := MessagesOf(sid, sent);
    assert ms[..d] + ms[d..d'] == ms[..d'];
  }

  lemma HeldInRange(st: Stream, h: Held, sid: nat, sent: seq<Placed>, d: nat, lo: nat)
    requires Holds(st, h, sid, sent, d, lo)
    ensures forall i :: 0 <= i < |h.us| ==> h.ks[i] < |sent| && sent[h.ks[i]].start <= h.us[i] < End(sent[h.ks[i]])
  {
    forall i | 0 <= i < |h.us|
      ensures h.ks[i] < |sent| && sent[h.ks[i]].start <= h.us[i] < End(sent[h.ks[i]])
    {
      assert HoldsAt(st, h, sid, sent, i);
    }
  }

  /** Every fragment of message `p` is among `us`. */
  ghost predicate Whole(p: Placed, us: seq<nat>) {
    forall u :: p.start <= u < End(p) ==> u in us
  }

  /**
   Exactly which messages one call of `popMessages` delivers, for any interleaving of streams:
   message `k` if and only if it and every undelivered one before it are whole, and each but
   the first starts right at the end of its predecessor.
   */
  lemma DeliveredInOneCallIff(st: Stream, h: Held, sid: nat, sent: seq<Placed>, d: nat, lo: nat, k: nat)
    requires Holds(st, h, sid, sent, d, lo) && d <= k < |sent|
    ensures |Pop(st, FRESH).messages| > k - d <==>
            forall x: nat :: d <= x <= k ==> Whole(sent[x], h.us) && (d < x ==> Adjacent(sent, x))
    ensures |Pop(st, FRESH).messages| > k - d ==> Pop(st, FRESH).messages[k - d] == MessageOf(sid, sent[k])
  {
    hide Pop, HoldsAt, Adjacent;
    var h', d' := PopMessagesDelivers(st, h, sid, sent, d, lo);
    assert |Pop(st, FRESH).messages| == d' - d;
    if k < d' {
      forall x: nat | d <= x <= k
        ensures Whole(sent[x], h.us) && (d < x ==> Adjacent(sent, x))
      {
      }
    } else {
      StopIsReason(st, h, sid, sent, d, lo, h', d');
    }
  }

  lemma StopIsReason(st: Stream, h: Held, sid: nat, sent: seq<Placed>, d: nat, lo: nat, h': Held, d': nat)
    requires Holds(st, h, sid, sent, d, lo) && d <= d' < |sent|
    requires Consumed(h, d, h', d') && StopsAt(h'.us, sent, d, d', false)
    ensures !Whole(sent[d'], h.us) || (d < d' && !Adjacent(sent, d'))
  {
    hide HoldsAt, Adjacent;
    HeldInRange(st, h, sid, sent, d, lo);
    var n: nat :| n <= |h.us| && h' == Drop(h, n) && forall i :: 0 <= i < n ==> d <= h.ks[i] < d';
    forall u: nat | sent[d'].start <= u < End(sent[d']) && u in h.us
      ensures u in h'.us
    {
      StillHeld(h, sent, d, n, d', d', u);
    }
  }
}
