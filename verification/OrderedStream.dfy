/**
 Ordered delivery on one stream (sections 6.5, 6.6 and 6.9 of RFC 9260): what
 `popMessages` (packages/sctp/src/sctp.ts:1541-1602) yields when the reassembly list
 holds the received fragments of the messages sent on the stream.
 */
module OrderedStream {
  import opened SerialNumbers
  import opened Wrappers
  import opened Reassembly

  /** A message sent on a stream: its fragments and the virtual TSN of the first. */
  datatype Placed = Placed(start: nat, ppid: nat, pieces: seq<seq<byte>>)

  function End(p: Placed): nat {
    p.start + |p.pieces|
  }

  function Flatten(pieces: seq<seq<byte>>): seq<byte> {
    if pieces == [] then [] else pieces[0] + Flatten(pieces[1..])
  }

  /** Fragment `j` of the `k`-th message of stream `sid`, as `send` builds it. */
  function Fragment(sid: nat, k: nat, p: Placed, j: nat): Chunk
    requires j < |p.pieces|
  {
    Chunk(p.start + j, (p.start + j) % MOD32, sid, k % MOD16, p.ppid, j == 0, j == |p.pieces| - 1, false, p.pieces[j])
  }

  function MessageOf(sid: nat, p: Placed): Message {
    Message(sid, p.ppid, Flatten(p.pieces))
  }

  function MessagesOf(sid: nat, sent: seq<Placed>): (ms: seq<Message>)
    ensures |ms| == |sent|
    ensures forall k :: 0 <= k < |sent| ==> ms[k] == MessageOf(sid, sent[k])
  {
    seq(|sent|, k requires 0 <= k < |sent| => MessageOf(sid, sent[k]))
  }

  /** Messages are non-empty and occupy disjoint TSN ranges in the order they were sent. */
  ghost predicate LaidOut(sent: seq<Placed>) {
    && (forall k :: 0 <= k < |sent| ==> |sent[k].pieces| > 0)
    && (forall k, l :: 0 <= k < l < |sent| ==> End(sent[k]) <= sent[l].start)
  }

  /** Message `k` starts right at the end of the one before it on the stream. */
  predicate Adjacent(sent: seq<Placed>, k: nat) {
    0 < k < |sent| && sent[k].start == End(sent[k - 1])
  }

  /** Some fragment of the message is not among the TSNs `us`. */
  ghost predicate Incomplete(p: Placed, us: seq<nat>) {
    exists u :: p.start <= u < End(p) && u !in us
  }

  /** Which chunk of the stream each entry of the reassembly list is. */
  datatype Held = Held(us: seq<nat>, ks: seq<nat>)

  ghost predicate HoldsAt(s: Stream, h: Held, sid: nat, sent: seq<Placed>, i: nat)
    requires i < |s.reassembly| && i < |h.us| && i < |h.ks|
  {
    && h.ks[i] < |sent|
    && sent[h.ks[i]].start <= h.us[i] < End(sent[h.ks[i]])
    && s.reassembly[i] == Fragment(sid, h.ks[i], sent[h.ks[i]], h.us[i] - sent[h.ks[i]].start)
  }

  /**
   The stream has delivered its first `d` messages and holds fragments of later ones,
   in TSN order, inside a window of 2^31 TSNs from `lo` and 2^15 messages.
   */
  ghost predicate Holds(s: Stream, h: Held, sid: nat, sent: seq<Placed>, d: nat, lo: nat) {
    && LaidOut(sent) && d <= |sent|
    && s.ssn == d % MOD16
    && |h.us| == |h.ks| == |s.reassembly|
    && Increasing(h.us)
    && (forall i :: 0 <= i < |h.us| ==> HoldsAt(s, h, sid, sent, i))
    && (forall i :: 0 <= i < |h.ks| ==> d <= h.ks[i] < d + HALF16)
    && (forall i :: 0 <= i < |h.us| ==> lo <= h.us[i] < lo + HALF32)
  }

  /** The first `n` entries are the first `n` fragments of message `p`. */
  ghost predicate Leads(h: Held, p: Placed, n: nat) {
    n <= |p.pieces| && n <= |h.us| && forall i :: 0 <= i < n ==> h.us[i] == p.start + i
  }

  /** The cursor has read the first `pos` fragments of message `d`, or has just yielded the one before. */
  ghost predicate Reads(h: Held, k: Cursor, sent: seq<Placed>, d: nat, lo: nat, e: nat)
    requires d <= |sent|
  {
    match k.start
    case None => k.pos == 0
    case Some(start) =>
      && start == 0 && k.ordered && k.pos <= |h.us|
      && k.expected == e % MOD32 && lo <= e
      && (forall i :: k.pos <= i < |h.us| ==> e <= h.us[i])
      && (if k.pos == 0 then d > 0 && e == End(sent[d - 1])
          else d < |sent| && e == sent[d].start + k.pos < End(sent[d]) && Leads(h, sent[d], k.pos))
  }

  /** Entries of the list are in message order; the TSN after a message starts the next one of the stream. */
  lemma NextMessageFollows(s: Stream, h: Held, sid: nat, sent: seq<Placed>, d: nat, lo: nat, i: nat)
    requires Holds(s, h, sid, sent, d, lo) && i < |h.us| && d > 0 && h.us[i] == End(sent[d - 1])
    ensures d < |sent| && h.ks[i] == d && h.us[i] == sent[d].start
  {
    assert HoldsAt(s, h, sid, sent, i);
    assert |sent[d].pieces| > 0;
  }

  lemma SameMessage(s: Stream, h: Held, sid: nat, sent: seq<Placed>, d: nat, lo: nat, i: nat, k: nat)
    requires Holds(s, h, sid, sent, d, lo) && i < |h.us| && k < |sent|
    requires sent[k].start <= h.us[i] < End(sent[k])
    ensures h.ks[i] == k
  {
    assert HoldsAt(s, h, sid, sent, i);
  }

  lemma {:induction false} ConcatIsFlatten(list: seq<Chunk>, pieces: seq<seq<byte>>)
    requires |list| == |pieces|
    requires forall i :: 0 <= i < |list| ==> list[i].data == pieces[i]
    ensures Concat(list) == Flatten(pieces)
  {
    if list != [] {
      ConcatIsFlatten(list[1..], pieces[1..]);
    }
  }

  ghost function Drop(h: Held, n: nat): Held
    requires n <= |h.us| && n <= |h.ks|
  {
    Held(h.us[n..], h.ks[n..])
  }

  /** The first `n` entries are the whole of message `d`: what follows belongs to later messages. */
  lemma RestHolds(s: Stream, h: Held, sid: nat, sent: seq<Placed>, d: nat, lo: nat, n: nat)
    requires Holds(s, h, sid, sent, d, lo) && d < |sent| && n == |sent[d].pieces| && Leads(h, sent[d], n)
    ensures Holds(Stream(s.reassembly[n..], (d + 1) % MOD16), Drop(h, n), sid, sent, d + 1, lo)
    ensures Reads(Drop(h, n), Cursor(0, Some(0), End(sent[d]) % MOD32, true), sent, d + 1, lo, End(sent[d]))
  {
    var s', h' := Stream(s.reassembly[n..], (d + 1) % MOD16), Drop(h, n);
    assert h.us[n - 1] == End(sent[d]) - 1;
    forall i | 0 <= i < |h'.us|
      ensures HoldsAt(s', h', sid, sent, i) && d + 1 <= h'.ks[i] < d + 1 + HALF16 && End(sent[d]) <= h'.us[i]
    {
      assert HoldsAt(s, h, sid, sent, n + i);
      assert h.us[n + i] > h.us[n - 1];
    }
  }

  lemma LeadingFragments(s: Stream, h: Held, sid: nat, sent: seq<Placed>, d: nat, lo: nat, n: nat, i: nat)
    requires Holds(s, h, sid, sent, d, lo) && d < |sent| && Leads(h, sent[d], n) && i < n
    ensures h.ks[i] == d && s.reassembly[i] == Fragment(sid, d, sent[d], i)
  {
    SameMessage(s, h, sid, sent, d, lo, i, d);
    assert HoldsAt(s, h, sid, sent, i);
  }

  /** Taking the last fragment of message `d` yields exactly message `d`. */
  lemma TakeYieldsMessage(s: Stream, h: Held, sid: nat, sent: seq<Placed>, d: nat, lo: nat, k: Cursor)
    requires Holds(s, h, sid, sent, d, lo) && CursorOk(s, k)
    requires k.pos < |h.us| && k.start == Some(0) && k.ordered && d < |sent|
    requires k.pos == |sent[d].pieces| - 1 && Leads(h, sent[d], k.pos + 1)
    requires k.expected == (sent[d].start + k.pos) % MOD32
    ensures Take(s, k) == Yield(
              Stream(s.reassembly[k.pos + 1..], (d + 1) % MOD16),
              MessageOf(sid, sent[d]),
              Cursor(0, Some(0), End(sent[d]) % MOD32, true))
  {
    var n := k.pos + 1;
    forall i | 0 <= i < n ensures s.reassembly[i] == Fragment(sid, d, sent[d], i) {
      LeadingFragments(s, h, sid, sent, d, lo, n, i);
    }
    ConcatIsFlatten(s.reassembly[0..n], sent[d].pieces);
    assert s.reassembly[..0] + s.reassembly[n..] == s.reassembly[n..];
    PlusOneIsVirtual(sent[d].start + k.pos);
    Add16IsVirtual(d, 1);
  }

  /** The chunk under the cursor is fragment `pos` of message `d`: it is read, or completes the message. */
  lemma TakeReads(s: Stream, h: Held, sid: nat, sent: seq<Placed>, d: nat, lo: nat, k: Cursor)
    requires Holds(s, h, sid, sent, d, lo) && CursorOk(s, k)
    requires k.pos < |h.us| && k.start == Some(0) && k.ordered && d < |sent|
    requires k.pos < |sent[d].pieces| - 1 && Leads(h, sent[d], k.pos + 1)
    requires k.expected == (sent[d].start + k.pos) % MOD32
    ensures Take(s, k) == Skip(k.(pos := k.pos + 1, expected := (sent[d].start + k.pos + 1) % MOD32))
    ensures Reads(h, k.(pos := k.pos + 1, expected := (sent[d].start + k.pos + 1) % MOD32), sent, d, lo,
                  sent[d].start + k.pos + 1)
  {
    SameMessage(s, h, sid, sent, d, lo, k.pos, d);
    assert HoldsAt(s, h, sid, sent, k.pos);
    PlusOneIsVirtual(sent[d].start + k.pos);
  }

  /** The generator has just yielded: `startPos` is still set, and points at the next chunk. */
  predicate AfterYield(k: Cursor) {
    k.start.Some? && k.pos == 0
  }

  /** What one turn of the loop finds: the next fragment of message `d`, or that it is not there. */
  lemma TurnFinds(s: Stream, h: Held, sid: nat, sent: seq<Placed>, d: nat, lo: nat, k: Cursor, e: nat)
    returns (k': Cursor, found: bool)
    requires Holds(s, h, sid, sent, d, lo) && CursorOk(s, k) && Reads(h, k, sent, d, lo, e)
    requires k.pos < |h.us|
    ensures !found ==> PopTurn(s, k) == Stop
    ensures !found && d < |sent| ==> Incomplete(sent[d], h.us) || (AfterYield(k) && !Adjacent(sent, d))
    ensures found && AfterYield(k) ==> Adjacent(sent, d)
    ensures found ==>
              && CursorOk(s, k') && k'.pos == k.pos && k'.start == Some(0) && k'.ordered
              && PopTurn(s, k) == Take(s, k') && d < |sent| && k.pos < |sent[d].pieces|
              && k'.expected == (sent[d].start + k.pos) % MOD32
              && Leads(h, sent[d], k.pos + 1)
  {
    var chunk, u, m := s.reassembly[k.pos], h.us[k.pos], h.ks[k.pos];
    assert HoldsAt(s, h, sid, sent, k.pos);
    k' := k;
    if k.start.None? {
      Gt16IsVirtualOrder(m, d);
      found := chunk.first && m == d;
      if found {
        k' := Cursor(0, Some(0), chunk.tsn, true);
      } else {
        FirstIsAbsent(s, h, sid, sent, d, lo);
      }
    } else {
      Gt32IsVirtualOrder(u, e);
      found := u == e;
      if found && k.pos == 0 {
        NextMessageFollows(s, h, sid, sent, d, lo, 0);
      }
      if !found && d < |sent| {
        assert e !in h.us by {
          assert forall i :: k.pos <= i < |h.us| ==> h.us[i] >= u > e;
        }
      }
    }
  }

  /** If the list does not begin with the first fragment of message `d`, that fragment is not in it. */
  lemma FirstIsAbsent(s: Stream, h: Held, sid: nat, sent: seq<Placed>, d: nat, lo: nat)
    requires Holds(s, h, sid, sent, d, lo) && |h.us| > 0 && d < |sent|
    requires !(s.reassembly[0].first && h.ks[0] == d)
    ensures sent[d].start !in h.us
  {
    assert HoldsAt(s, h, sid, sent, 0);
    assert h.us[0] > sent[d].start;
    assert forall i :: 0 <= i < |h.us| ==> h.us[0] <= h.us[i];
  }

  /** `h'` is what remains of `h` once the fragments of messages `d` to `d'` are gone. */
  ghost predicate Consumed(h: Held, d: nat, h': Held, d': nat)
    requires |h.us| == |h.ks|
  {
    exists n: nat :: n <= |h.us| && h' == Drop(h, n) && forall i :: 0 <= i < n ==> d <= h.ks[i] < d'
  }

  /** Every fragment of messages `d` to `d'` is among `us`. */
  ghost predicate Present(us: seq<nat>, sent: seq<Placed>, d: nat, d': nat)
    requires d' <= |sent|
  {
    forall k, u :: d <= k < d' && sent[k].start <= u < End(sent[k]) ==> u in us
  }

  /**
   Where a call that began at message `d` stops, and what it passed on the way: message `d'`
   misses a fragment, or does not start right at the end of the message delivered just before;
   and every message delivered right after another in the same call does.
   */
  ghost predicate StopsAt(us: seq<nat>, sent: seq<Placed>, d: nat, d': nat, afterYield: bool)
    requires d' <= |sent|
  {
    && (d' < |sent| ==> Incomplete(sent[d'], us) || ((d < d' || afterYield) && !Adjacent(sent, d')))
    && (forall k :: d <= k < d' && (d < k || afterYield) ==> Adjacent(sent, k))
  }

  /**
   From `d` delivered messages and the fragments `h`, the outcome `p` hands over messages
   `d` to `d'`, whole, in order and byte-exact, keeps the fragments `h'` of later ones, and
   stops where `StopsAt` says, whatever other streams were used in between.
   */
  ghost predicate Delivers(
    p: Popped, h: Held, sid: nat, sent: seq<Placed>, d: nat, lo: nat, h': Held, d': nat, afterYield: bool)
    requires |h.us| == |h.ks|
  {
    && d <= d' <= |sent|
    && Holds(p.stream, h', sid, sent, d', lo)
    && p.messages == MessagesOf(sid, sent)[d..d']
    && Consumed(h, d, h', d')
    && Present(h.us, sent, d, d')
    && StopsAt(h'.us, sent, d, d', afterYield)
  }

  lemma DeliversNothing(s: Stream, h: Held, sid: nat, sent: seq<Placed>, d: nat, lo: nat, afterYield: bool)
    requires Holds(s, h, sid, sent, d, lo)
    requires d < |sent| ==> Incomplete(sent[d], h.us) || (afterYield && !Adjacent(sent, d))
    ensures Delivers(Popped(s, []), h, sid, sent, d, lo, h, d, afterYield)
  {
    assert h == Drop(h, 0);
    assert Present(h.us, sent, d, d);
  }

  lemma ConsumesOneMore(
    s: Stream, h: Held, sid: nat, sent: seq<Placed>, d: nat, lo: nat, n: nat, h': Held, d': nat)
    requires Holds(s, h, sid, sent, d, lo) && d < d' && d < |sent| && Leads(h, sent[d], n)
    requires Consumed(Drop(h, n), d + 1, h', d')
    ensures Consumed(h, d, h', d')
  {
    var rest := Drop(h, n);
    var m: nat :| m <= |rest.us| && h' == Drop(rest, m) && forall i :: 0 <= i < m ==> d + 1 <= rest.ks[i] < d';
    assert h' == Drop(h, n + m);
    forall i | 0 <= i < n + m ensures d <= h.ks[i] < d' {
      if i < n {
        SameMessage(s, h, sid, sent, d, lo, i, d);
      } else {
        assert h.ks[i] == rest.ks[i - n];
      }
    }
  }

  lemma PresentOneMore(h: Held, sent: seq<Placed>, d: nat, n: nat, d': nat)
    requires d < d' <= |sent| && Leads(h, sent[d], n) && n == |sent[d].pieces|
    requires Present(h.us[n..], sent, d + 1, d')
    ensures Present(h.us, sent, d, d')
  {
    forall k, u | d <= k < d' && sent[k].start <= u < End(sent[k]) ensures u in h.us {
      if k == d {
        assert h.us[u - sent[d].start] == u;
      } else {
        assert u in h.us[n..];
      }
    }
  }

  /** Message `d`, made of the first `n` entries, followed by whatever comes after it. */
  lemma DeliversOneMore(
    s: Stream, h: Held, sid: nat, sent: seq<Placed>, d: nat, lo: nat, n: nat, p: Popped, h': Held, d': nat,
    afterYield: bool)
    requires Holds(s, h, sid, sent, d, lo) && d < |sent| && Leads(h, sent[d], n) && n == |sent[d].pieces|
    requires Delivers(p, Drop(h, n), sid, sent, d + 1, lo, h', d', true)
    requires afterYield ==> Adjacent(sent, d)
    ensures Delivers(Popped(p.stream, [MessageOf(sid, sent[d])] + p.messages), h, sid, sent, d, lo, h', d', afterYield)
  {
    hide Holds, Incomplete, Consumed, Adjacent, Present, Leads;
    ConsumesOneMore(s, h, sid, sent, d, lo, n, h', d');
    PresentOneMore(h, sent, d, n, d');
    var ms := MessagesOf(sid, sent);
    assert ms[d..d'] == [ms[d]] + ms[d + 1..d'];
  }

  /** Message `d` was begun right at the end of the one before, or first in the call. */
  lemma BeganAdjacent(
    p: Popped, h: Held, sid: nat, sent: seq<Placed>, d: nat, lo: nat, h': Held, d': nat, afterYield: bool)
    requires |h.us| == |h.ks| && Delivers(p, h, sid, sent, d, lo, h', d', false)
    requires afterYield ==> Adjacent(sent, d)
    ensures Delivers(p, h, sid, sent, d, lo, h', d', afterYield)
  {
    hide Holds, Incomplete, Consumed, Adjacent, Present;
  }

  lemma EndOfList(h: Held, sent: seq<Placed>, d: nat, lo: nat, k: Cursor, e: nat)
    requires LaidOut(sent) && d < |sent| && Increasing(h.us) && Reads(h, k, sent, d, lo, e) && k.pos == |h.us|
    ensures Incomplete(sent[d], h.us)
  {
    assert sent[d].start + k.pos !in h.us;
  }

  lemma HeldShape(s: Stream, h: Held, sid: nat, sent: seq<Placed>, d: nat, lo: nat)
    requires Holds(s, h, sid, sent, d, lo)
    ensures |h.us| == |h.ks| == |s.reassembly| && d <= |sent| && LaidOut(sent) && Increasing(h.us)
  {
  }

  /** The generator delivers (see `Delivers`), from any point it can reach. */
  lemma {:induction false} PopDelivers(
    s: Stream, h: Held, sid: nat, sent: seq<Placed>, d: nat, lo: nat, k: Cursor, e: nat)
    returns (h': Held, d': nat)
    requires Holds(s, h, sid, sent, d, lo) && CursorOk(s, k) && Reads(h, k, sent, d, lo, e)
    ensures Delivers(Pop(s, k), h, sid, sent, d, lo, h', d', AfterYield(k))
    decreases |s.reassembly| - k.pos
  {
    hide Holds, Reads, Delivers, Incomplete, Consumed, Adjacent, Present;
    HeldShape(s, h, sid, sent, d, lo);
    h', d' := h, d;
    if k.pos == |s.reassembly| {
      if d < |sent| {
        EndOfList(h, sent, d, lo, k, e);
      }
      DeliversNothing(s, h, sid, sent, d, lo, AfterYield(k));
    } else {
      var k', found := TurnFinds(s, h, sid, sent, d, lo, k, e);
      if !found {
        DeliversNothing(s, h, sid, sent, d, lo, AfterYield(k));
      } else if k.pos == |sent[d].pieces| - 1 {
        TakeYieldsMessage(s, h, sid, sent, d, lo, k');
        var n := k.pos + 1;
        RestHolds(s, h, sid, sent, d, lo, n);
        var s2 := Stream(s.reassembly[n..], (d + 1) % MOD16);
        var k2 := Cursor(0, Some(0), End(sent[d]) % MOD32, true);
        h', d' := PopDelivers(s2, Drop(h, n), sid, sent, d + 1, lo, k2, End(sent[d]));
        DeliversOneMore(s, h, sid, sent, d, lo, n, Pop(s2, k2), h', d', AfterYield(k));
      } else {
        TakeReads(s, h, sid, sent, d, lo, k');
        var e' := sent[d].start + k.pos + 1;
        var k2 := k'.(pos := k.pos + 1, expected := e' % MOD32);
        h', d' := PopDelivers(s, h, sid, sent, d, lo, k2, e');
        BeganAdjacent(Pop(s, k2), h, sid, sent, d, lo, h', d', AfterYield(k));
      }
    }
  }

  /** One call of `popMessages`. */
  lemma PopMessagesDelivers(s: Stream, h: Held, sid: nat, sent: seq<Placed>, d: nat, lo: nat)
    returns (h': Held, d': nat)
    requires Holds(s, h, sid, sent, d, lo)
    ensures Delivers(Pop(s, FRESH), h, sid, sent, d, lo, h', d', false)
  {
    h', d' := PopDelivers(s, h, sid, sent, d, lo, FRESH, 0);
  }
}
