/**
 What one call of `popMessages` (packages/sctp/src/sctp.ts:1541-1602) delivers, for any list:
 ordered or unordered chunks, of any messages, whole or not.

 The generator works in bursts. It judges a chunk afresh, and if it may begin a message it goes on
 through the chunks whose TSNs follow one another, looking only at their last-fragment flags.
 Where the TSNs break off, a burst that an ordered chunk began ends the call; one that an
 unordered chunk began passes over the chunk after the break and judges the next one afresh.
 */
module Bursts {
  import opened SerialNumbers
  import opened Wrappers
  import opened Reassembly

  /** How many chunks from position `p` on have the TSNs that follow one another from `expected`. */
  function RunLength(list: seq<Chunk>, p: nat, expected: nat): (n: nat)
    requires p <= |list|
    ensures p + n <= |list|
    decreases |list| - p
  {
    if p == |list| || list[p].tsn != expected then 0 else 1 + RunLength(list, p + 1, PlusOne(expected))
  }

  /** The first chunk that ends a message, or the length of `run`. */
  function FirstLast(run: seq<Chunk>): (j: nat)
    ensures j <= |run| && (j < |run| ==> run[j].last) && forall i :: 0 <= i < j ==> !run[i].last
  {
    if run == [] then 0 else if run[0].last then 0 else 1 + FirstLast(run[1..])
  }

  /** The chunks of a burst cut into messages at the last-fragment flags. */
  function Cut(run: seq<Chunk>): seq<Message>
    decreases |run|
  {
    var j := FirstLast(run);
    if j == |run| then []
    else [Message(run[j].streamId, run[j].ppid, Concat(run[..j + 1]))] + Cut(run[j + 1..])
  }

  /** How many of them are used up. */
  function Used(run: seq<Chunk>): (m: nat)
    ensures m <= |run|
    decreases |run|
  {
    var j := FirstLast(run);
    if j == |run| then 0 else j + 1 + Used(run[j + 1..])
  }

  /** The sequence number of the stream after them: an ordered burst counts the messages that have the next one. */
  function Numbered(run: seq<Chunk>, ssn: nat, ordered: bool): nat
    decreases |run|
  {
    var j := FirstLast(run);
    if j == |run| then ssn
    else Numbered(run[j + 1..], if ordered && run[j].ssn == ssn then Add16(ssn, 1) else ssn, ordered)
  }

  /** Whether a message may begin at the chunk, judged afresh. */
  predicate MayBegin(c: Chunk, ssn: nat) {
    c.first && (c.unordered || !Gt16(c.ssn, ssn))
  }

  function Prepend(kept: seq<Chunk>, ms: seq<Message>, p: Popped): Popped {
    Popped(p.stream.(reassembly := kept + p.stream.reassembly), ms + p.messages)
  }

  /** What a call makes of the chunks it has not passed yet. */
  function Deliver(list: seq<Chunk>, ssn: nat): Popped
    decreases |list|
  {
    if list == [] then Popped(Stream([], ssn), [])
    else
      var c := list[0];
      if !c.first && c.unordered then Prepend([c], [], Deliver(list[1..], ssn))
      else if !MayBegin(c, ssn) then Popped(Stream(list, ssn), [])
      else
        var n := RunLength(list, 0, c.tsn);
        var m := Used(list[..n]);
        var ssn' := Numbered(list[..n], ssn, !c.unordered);
        if !c.unordered || n == |list| then Popped(Stream(list[m..], ssn'), Cut(list[..n]))
        else Prepend(list[m..n + 1], Cut(list[..n]), Deliver(list[n + 1..], ssn'))
  }

  // The generator does this

  /** Judged afresh, the other variables of the generator do not matter. */
  lemma {:induction false} FreshCursor(s: Stream, p: nat, e: nat, o: bool)
    requires p <= |s.reassembly|
    ensures Pop(s, Cursor(p, None, e, o)) == Pop(s, Cursor(p, None, 0, false))
    decreases |s.reassembly| - p
  {
    if p < |s.reassembly| && !s.reassembly[p].first && s.reassembly[p].unordered {
      FreshCursor(s, p + 1, e, false);
    }
  }

  lemma {:induction false} RunLengthOfSuffix(list: seq<Chunk>, p: nat, list': seq<Chunk>, p': nat, expected: nat)
    requires p <= |list| && p' <= |list'| && list[p..] == list'[p'..]
    ensures RunLength(list, p, expected) == RunLength(list', p', expected)
    decreases |list| - p
  {
    assert |list| - p == |list[p..]| == |list'[p'..]| == |list'| - p';
    if p < |list| {
      assert list[p] == list[p..][0] == list'[p'..][0] == list'[p'];
      assert list[p + 1..] == list[p..][1..] == list'[p'..][1..] == list'[p' + 1..];
      RunLengthOfSuffix(list, p + 1, list', p' + 1, PlusOne(expected));
    }
  }

  /** Chunks that end no message in front of a run. */
  lemma CutPending(pending: seq<Chunk>, c: Chunk, rest: seq<Chunk>)
    requires forall i :: 0 <= i < |pending| ==> !pending[i].last
    requires c.last
    ensures var run := pending + [c] + rest;
            && FirstLast(run) == |pending|
            && Cut(run) == [Message(c.streamId, c.ppid, Concat(pending + [c]))] + Cut(rest)
            && Used(run) == |pending| + 1 + Used(rest)
  {
    var run := pending + [c] + rest;
    var j := FirstLast(run);
    assert run[|pending|] == c;
    assert j >= |pending| by {
      assert forall i :: 0 <= i < |pending| ==> run[i] == pending[i];
    }
    assert run[..j + 1] == pending + [c] && run[j + 1..] == rest;
  }

  lemma NumberedPending(pending: seq<Chunk>, c: Chunk, rest: seq<Chunk>, ssn: nat, ordered: bool)
    requires forall i :: 0 <= i < |pending| ==> !pending[i].last
    requires c.last
    ensures Numbered(pending + [c] + rest, ssn, ordered) ==
            Numbered(rest, if ordered && c.ssn == ssn then Add16(ssn, 1) else ssn, ordered)
  {
    CutPending(pending, c, rest);
    var run := pending + [c] + rest;
    assert run[|pending|] == c && run[|pending| + 1..] == rest;
  }

  lemma CutNothing(run: seq<Chunk>, ssn: nat, ordered: bool)
    requires forall i :: 0 <= i < |run| ==> !run[i].last
    ensures Cut(run) == [] && Used(run) == 0 && Numbered(run, ssn, ordered) == ssn
  {
  }

  /** Where the burst at `start` ends, and what comes after it. */
  ghost function AfterBurst(list: seq<Chunk>, ssn: nat, start: nat, end: nat, ordered: bool): Popped
    requires start <= end <= |list|
  {
    var run := list[start..end];
    var m, ssn' := Used(run), Numbered(run, ssn, ordered);
    var s' := Stream(list[..start] + list[start + m..], ssn');
    if ordered || end == |list| then Popped(s', Cut(run))
    else
      var p := Pop(s', Cursor(end - m + 1, None, 0, false));
      Popped(p.stream, Cut(run) + p.messages)
  }

  /** The list without the message that ends at `pos`. */
  function Without(list: seq<Chunk>, start: nat, pos: nat): seq<Chunk>
    requires start <= pos < |list|
  {
    list[..start] + list[pos + 1..]
  }

  lemma BurstIsOver(list: seq<Chunk>, ssn: nat, start: nat, pos: nat, ordered: bool)
    requires start <= pos <= |list| && forall i :: start <= i < pos ==> !list[i].last
    ensures AfterBurst(list, ssn, start, pos, ordered) ==
            if ordered || pos == |list| then Popped(Stream(list, ssn), [])
            else Pop(Stream(list, ssn), Cursor(pos + 1, None, 0, false))
  {
    hide Cut, Used, Numbered, FirstLast, Pop;
    CutNothing(list[start..pos], ssn, ordered);
    assert list[..start] + list[start..] == list;
  }

  lemma BurstGoesOn(list: seq<Chunk>, ssn: nat, start: nat, pos: nat, end: nat, ordered: bool)
    requires start <= pos < end <= |list| && list[pos].last && forall i :: start <= i < pos ==> !list[i].last
    ensures var c := list[pos];
            var next := AfterBurst(Without(list, start, pos), if ordered && c.ssn == ssn then Add16(ssn, 1) else ssn,
                                   start, end - (pos + 1 - start), ordered);
            AfterBurst(list, ssn, start, end, ordered) ==
            Popped(next.stream, [Message(c.streamId, c.ppid, Concat(list[start..pos + 1]))] + next.messages)
  {
    hide Cut, Used, Numbered, Concat, FirstLast, Pop;
    var c, list' := list[pos], Without(list, start, pos);
    var pending, rest := list[start..pos], list[pos + 1..end];
    var end' := end - (pos + 1 - start);
    assert list[start..end] == pending + [c] + rest;
    assert list'[start..end'] == rest;
    assert pending + [c] == list[start..pos + 1];
    CutPending(pending, c, rest);
    NumberedPending(pending, c, rest, ssn, ordered);
    var m, m' := Used(list[start..end]), Used(rest);
    assert list'[..start] == list[..start] && list'[start + m'..] == list[start + m..];
    var msg := [Message(c.streamId, c.ppid, Concat(pending + [c]))];
    if !ordered && end < |list| {
      var p := Pop(Stream(list[..start] + list[start + m..], Numbered(list[start..end], ssn, ordered)),
                   Cursor(end - m + 1, None, 0, false));
      assert msg + Cut(rest) + p.messages == msg + (Cut(rest) + p.messages);
    }
  }

  /** One turn inside a burst. */
  lemma BurstTurn(s: Stream, k: Cursor)
    requires CursorOk(s, k) && k.start.Some? && k.pos < |s.reassembly|
    ensures var c, next := s.reassembly[k.pos], PlusOne(k.expected);
            && (c.tsn != k.expected ==>
                  Pop(s, k) == if k.ordered then Popped(s, []) else Pop(s, Cursor(k.pos + 1, None, 0, false)))
            && (c.tsn == k.expected && !c.last ==> Pop(s, k) == Pop(s, k.(pos := k.pos + 1, expected := next)))
  {
    hide Concat;
    if s.reassembly[k.pos].tsn != k.expected && !k.ordered {
      FreshCursor(s, k.pos + 1, k.expected, k.ordered);
    }
  }

  lemma BurstYield(s: Stream, k: Cursor)
    requires CursorOk(s, k) && k.start.Some? && k.pos < |s.reassembly|
    requires s.reassembly[k.pos].tsn == k.expected && s.reassembly[k.pos].last
    ensures var c, start := s.reassembly[k.pos], k.start.value;
            var s' := Stream(Without(s.reassembly, start, k.pos), if k.ordered && c.ssn == s.ssn then Add16(s.ssn, 1) else s.ssn);
            var next := Pop(s', k.(pos := start, expected := PlusOne(k.expected)));
            Pop(s, k) == Popped(next.stream, [Message(c.streamId, c.ppid, Concat(s.reassembly[start..k.pos + 1]))] + next.messages)
  {
    hide Concat;
  }

  /** The generator inside a burst: chunks `start` to `pos` are read and end no message. */
  lemma {:induction false} PopIsBurst(s: Stream, k: Cursor)
    requires CursorOk(s, k) && k.start.Some?
    requires forall i :: k.start.value <= i < k.pos ==> !s.reassembly[i].last
    ensures var end := k.pos + RunLength(s.reassembly, k.pos, k.expected);
            Pop(s, k) == AfterBurst(s.reassembly, s.ssn, k.start.value, end, k.ordered)
    decreases |s.reassembly| - k.pos
  {
    hide AfterBurst, Concat, Pop, PopTurn;
    var list, start, pos := s.reassembly, k.start.value, k.pos;
    var end := pos + RunLength(list, pos, k.expected);
    if pos == |list| {
      PopAtEnd(s, k);
      BurstIsOver(list, s.ssn, start, pos, k.ordered);
    } else if list[pos].tsn != k.expected {
      BurstTurn(s, k);
      BurstIsOver(list, s.ssn, start, pos, k.ordered);
    } else if !list[pos].last {
      BurstTurn(s, k);
      PopIsBurst(s, k.(pos := pos + 1, expected := PlusOne(k.expected)));
    } else {
      BurstYield(s, k);
      var list' := Without(list, start, pos);
      var ssn' := if k.ordered && list[pos].ssn == s.ssn then Add16(s.ssn, 1) else s.ssn;
      PopIsBurst(Stream(list', ssn'), k.(pos := start, expected := PlusOne(k.expected)));
      assert list'[start..] == list[pos + 1..];
      RunLengthOfSuffix(list', start, list, pos + 1, PlusOne(k.expected));
      BurstGoesOn(list, s.ssn, start, pos, end, k.ordered);
    }
  }

  lemma PopAtEnd(s: Stream, k: Cursor)
    requires CursorOk(s, k) && k.pos == |s.reassembly|
    ensures Pop(s, k) == Popped(s, [])
  {
  }

  // A whole call

  /** Positions in front of `p` are passed. */
  lemma {:induction false} PopIsDeliver(s: Stream, p: nat)
    requires p <= |s.reassembly|
    ensures Pop(s, Cursor(p, None, 0, false)) == Prepend(s.reassembly[..p], [], Deliver(s.reassembly[p..], s.ssn))
    decreases |s.reassembly| - p
  {
    hide Cut, Used, Numbered, FirstLast, RunLength, Concat;
    var list := s.reassembly;
    var suffix := list[p..];
    assert list[..p] + suffix == list;
    if p < |list| {
      var c := list[p];
      if !c.first && c.unordered {
        FreshCursor(s, p + 1, 0, false);
        PopIsDeliver(s, p + 1);
        PassOver(list, p, s.ssn);
      } else if MayBegin(c, s.ssn) {
        BeginsBurst(s, p);
      }
    }
  }

  lemma PassOver(list: seq<Chunk>, p: nat, ssn: nat)
    requires p < |list| && !list[p].first && list[p].unordered
    ensures Prepend(list[..p], [], Deliver(list[p..], ssn)) == Prepend(list[..p + 1], [], Deliver(list[p + 1..], ssn))
  {
    hide Cut, Used, Numbered, FirstLast, RunLength, Concat;
    assert list[p..][1..] == list[p + 1..];
    var rest := Deliver(list[p + 1..], ssn);
    assert list[..p] + ([list[p]] + rest.stream.reassembly) == list[..p + 1] + rest.stream.reassembly;
    assert [] + ([] + rest.messages) == [] + rest.messages;
  }

  lemma BeginsBurst(s: Stream, p: nat)
    requires p < |s.reassembly| && MayBegin(s.reassembly[p], s.ssn)
    ensures Pop(s, Cursor(p, None, 0, false)) == Prepend(s.reassembly[..p], [], Deliver(s.reassembly[p..], s.ssn))
    decreases |s.reassembly| - p, 0
  {
    hide Pop, Cut, Used, Numbered, RunLength, Deliver, AfterBurst, Prepend;
    var list := s.reassembly;
    var c := list[p];
    BeginTurn(s, p);
    PopIsBurst(s, Cursor(p, Some(p), c.tsn, !c.unordered));
    var n := RunLength(list, p, c.tsn);
    RunLengthOfSuffix(list, p, list[p..], 0, c.tsn);
    RunStarts(list, p);
    DeliverBurst(list[p..], s.ssn);
    if c.unordered && p + n < |list| {
      var run := list[p..][..n];
      var m, ssn' := Used(run), Numbered(run, s.ssn, false);
      PopIsDeliver(Stream(list[..p] + list[p + m..], ssn'), p + n - m + 1);
      BurstPasses(list, s.ssn, p, n);
    } else {
      BurstEndsCall(list, s.ssn, p, n, !c.unordered);
    }
  }

  lemma BurstEndsCall(list: seq<Chunk>, ssn: nat, p: nat, n: nat, ordered: bool)
    requires p + n <= |list| && (ordered || p + n == |list|)
    ensures var run := list[p..][..n];
            AfterBurst(list, ssn, p, p + n, ordered) ==
            Prepend(list[..p], [], Popped(Stream(list[p..][Used(run)..], Numbered(run, ssn, ordered)), Cut(run)))
  {
    hide Pop, Cut, Used, Numbered;
    var run := list[p..][..n];
    assert run == list[p..p + n];
    var m := Used(run);
    assert list[p..][m..] == list[p + m..];
    assert [] + Cut(run) == Cut(run);
  }

  lemma BurstPasses(list: seq<Chunk>, ssn: nat, p: nat, n: nat)
    requires p + n < |list|
    requires var run := list[p..][..n];
             var m, ssn' := Used(run), Numbered(run, ssn, false);
             var s', q := Stream(list[..p] + list[p + m..], ssn'), p + n - m + 1;
             Pop(s', Cursor(q, None, 0, false)) == Prepend(s'.reassembly[..q], [], Deliver(s'.reassembly[q..], ssn'))
    ensures var run := list[p..][..n];
            var m, ssn' := Used(run), Numbered(run, ssn, false);
            AfterBurst(list, ssn, p, p + n, false) ==
            Prepend(list[..p], [], Prepend(list[p..][m..n + 1], Cut(run), Deliver(list[p..][n + 1..], ssn')))
  {
    hide Pop, Cut, Used, Numbered, Deliver;
    var run := list[p..][..n];
    assert run == list[p..p + n];
    var m, ssn' := Used(run), Numbered(run, ssn, false);
    AfterThePassed(list, p, n, m, ssn');
    var rest := Deliver(list[p..][n + 1..], ssn');
    var kept := list[p..][m..n + 1];
    assert list[..p] + (kept + rest.stream.reassembly) == list[..p] + kept + rest.stream.reassembly;
    assert Cut(run) + ([] + rest.messages) == [] + (Cut(run) + rest.messages);
  }

  lemma RunStarts(list: seq<Chunk>, p: nat)
    requires p < |list|
    ensures RunLength(list, p, list[p].tsn) > 0
  {
  }

  lemma DeliverBurst(list: seq<Chunk>, ssn: nat)
    requires list != [] && MayBegin(list[0], ssn)
    ensures var c := list[0];
            var n := RunLength(list, 0, c.tsn);
            var m, ssn' := Used(list[..n]), Numbered(list[..n], ssn, !c.unordered);
            Deliver(list, ssn) ==
            if !c.unordered || n == |list| then Popped(Stream(list[m..], ssn'), Cut(list[..n]))
            else Prepend(list[m..n + 1], Cut(list[..n]), Deliver(list[n + 1..], ssn'))
  {
    hide Cut, Used, Numbered, RunLength;
  }

  lemma BeginTurn(s: Stream, p: nat)
    requires p < |s.reassembly| && MayBegin(s.reassembly[p], s.ssn)
    ensures Pop(s, Cursor(p, None, 0, false)) ==
            Pop(s, Cursor(p, Some(p), s.reassembly[p].tsn, !s.reassembly[p].unordered))
  {
    hide Concat;
  }

  lemma AfterThePassed(list: seq<Chunk>, p: nat, n: nat, m: nat, ssn: nat)
    requires m <= n && p + n < |list|
    ensures var list', q := list[..p] + list[p + m..], p + n - m + 1;
            && q <= |list'| && list'[q..] == list[p + n + 1..] == list[p..][n + 1..]
            && list'[..q] == list[..p] + list[p + m..p + n + 1] && list[p + m..p + n + 1] == list[p..][m..n + 1]
  {
  }

  /** One call of `popMessages`, on any list. */
  lemma CallIs(s: Stream)
    ensures Pop(s, FRESH) == Deliver(s.reassembly, s.ssn)
  {
    hide Pop, Deliver;
    PopIsDeliver(s, 0);
    var d := Deliver(s.reassembly, s.ssn);
    assert s.reassembly[0..] == s.reassembly && s.reassembly[..0] == [];
    assert [] + d.stream.reassembly == d.stream.reassembly && [] + d.messages == d.messages;
  }

  // What a burst uses up

  /** Chunk `i` or a later one of the burst ends a message. */
  ghost predicate EndsLater(run: seq<Chunk>, i: nat) {
    exists j :: i <= j < |run| && run[j].last
  }

  lemma EndsLaterInRest(run: seq<Chunk>, n: nat, i: nat)
    requires n <= i < |run|
    ensures EndsLater(run[n..], i - n) <==> EndsLater(run, i)
  {
    var rest := run[n..];
    if x :| i - n <= x < |rest| && rest[x].last {
      assert run[x + n].last;
    }
    if x :| i <= x < |run| && run[x].last {
      assert rest[x - n].last;
    }
  }

  /** A chunk of a burst is delivered if and only if it, or a later one of the burst, ends a message. */
  lemma {:induction false} UsedIff(run: seq<Chunk>, i: nat)
    requires i < |run|
    ensures i < Used(run) <==> EndsLater(run, i)
    decreases |run|
  {
    var j := FirstLast(run);
    hide FirstLast;
    if j == |run| {
      assert Used(run) == 0;
    } else if i > j {
      hide EndsLater;
      UsedIff(run[j + 1..], i - j - 1);
      EndsLaterInRest(run, j + 1, i);
    } else {
      assert run[j].last;
    }
  }

  lemma {:induction false} UnorderedKeepsNumber(run: seq<Chunk>, ssn: nat)
    ensures Numbered(run, ssn, false) == ssn
    decreases |run|
  {
    var j := FirstLast(run);
    if j < |run| {
      UnorderedKeepsNumber(run[j + 1..], ssn);
    }
  }

  /**
   What a call makes of chunks behind an unordered message it delivers, for any list: those whose TSNs
   follow on, ordered or not, are delivered with it whatever their sequence numbers, as far as
   one of them ends a message; the chunk after the break is passed over, and the one after
   that is judged afresh. The sequence number is not advanced.
   */
  lemma BehindUnorderedIff(s: Stream)
    requires s.reassembly != [] && s.reassembly[0].first && s.reassembly[0].unordered
    ensures var list := s.reassembly;
            var n := RunLength(list, 0, list[0].tsn);
            var m := Used(list[..n]);
            && Pop(s, FRESH) == (if n == |list| then Popped(Stream(list[m..], s.ssn), Cut(list))
                                 else Prepend(list[m..n + 1], Cut(list[..n]), Deliver(list[n + 1..], s.ssn)))
            && forall i: nat :: i < n ==> (i < m <==> EndsLater(list[..n], i))
  {
    hide Pop, Deliver, Cut, Used, Numbered, RunLength, EndsLater;
    var list := s.reassembly;
    var n := RunLength(list, 0, list[0].tsn);
    CallIs(s);
    DeliverBurst(list, s.ssn);
    UnorderedKeepsNumber(list[..n], s.ssn);
    assert n == |list| ==> list[..n] == list;
    forall i: nat | i < n
      ensures i < Used(list[..n]) <==> EndsLater(list[..n], i)
    {
      UsedIff(list[..n], i);
    }
  }

  // Unordered streams

  /** The bursts of a call on a list of unordered chunks. */
  function BurstsOf(list: seq<Chunk>): seq<seq<Chunk>>
    decreases |list|
  {
    if list == [] then []
    else if !list[0].first then BurstsOf(list[1..])
    else
      var n := RunLength(list, 0, list[0].tsn);
      [list[..n]] + if n == |list| then [] else BurstsOf(list[n + 1..])
  }

  function CutAll(bursts: seq<seq<Chunk>>): seq<Message> {
    if bursts == [] then [] else Cut(bursts[0]) + CutAll(bursts[1..])
  }

  /**
   A call on an unordered stream delivers the messages its bursts cut, in TSN order. The chunk right after
   a break begins no burst, even if it begins a message.
   */
  lemma {:induction false} UnorderedCall(list: seq<Chunk>, ssn: nat)
    requires forall i :: 0 <= i < |list| ==> list[i].unordered
    ensures Deliver(list, ssn).messages == CutAll(BurstsOf(list)) && Deliver(list, ssn).stream.ssn == ssn
    decreases |list|
  {
    hide Cut, Used, Numbered, RunLength;
    if list != [] {
      if !list[0].first {
        UnorderedCall(list[1..], ssn);
      } else {
        var n := RunLength(list, 0, list[0].tsn);
        RunStarts(list, 0);
        DeliverBurst(list, ssn);
        UnorderedKeepsNumber(list[..n], ssn);
        var rest := if n == |list| then [] else BurstsOf(list[n + 1..]);
        assert ([list[..n]] + rest)[0] == list[..n] && ([list[..n]] + rest)[1..] == rest;
        if n < |list| {
          UnorderedCall(list[n + 1..], ssn);
        }
      }
    }
  }

  /** A whole unordered message behind an incomplete one stays behind exactly if its TSN does not follow on. */
  lemma UnorderedBehindIncomplete(a: Chunk, b: Chunk, ssn: nat)
    requires a.first && !a.last && a.unordered && b.first && b.last && b.unordered
    ensures Pop(Stream([a, b], ssn), FRESH).messages == [] <==> b.tsn != PlusOne(a.tsn)
  {
    CallIs(Stream([a, b], ssn));
    UnorderedCall([a, b], ssn);
    var list := [a, b];
    assert RunLength(list, 2, PlusOne(PlusOne(a.tsn))) == 0;
    assert RunLength(list, 1, PlusOne(a.tsn)) == if b.tsn == PlusOne(a.tsn) then 1 else 0;
    assert RunLength(list, 0, a.tsn) == 1 + RunLength(list, 1, PlusOne(a.tsn));
    if b.tsn == PlusOne(a.tsn) {
      assert list[..2] == list;
      assert FirstLast(list) == 1 by { assert FirstLast(list[1..]) == 0; }
    } else {
      assert list[..1] == [a] && list[2..] == [];
      assert FirstLast([a]) == 1 by { assert [a][1..] == []; }
      assert BurstsOf(list) == [[a]] + [];
    }
  }
}
