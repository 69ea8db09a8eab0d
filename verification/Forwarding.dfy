/**
 What a FORWARD-TSN delivers, where it moves each stream and what it throws away
 (`receiveForwardTsnChunk`, packages/sctp/src/sctp.ts:787-828; section 3.6 of RFC 3758).
 */
module Forwarding {
  import opened SerialNumbers
  import opened StringOrder
  import opened TsnTracking
  import opened Reassembly
  import opened OrderedStream
  import opened Bursts
  import opened SparseStream
  import opened Inbound

  // A call conserves chunks

  /** The message that ends at chunk `j`, where it is the first to end. */
  function FirstMessage(run: seq<Chunk>, j: nat): Message
    requires j < |run|
  {
    Message(run[j].streamId, run[j].ppid, Concat(run[..j + 1]))
  }

  lemma CutStep(run: seq<Chunk>, j: nat)
    requires j < |run| && run[j].last && forall i :: 0 <= i < j ==> !run[i].last
    ensures Cut(run) == [FirstMessage(run, j)] + Cut(run[j + 1..]) && Used(run) == j + 1 + Used(run[j + 1..])
  {
    hide FirstLast, Concat;
    assert FirstLast(run) == j;
  }

  lemma NothingEnds(run: seq<Chunk>)
    requires forall i :: 0 <= i < |run| ==> !run[i].last
    ensures Cut(run) == [] && Used(run) == 0
  {
    hide FirstLast;
    assert FirstLast(run) == |run|;
  }

  /** What a burst uses up is cut into the same messages. */
  lemma {:induction false} CutOfUsed(run: seq<Chunk>)
    ensures var m := Used(run); Cut(run[..m]) == Cut(run) && Used(run[..m]) == m
    decreases |run|
  {
    var j := FirstLast(run);
    hide Cut, Used, FirstLast, FirstMessage;
    if j == |run| {
      NothingEnds(run);
      NothingIsCut();
    } else {
      CutStep(run, j);
      var m, rest := Used(run), run[j + 1..];
      CutOfUsed(rest);
      assert run[..m][j + 1..] == rest[..m - (j + 1)];
      CutStep(run[..m], j);
      assert FirstMessage(run[..m], j) == FirstMessage(run, j) by { SameFirst(run[..m], run, j); }
    }
  }

  lemma SameFirst(a: seq<Chunk>, b: seq<Chunk>, j: nat)
    requires j < |a| && j < |b| && a[..j + 1] == b[..j + 1]
    ensures FirstMessage(a, j) == FirstMessage(b, j)
  {
    assert a[j] == a[..j + 1][j] == b[..j + 1][j] == b[j];
  }

  /** Cutting goes on behind chunks that are used up. */
  lemma {:induction false} CutParts(a: seq<Chunk>, b: seq<Chunk>)
    requires Used(a) == |a|
    ensures Cut(a + b) == Cut(a) + Cut(b) && Used(a + b) == |a| + Used(b)
    decreases |a|
  {
    var j := FirstLast(a);
    hide Cut, Used, FirstLast, FirstMessage;
    if a == [] {
      NothingIsCut();
      assert a + b == b;
    } else {
      if j == |a| {
        NothingEnds(a);
      }
      CutStep(a, j);
      assert (a + b)[j + 1..] == a[j + 1..] + b && (a + b)[..j + 1] == a[..j + 1];
      CutStep(a + b, j);
      SameFirst(a + b, a, j);
      CutParts(a[j + 1..], b);
    }
  }

  /** `taken` are the chunks of the messages `ms`, and `kept` the rest of `list`. */
  ghost predicate Parts(list: seq<Chunk>, taken: seq<Chunk>, ms: seq<Message>, kept: seq<Chunk>) {
    && multiset(list) == multiset(taken) + multiset(kept)
    && Cut(taken) == ms && Used(taken) == |taken|
  }

  lemma SplitMultiset(list: seq<Chunk>, m: nat)
    requires m <= |list|
    ensures multiset(list) == multiset(list[..m]) + multiset(list[m..])
  {
    assert list == list[..m] + list[m..];
  }

  lemma TakesFront(list: seq<Chunk>, n: nat)
    requires n <= |list|
    ensures var m := Used(list[..n]); Parts(list, list[..m], Cut(list[..n]), list[m..])
  {
    hide Cut, Used;
    var m := Used(list[..n]);
    CutOfUsed(list[..n]);
    assert list[..n][..m] == list[..m];
    SplitMultiset(list, m);
  }

  /** Behind a front that is taken and chunks that are passed over, more is taken. */
  lemma TakesMore(list: seq<Chunk>, m: nat, n: nat, ms: seq<Message>, more: seq<Chunk>, ms': seq<Message>, kept: seq<Chunk>)
    requires m <= n <= |list| && Cut(list[..m]) == ms && Used(list[..m]) == m
    requires Parts(list[n..], more, ms', kept)
    ensures Parts(list, list[..m] + more, ms + ms', list[m..n] + kept)
  {
    hide Cut, Used;
    CutParts(list[..m], more);
    SplitMultiset(list, m);
    SplitMultiset(list[m..], n - m);
    assert list[m..][..n - m] == list[m..n] && list[m..][n - m..] == list[n..];
  }

  lemma {:induction false} DeliverTakes(list: seq<Chunk>, ssn: nat) returns (taken: seq<Chunk>)
    ensures var d := Deliver(list, ssn); Parts(list, taken, d.messages, d.stream.reassembly)
    decreases |list|
  {
    hide Cut, Used, Numbered, RunLength, Parts;
    taken := [];
    if list == [] || (!MayBegin(list[0], ssn) && (list[0].first || !list[0].unordered)) {
      TakesNothing(list);
    } else if !list[0].first {
      var more := DeliverTakes(list[1..], ssn);
      TakesNothing(list);
      var d := Deliver(list[1..], ssn);
      NothingIsCut();
      assert list[..0] == [] && list[0..1] == [list[0]];
      TakesMore(list, 0, 1, [], more, d.messages, d.stream.reassembly);
      taken := list[..0] + more;
      assert [] + d.messages == d.messages;
    } else {
      var c := list[0];
      var n := RunLength(list, 0, c.tsn);
      DeliverBurst(list, ssn);
      TakesFront(list, n);
      var m, ssn' := Used(list[..n]), Numbered(list[..n], ssn, !c.unordered);
      taken := list[..m];
      if c.unordered && n < |list| {
        var more := DeliverTakes(list[n + 1..], ssn');
        var d := Deliver(list[n + 1..], ssn');
        FrontIs(list, taken, Cut(list[..n]), list[m..]);
        TakesMore(list, m, n + 1, Cut(list[..n]), more, d.messages, d.stream.reassembly);
        taken := taken + more;
      }
    }
  }

  lemma FrontIs(list: seq<Chunk>, taken: seq<Chunk>, ms: seq<Message>, kept: seq<Chunk>)
    requires Parts(list, taken, ms, kept)
    ensures Cut(taken) == ms && Used(taken) == |taken|
  {
  }

  lemma TakesNothing(list: seq<Chunk>)
    ensures Parts(list, [], [], list)
  {
  }

  lemma NothingIsCut()
    ensures Cut([]) == [] && Used([]) == 0
  {
  }

  /**
   One call of `popMessages` on any list takes whole messages out of it and keeps every other chunk:
   no chunk is lost, doubled or delivered in two messages.
   */
  lemma PopConservesChunks(s: Stream) returns (taken: seq<Chunk>)
    ensures var p := Pop(s, FRESH); Parts(s.reassembly, taken, p.messages, p.stream.reassembly)
  {
    hide Pop, Deliver, Parts;
    CallIs(s);
    taken := DeliverTakes(s.reassembly, s.ssn);
  }

  // The skipped streams, one by one

  /** The sequence numbers the chunk names for a stream. */
  function Skips(skipped: seq<(nat, nat)>, id: nat): seq<nat> {
    if skipped == [] then []
    else (if skipped[0].0 == id then [skipped[0].1] else []) + Skips(skipped[1..], id)
  }

  /** The stream moved past one number. */
  function SkipPast(st: Stream, n: nat): Popped {
    Pop(st.(ssn := Add16(n, 1)), FRESH)
  }

  /** The stream moved past several numbers in turn. */
  function SkipAll(st: Stream, ns: seq<nat>): Popped
    decreases |ns|
  {
    if ns == [] then Popped(st, [])
    else
      var p := SkipPast(st, ns[0]);
      var rest := SkipAll(p.stream, ns[1..]);
      Popped(rest.stream, p.messages + rest.messages)
  }

  /** The messages of one stream. */
  function On(ms: seq<Message>, id: nat): seq<Message> {
    if ms == [] then [] else IfOn(ms[0], id) + On(ms[1..], id)
  }

  function IfOn(m: Message, id: nat): seq<Message> {
    if m.streamId == id then [m] else []
  }

  lemma OnHead(ms: seq<Message>, id: nat)
    ensures On(ms, id) == if ms == [] then [] else IfOn(ms[0], id) + On(ms[1..], id)
  {
  }

  lemma {:induction false} OnParts(a: seq<Message>, b: seq<Message>, id: nat)
    ensures On(a + b, id) == On(a, id) + On(b, id)
  {
    hide On, IfOn;
    OnHead(a, id);
    if a == [] {
      assert a + b == b;
    } else {
      OnHead(a + b, id);
      assert (a + b)[1..] == a[1..] + b;
      OnParts(a[1..], b, id);
    }
  }

  predicate AllOn(ms: seq<Message>, id: nat) {
    forall i :: 0 <= i < |ms| ==> ms[i].streamId == id
  }

  lemma {:induction false} OnAll(ms: seq<Message>, x: nat, id: nat)
    requires AllOn(ms, x)
    ensures On(ms, id) == if x == id then ms else []
  {
    if ms != [] {
      OnAll(ms[1..], x, id);
    }
  }

  /** Every stream holds chunks of its own. */
  ghost predicate Own(streams: map<nat, Stream>) {
    forall id, c :: id in streams && c in streams[id].reassembly ==> c.streamId == id
  }

  lemma {:induction false} CutOfOwn(run: seq<Chunk>, id: nat)
    requires forall c :: c in run ==> c.streamId == id
    ensures AllOn(Cut(run), id)
    decreases |run|
  {
    hide Concat, FirstLast;
    var j := FirstLast(run);
    if j < |run| {
      CutOfOwn(run[j + 1..], id);
      assert run[j] in run;
    }
  }

  lemma InParts(list: seq<Chunk>, taken: seq<Chunk>, ms: seq<Message>, kept: seq<Chunk>)
    requires Parts(list, taken, ms, kept)
    ensures forall c :: c in taken || c in kept ==> c in list
  {
    forall c | c in taken || c in kept ensures c in list {
      assert c in multiset(list);
    }
  }

  lemma PopOfOwn(st: Stream, id: nat)
    requires forall c :: c in st.reassembly ==> c.streamId == id
    ensures var p := Pop(st, FRESH);
            && AllOn(p.messages, id)
            && (forall c :: c in p.stream.reassembly ==> c.streamId == id)
  {
    hide Pop, Cut, Used;
    var taken := PopConservesChunks(st);
    var p := Pop(st, FRESH);
    InParts(st.reassembly, taken, p.messages, p.stream.reassembly);
    CutOfOwn(taken, id);
  }

  lemma ForwardOneStream(s: State, x: nat, n: nat)
    requires Own(s.streams)
    ensures var o := ForwardStream(s, x, n);
            var p := SkipPast(StreamAt(s.streams, x), n);
            && Own(o.state.streams) && o.delivered == p.messages
            && AllOn(p.messages, x)
            && StreamAt(o.state.streams, x) == p.stream
            && (forall id: nat :: id != x ==> StreamAt(o.state.streams, id) == StreamAt(s.streams, id))
  {
    hide Pop;
    assert forall c :: c in StreamAt(s.streams, x).reassembly ==> c.streamId == x;
    PopOfOwn(StreamAt(s.streams, x).(ssn := Add16(n, 1)), x);
    var o, p := ForwardStream(s, x, n), SkipPast(StreamAt(s.streams, x), n);
    assert o.state.streams == s.streams[x := p.stream] && o.delivered == p.messages;
    forall id, c | id in o.state.streams && c in o.state.streams[id].reassembly ensures c.streamId == id {
      if id != x {
        assert c in s.streams[id].reassembly;
      }
    }
  }

  /**
   The (stream, SSN) list read stream by stream: each stream is moved past the numbers named for it, in
   turn, and delivers what that frees; other streams are left alone.
   */
  lemma {:induction false} ForwardStreamsIs(s: State, skipped: seq<(nat, nat)>, id: nat)
    requires Own(s.streams)
    ensures var o := ForwardStreams(s, skipped);
            var p := SkipAll(StreamAt(s.streams, id), Skips(skipped, id));
            && Own(o.state.streams)
            && StreamAt(o.state.streams, id) == p.stream && On(o.delivered, id) == p.messages
            && o.state.tracker == s.tracker
    decreases |skipped|
  {
    hide ForwardStream, Own, StreamAt, SkipPast;
    if skipped != [] {
      var x, n := skipped[0].0, skipped[0].1;
      ForwardOneStream(s, x, n);
      var o := ForwardStream(s, x, n);
      assert o.state.tracker == s.tracker by { KeepsTracker(s, x, n); }
      ForwardStreamsIs(o.state, skipped[1..], id);
      OnParts(o.delivered, ForwardStreams(o.state, skipped[1..]).delivered, id);
      OnAll(o.delivered, x, id);
      if x == id {
        assert Skips(skipped, id)[1..] == Skips(skipped[1..], id);
      } else {
        assert Skips(skipped, id) == Skips(skipped[1..], id);
      }
    }
  }

  lemma KeepsTracker(s: State, x: nat, n: nat)
    ensures ForwardStream(s, x, n).state.tracker == s.tracker
  {
  }

  lemma PruneStreamAt(streams: map<nat, Stream>, id: nat, tsn: nat)
    ensures StreamAt(PruneAll(streams, tsn), id) == Prune(StreamAt(streams, id), tsn)
  {
  }

  /** An accepted FORWARD-TSN, on any stream: what it delivers there, and what it leaves. */
  lemma ForwardTsnIs(s: State, cum: nat, skipped: seq<(nat, nat)>, id: nat)
    requires !Gte32(s.tracker.last, cum) && Own(s.streams)
    ensures var o := ReceiveForwardTsn(s, cum, skipped);
            var p := SkipAll(StreamAt(s.streams, id), Skips(skipped, id));
            && On(o.delivered, id) == p.messages
            && StreamAt(o.state.streams, id) == Prune(p.stream, o.state.tracker.last)
            && o.state.tracker == Forward(s.tracker, cum) && o.state.sackNeeded
  {
    hide Forward, ForwardStreams, SkipAll, Skips, PrunedTotal, PruneAll, Own;
    var t := Forward(s.tracker, cum);
    var s1 := s.(tracker := t, sackNeeded := true);
    assert Own(s1.streams);
    ForwardStreamsIs(s1, skipped, id);
    PruneStreamAt(ForwardStreams(s1, skipped).state.streams, id, t.last);
    StillNeedsSack(s1, skipped);
  }

  lemma {:induction false} StillNeedsSack(s: State, skipped: seq<(nat, nat)>)
    ensures ForwardStreams(s, skipped).state.sackNeeded == s.sackNeeded
    decreases |skipped|
  {
    hide Pop;
    if skipped != [] {
      StillNeedsSack(ForwardStream(s, skipped[0].0, skipped[0].1).state, skipped[1..]);
    }
  }

  lemma {:induction false} SkipAllTakes(st: Stream, ns: seq<nat>) returns (taken: seq<Chunk>)
    ensures var p := SkipAll(st, ns); Parts(st.reassembly, taken, p.messages, p.stream.reassembly)
    decreases |ns|
  {
    hide Pop, Cut, Used;
    if ns == [] {
      NothingIsCut();
      taken := [];
    } else {
      taken := PopConservesChunks(st.(ssn := Add16(ns[0], 1)));
      var more := SkipAllTakes(SkipPast(st, ns[0]).stream, ns[1..]);
      CutParts(taken, more);
      taken := taken + more;
    }
  }

  // An ordered stream moved past a number

  /** The list holds fragments of messages sent on the stream, of message `f` first of all. */
  ghost predicate HoldsFrom(list: seq<Chunk>, h: Held, sid: nat, sent: seq<Placed>, f: nat, lo: nat) {
    HoldsSome(Stream(list, f % MOD16), h, sid, sent, f, lo) && h.ks != [] && h.ks[0] == f
  }

  /** A call begins the message in front exactly if its first fragment is there and its number is not ahead. */
  lemma FrontBegins(list: seq<Chunk>, h: Held, sid: nat, sent: seq<Placed>, f: nat, lo: nat, d: nat)
    requires HoldsFrom(list, h, sid, sent, f, lo) && -HALF16 < f - d < HALF16
    ensures !list[0].unordered
    ensures MayBegin(list[0], d % MOD16) <==> f <= d && MayBegin(list[0], f % MOD16)
  {
    assert HoldsAt(Stream(list, f % MOD16), h, sid, sent, 0);
    Gt16IsVirtualOrder(f, d);
    Gt16IsVirtualOrder(f, f);
  }

  /** The number of the stream decides whether the first message is begun, and nothing else of what is delivered. */
  lemma NumberOnlyGates(list: seq<Chunk>, h: Held, sid: nat, sent: seq<Placed>, f: nat, lo: nat, d: nat)
    requires HoldsFrom(list, h, sid, sent, f, lo) && -HALF16 < f - d < HALF16
    ensures Pop(Stream(list, d % MOD16), FRESH).messages ==
            if f <= d then Pop(Stream(list, f % MOD16), FRESH).messages else []
  {
    hide Pop, Cut, Used, Numbered, RunLength, HoldsSome, MayBegin;
    FrontBegins(list, h, sid, sent, f, lo, d);
    assert list != [] by { HoldsNonempty(list, h, sid, sent, f, lo); }
    CallIs(Stream(list, d % MOD16));
    CallIs(Stream(list, f % MOD16));
    if MayBegin(list[0], f % MOD16) {
      DeliverBurst(list, f % MOD16);
    }
    if MayBegin(list[0], d % MOD16) {
      DeliverBurst(list, d % MOD16);
    }
  }

  lemma HoldsNonempty(list: seq<Chunk>, h: Held, sid: nat, sent: seq<Placed>, f: nat, lo: nat)
    requires HoldsFrom(list, h, sid, sent, f, lo)
    ensures list != [] && f < |sent| && !Empty(sent[f])
  {
    assert HoldsAt(Stream(list, f % MOD16), h, sid, sent, 0);
  }

  lemma SkipIs(list: seq<Chunk>, d: nat)
    requires d > 0
    ensures forall ssn :: SkipPast(Stream(list, ssn), (d - 1) % MOD16) == Pop(Stream(list, d % MOD16), FRESH)
  {
    hide Pop;
    Add16IsVirtual(d - 1, 1);
  }

  /**
   Exactly what a stream delivers when it is moved past message `d - 1`, with message `f` the first of which
   it holds anything: message `k` if and only if `f` is not after `d`, and everything from `f` to
   `k` is held without a break.
   */
  lemma SkipDeliversIff(st: Stream, h: Held, sid: nat, sent: seq<Placed>, f: nat, lo: nat, d: nat, k: nat)
    requires HoldsFrom(st.reassembly, h, sid, sent, f, lo) && 0 < d && -HALF16 < f - d < HALF16
    requires f <= k < |sent| && !Empty(sent[k])
    ensures var ms := SkipPast(st, (d - 1) % MOD16).messages;
            && (|ms| > Filled(sent, f, k) <==> f <= d && Unbroken(h.us, sent, f, k))
            && (|ms| > Filled(sent, f, k) ==> ms[Filled(sent, f, k)] == MessageOf(sid, sent[k]))
  {
    hide Pop, Unbroken, Filled, HoldsSome, SkipPast;
    SkipIs(st.reassembly, d);
    NumberOnlyGates(st.reassembly, h, sid, sent, f, lo, d);
    HoldsNonempty(st.reassembly, h, sid, sent, f, lo);
    DeliveredDespiteEmptyIff(Stream(st.reassembly, f % MOD16), h, sid, sent, f, lo, k);
  }

  /** The count over a run that begins before the number it is at. */
  lemma {:induction false} NumberFrom(r: seq<Chunk>, ks: seq<nat>, sid: nat, sent: seq<Placed>, f: nat, d: nat, top: nat)
    returns (e: nat)
    requires InOrder(sent) && f < |sent| && !Empty(sent[f]) && RunOf(r, ks, sid, sent, sent[f].start)
    requires f <= d <= |sent| && d < f + MOD16 && top <= f + MOD16 && forall i :: 0 <= i < |ks| ==> ks[i] < top
    ensures StopsCounting(sent, d, e, sent[f].start + |r|) && Numbered(r, d % MOD16, true) == e % MOD16
    decreases |r|
  {
    hide FragmentAt, Concat, Flatten;
    if f == d {
      e := NumberOfRun(r, ks, sid, sent, d, top);
    } else {
      e := d;
      FirstMessageOfRun(r, ks, sid, sent, f);
      assert d < |sent| ==> End(sent[f]) <= sent[d].start;
      var n := |sent[f].pieces|;
      NumberAfterFirst(r, n, d % MOD16);
      if n <= |r| {
        DifferentNumbers(d, f);
        if n == |r| {
          NothingNumbered(r[n..], d % MOD16);
        } else {
          NextMessageOfRun(r, ks, sid, sent, f);
          var next := ks[n];
          if next <= d {
            e := NumberFrom(r[n..], ks[n..], sid, sent, next, d, top);
          } else {
            assert Empty(sent[d]);
            NumbersAhead(r[n..], ks[n..], sid, sent, sent[next].start, d, next, top);
            NumberStays(r[n..], d % MOD16);
          }
        }
      }
    }
  }

  lemma NumberAfterFirst(r: seq<Chunk>, n: nat, ssn: nat)
    requires n > 0 && FirstLast(r) == if n <= |r| then n - 1 else |r|
    ensures Numbered(r, ssn, true) ==
            if n > |r| then ssn else Numbered(r[n..], if r[n - 1].ssn == ssn then Add16(ssn, 1) else ssn, true)
  {
    hide FirstLast;
  }

  lemma NothingNumbered(r: seq<Chunk>, ssn: nat)
    requires r == []
    ensures Numbered(r, ssn, true) == ssn
  {
  }

  /** From `d` on, `e` is the first message that is empty or was not delivered. */
  ghost predicate CountsTo(us: seq<nat>, sent: seq<Placed>, f: nat, d: nat, e: nat) {
    && d <= e <= |sent|
    && (forall x: nat :: d <= x < e ==> !Empty(sent[x]) && f <= x && Unbroken(us, sent, f, x))
    && (e < |sent| ==> Empty(sent[e]) || f > e || !Unbroken(us, sent, f, e))
  }

  /** After it the number is that of the first message from `d` on that is empty or was not delivered. */
  lemma SkipCounts(st: Stream, h: Held, sid: nat, sent: seq<Placed>, f: nat, lo: nat, d: nat) returns (e: nat)
    requires HoldsFrom(st.reassembly, h, sid, sent, f, lo) && 0 < d <= |sent| && -HALF16 < f - d < HALF16
    ensures SkipPast(st, (d - 1) % MOD16).stream.ssn == e % MOD16
    ensures CountsTo(h.us, sent, f, d, e)
  {
    hide Pop, Cut, Used, Numbered, RunLength, Unbroken, SkipPast;
    var list := st.reassembly;
    var s := Stream(list, f % MOD16);
    SkipIs(list, d);
    HoldsNonempty(list, h, sid, sent, f, lo);
    FrontBegins(list, h, sid, sent, f, lo, d);
    CallIs(Stream(list, d % MOD16));
    if !MayBegin(list[0], d % MOD16) {
      e := d;
      if f <= d < |sent| && !Empty(sent[d]) {
        NoBeginNoMessage(s, h, sid, sent, f, lo);
        NoGapIsUnbroken(s, h, sid, sent, f, lo, d);
        assert f < d ==> End(sent[f]) <= sent[d].start;
        assert !NoGap(h.us, sent, f, d);
      }
    } else {
      var n := FrontRun(s, h, sid, sent, f, lo);
      DeliverBurst(list, d % MOD16);
      e := NumberFrom(list[..n], h.ks[..n], sid, sent, f, d, f + HALF16);
      forall x | f <= x < |sent| && !Empty(sent[x])
        ensures End(sent[x]) <= sent[f].start + n <==> Unbroken(h.us, sent, f, x)
      {
        RunReachesIff(h.us, sent, f, x, n);
        NoGapIsUnbroken(s, h, sid, sent, f, lo, x);
      }
    }
  }

  /**
   What an accepted FORWARD-TSN that names message `d - 1` of an ordered stream does there: it delivers
   message `k` if and only if everything from the first message held, which is not after `d`, up to `k` is held
   without a break, and the number of the stream ends up past `d - 1`.
   */
  lemma ForwardDeliversIff(
    s: State, cum: nat, skipped: seq<(nat, nat)>, id: nat, h: Held, sent: seq<Placed>, f: nat, lo: nat, d: nat, k: nat)
    returns (e: nat)
    requires !Gte32(s.tracker.last, cum) && Own(s.streams) && 0 < d <= |sent| && Skips(skipped, id) == [(d - 1) % MOD16]
    requires HoldsFrom(StreamAt(s.streams, id).reassembly, h, id, sent, f, lo) && -HALF16 < f - d < HALF16
    requires f <= k < |sent| && !Empty(sent[k])
    ensures var ms := On(ReceiveForwardTsn(s, cum, skipped).delivered, id);
            && (|ms| > Filled(sent, f, k) <==> f <= d && Unbroken(h.us, sent, f, k))
            && (|ms| > Filled(sent, f, k) ==> ms[Filled(sent, f, k)] == MessageOf(id, sent[k]))
    ensures StreamAt(ReceiveForwardTsn(s, cum, skipped).state.streams, id).ssn == e % MOD16
    ensures CountsTo(h.us, sent, f, d, e)
  {
    hide ReceiveForwardTsn, HoldsFrom, Unbroken, Filled, Own, SkipPast, SkipAll, StreamAt, Skips, PruneCount, On, Empty, CountsTo;
    var st, n := StreamAt(s.streams, id), (d - 1) % MOD16;
    ForwardTsnIs(s, cum, skipped, id);
    SkipOne(st, n);
    assert SkipAll(st, Skips(skipped, id)) == SkipPast(st, n);
    SkipDeliversIff(st, h, id, sent, f, lo, d, k);
    e := SkipCounts(st, h, id, sent, f, lo, d);
  }

  lemma SkipOne(st: Stream, n: nat)
    ensures SkipAll(st, [n]) == SkipPast(st, n)
  {
    hide SkipPast;
    var p := SkipPast(st, n);
    assert [n][1..] == [] && SkipAll(p.stream, []) == Popped(p.stream, []);
    assert p.messages + [] == p.messages;
  }

  // Runs

  lemma {:induction false} InsertedFrom(list: seq<Chunk>, c: Chunk, i: nat)
    requires i <= |list| && InsertFrom(list, c, i).Added?
    ensures forall x :: x in InsertFrom(list, c, i).list ==> x in list || x == c
    decreases |list| - i
  {
    if i < |list| && list[i].tsn != c.tsn && !Gt32(list[i].tsn, c.tsn) {
      InsertedFrom(list, c, i + 1);
    }
  }

  lemma AddedIs(list: seq<Chunk>, c: Chunk)
    requires AddChunk(list, c).Added?
    ensures forall x :: x in AddChunk(list, c).list ==> x in list || x == c
  {
    hide InsertFrom;
    if list != [] && !Gt32(c.tsn, list[|list| - 1].tsn) {
      InsertedFrom(list, c, 0);
    }
  }

  lemma DataKeepsOwn(s: State, chunk: Chunk)
    requires Own(s.streams)
    ensures Own(ReceiveData(s, chunk).state.streams)
  {
    hide Pop, AddChunk, MarkReceived, IsDuplicate;
    if !IsDuplicate(s.tracker, chunk.tsn) {
      var stream := StreamAt(s.streams, chunk.streamId);
      if AddChunk(stream.reassembly, chunk).Added? {
        var list := AddChunk(stream.reassembly, chunk).list;
        AddedIs(stream.reassembly, chunk);
        PopOfOwn(stream.(reassembly := list), chunk.streamId);
      }
    }
  }

  lemma ForwardKeepsOwn(s: State, cum: nat, skipped: seq<(nat, nat)>)
    requires Own(s.streams)
    ensures Own(ReceiveForwardTsn(s, cum, skipped).state.streams)
  {
    hide Forward, ForwardStreams, PrunedTotal;
    if !Gte32(s.tracker.last, cum) {
      ForwardStreamsIs(s.(tracker := Forward(s.tracker, cum), sackNeeded := true), skipped, 0);
    }
  }

  lemma {:induction false} RunKeepsOwn(r: Run, es: seq<Event>)
    requires Own(r.s.streams)
    ensures Own(Execute(r, es).s.streams)
    decreases |es|
  {
    hide Own, ReceiveData, ReceiveForwardTsn;
    if es != [] {
      match es[0] {
        case Data(chunk) => DataKeepsOwn(r.s, chunk);
        case ForwardTsn(serial, skipped) => ForwardKeepsOwn(r.s, serial % MOD32, skipped);
      }
      RunKeepsOwn(Step(r, es[0]), es[1..]);
    }
  }

  lemma {:induction false} SkipAllKeepsSorted(st: Stream, ns: seq<nat>)
    requires Sorted(st.reassembly)
    ensures var list := SkipAll(st, ns).stream.reassembly;
            Sorted(list) && forall x :: x in list ==> x in st.reassembly
    decreases |ns|
  {
    hide Pop, Sorted;
    if ns != [] {
      var st1 := st.(ssn := Add16(ns[0], 1));
      PopKeepsSorted(st1, FRESH);
      SkipAllKeepsSorted(SkipPast(st, ns[0]).stream, ns[1..]);
    }
  }

  /** The prefix at or below the cumulative TSN is thrown away, and only that. */
  lemma PruneParts(st: Stream, v: nat)
    requires Sorted(st.reassembly) && Near(Serials(st.reassembly), v)
    ensures var list := st.reassembly;
            var n := PruneCount(list, v % MOD32);
            && Prune(st, v % MOD32).reassembly == list[n..]
            && (forall c :: c in list[..n] ==> c.serial <= v) && (forall c :: c in list[n..] ==> c.serial > v)
            && multiset(list) == multiset(list[..n]) + multiset(list[n..])
  {
    var list := st.reassembly;
    var n, us := PruneCount(list, v % MOD32), Serials(list);
    hide PruneCount;
    PruneIsExact(list, us, v);
    SplitMultiset(list, n);
    forall c | c in list[..n] ensures c.serial <= v {
      var i :| 0 <= i < n && list[i] == c;
      assert us[i] == c.serial;
    }
    forall c | c in list[n..] ensures c.serial > v {
      var i :| n <= i < |list| && list[i] == c;
      assert us[i] == c.serial;
    }
  }

  /** The chunks of a stream before and after: delivered, thrown away, or still held. */
  ghost predicate Disposes(
    list: seq<Chunk>, delivered: seq<Message>, taken: seq<Chunk>, pruned: seq<Chunk>, list': seq<Chunk>, cum: nat)
  {
    && multiset(list) == multiset(taken) + multiset(pruned) + multiset(list')
    && Cut(taken) == delivered && Used(taken) == |taken|
    && (forall c :: c in pruned ==> c.serial <= cum)
    && (forall c :: c in list' ==> c.serial > cum)
  }

  lemma SkipAndPrune(st: Stream, ns: seq<nat>, v: nat) returns (taken: seq<Chunk>, pruned: seq<Chunk>)
    requires Sorted(st.reassembly) && Near(Serials(st.reassembly), v)
    ensures var p := SkipAll(st, ns);
            Disposes(st.reassembly, p.messages, taken, pruned, Prune(p.stream, v % MOD32).reassembly, v)
  {
    hide Sorted, Cut, Used, SkipAll;
    var p := SkipAll(st, ns);
    taken := SkipAllTakes(st, ns);
    SkipAllKeepsSorted(st, ns);
    assert Near(Serials(p.stream.reassembly), v) by { SubsetNear(st.reassembly, p.stream.reassembly, v); }
    PruneParts(p.stream, v);
    pruned := p.stream.reassembly[..PruneCount(p.stream.reassembly, v % MOD32)];
  }

  lemma SubsetNear(list: seq<Chunk>, list': seq<Chunk>, v: nat)
    requires Near(Serials(list), v) && forall x :: x in list' ==> x in list
    ensures Near(Serials(list'), v)
  {
    forall i | 0 <= i < |list'| ensures -HALF32 < Serials(list')[i] - v < HALF32 {
      assert list'[i] in list;
      var j :| 0 <= j < |list| && list[j] == list'[i];
      assert Serials(list)[j] == Serials(list')[i];
    }
  }

  /**
   In every run, what an accepted FORWARD-TSN makes of the chunks a stream holds: those of the messages it
   delivers are taken, of the others exactly those at or below the new cumulative TSN are thrown
   away, and the rest stay.
   */
  lemma ForwardDisposes(r0: Run, initial: nat, es: seq<Event>, serial: nat, skipped: seq<(nat, nat)>, id: nat)
    returns (taken: seq<Chunk>, pruned: seq<Chunk>)
    requires Fresh(r0, initial) && Windowed(r0, es)
    requires var r := Execute(r0, es); r.cum < serial < r.cum + HALF32
    requires var r := Execute(r0, es);
             Near(Serials(StreamAt(r.s.streams, id).reassembly), Step(r, ForwardTsn(serial, skipped)).cum)
    ensures var r := Execute(r0, es);
            var r' := Step(r, ForwardTsn(serial, skipped));
            Disposes(StreamAt(r.s.streams, id).reassembly,
                     On(ReceiveForwardTsn(r.s, serial % MOD32, skipped).delivered, id),
                     taken, pruned, StreamAt(r'.s.streams, id).reassembly, r'.cum)
  {
    hide Execute, Windowed, ReceiveForwardTsn, Disposes, Sorted, Near, SkipAll, Skips, Forward, Own, Buffered, Received, PruneCount;
    var r := Execute(r0, es);
    assert Good(r0, {}) by { FreshIsGood(r0, initial, 0); }
    var m := ExecuteKeepsGood(r0, {}, es);
    assert Own(r0.s.streams) by { NothingHeld(r0.s.streams); }
    RunKeepsOwn(r0, es);
    Gt32IsVirtualOrder(r.cum, serial);
    var m' := ForwardKeepsGood(r, m, serial, skipped);
    ForwardTsnIs(r.s, serial % MOD32, skipped, id);
    var st := StreamAt(r.s.streams, id);
    assert Sorted(st.reassembly) by { HeldSorted(r, m, id); }
    taken, pruned := SkipAndPrune(st, Skips(skipped, id), Step(r, ForwardTsn(serial, skipped)).cum);
  }

  lemma NothingHeld(streams: map<nat, Stream>)
    requires streams == map[]
    ensures Own(streams)
  {
  }

  lemma HeldSorted(r: Run, m: set<nat>, id: nat)
    requires Good(r, m)
    ensures Sorted(StreamAt(r.s.streams, id).reassembly)
  {
    hide Buffered, Tracks, Received;
  }

  lemma StepOwesSack(r: Run, e: Event)
    ensures Step(r, e).s.sackNeeded
  {
    hide Forward, ForwardStreams, PrunedTotal, PruneAll, MarkReceived, AddChunk, Pop;
    match e
    case Data(chunk) =>
    case ForwardTsn(serial, skipped) =>
      StillNeedsSack(r.s.(tracker := Forward(r.s.tracker, serial % MOD32), sackNeeded := true), skipped);
  }

  /** After every DATA or FORWARD-TSN chunk, new or old, a SACK is due. */
  lemma {:induction false} SackIsOwed(r: Run, es: seq<Event>)
    requires es != []
    ensures Execute(r, es).s.sackNeeded
    decreases |es|
  {
    hide Step;
    if |es| == 1 {
      assert Execute(r, es) == Execute(Step(r, es[0]), []);
      StepOwesSack(r, es[0]);
    } else {
      SackIsOwed(Step(r, es[0]), es[1..]);
    }
  }

  /** In every run a FORWARD-TSN at or below the cumulative TSN only makes a SACK due, whatever streams it names. */
  lemma OldForwardChangesNothing(r0: Run, initial: nat, es: seq<Event>, serial: nat, skipped: seq<(nat, nat)>)
    requires Fresh(r0, initial) && Windowed(r0, es)
    requires var r := Execute(r0, es); r.cum - HALF32 < serial <= r.cum
    ensures var r := Execute(r0, es);
            && Step(r, ForwardTsn(serial, skipped)) == r.(s := r.s.(sackNeeded := true))
            && ReceiveForwardTsn(r.s, serial % MOD32, skipped).delivered == []
  {
    hide Execute, Windowed, Forward, ForwardStreams, PrunedTotal, PruneAll, Buffered, Received, StreamsOk;
    var r := Execute(r0, es);
    assert Good(r0, {}) by { FreshIsGood(r0, initial, 0); }
    var m := ExecuteKeepsGood(r0, {}, es);
    Gt32IsVirtualOrder(r.cum, serial);
    MovedIsDistance(r.s, r.s, r.cum, r.cum);
  }

  // A message that is thrown away

  /** One chunk of stream 0, with one byte. */
  function Piece(tsn: nat, ssn: nat, first: bool, last: bool): Chunk {
    Chunk(tsn, tsn, 0, ssn, 0, first, last, false, [7])
  }

  lemma MovesOnTo12()
    ensures Forward(Tracker(10, {12}, []), 11) == Tracker(12, {}, [])
  {
    var w := LaterSet({12}, 11);
    assert w == {12};
    var q := JsSort(w);
    assert 12 in q;
    assert q == [12] by {
      assert forall i :: 0 <= i < |q| ==> q[i] in q && q[i] == 12;
      assert |q| <= 1;
    }
    assert q[1..] == [] && Advance(12, []) == 12;
    assert Advance(11, q) == 12;
    assert LaterSet(w, 12) == {};
    assert LaterSeq([], 12) == [];
  }

  /** The first fragment of a message that is not complete, in front of a whole one: nothing is delivered. */
  lemma HeldBack(a: Chunk, b: Chunk, ssn: nat)
    requires a.first && !a.last && !a.unordered && !Gt16(a.ssn, ssn) && b.tsn != PlusOne(a.tsn)
    ensures Pop(Stream([a, b], ssn), FRESH) == Popped(Stream([a, b], ssn), [])
  {
    hide Pop;
    var list := [a, b];
    CallIs(Stream(list, ssn));
    DeliverBurst(list, ssn);
    assert RunLength(list, 1, PlusOne(a.tsn)) == 0;
    assert RunLength(list, 0, a.tsn) == 1;
    assert list[..1] == [a] && list[0..] == list;
    NothingEnds([a]);
    NumberAfterFirst([a], 2, ssn) by { assert FirstLast([a]) == 1 by { assert [a][1..] == [] && FirstLast([]) == 0; } }
  }

  /**
   A message that was received whole and acknowledged is thrown away: TSN 10 is the first of two fragments of message
   0, TSN 12 is the whole of message 1, and a FORWARD-TSN skips message 0. The cumulative TSN moves to 12; the old
   fragment in front keeps message 1 from being delivered, and both are pruned.
   */
  lemma WholeMessageIsThrownAway()
    ensures var held := Stream([Piece(10, 0, true, false), Piece(12, 1, true, true)], 0);
            var s := State(Tracker(10, {12}, []), map[0 := held], WINDOW - 2, false);
            var o := ReceiveForwardTsn(s, 11, [(0, 0)]);
            && On(o.delivered, 0) == [] && o.state.tracker.last == 12
            && StreamAt(o.state.streams, 0) == Stream([], 1)
  {
    hide ReceiveForwardTsn, Forward, Pop, On;
    var a, b := Piece(10, 0, true, false), Piece(12, 1, true, true);
    var list := [a, b];
    var held := Stream(list, 0);
    var s := State(Tracker(10, {12}, []), map[0 := held], WINDOW - 2, false);
    MovesOnTo12();
    HeldBack(a, b, 1);
    ForwardTsnIs(s, 11, [(0, 0)], 0);
    assert [(0, 0)][1..] == [] && Skips([], 0) == [] && Skips([(0, 0)], 0) == [0];
    SkipOne(held, 0);
    assert PruneCount([], 12) == 0 && list[1..] == [b] && [b][1..] == [];
    assert PruneCount([b], 12) == 1 + PruneCount([b][1..], 12);
    assert PruneCount(list, 12) == 1 + PruneCount(list[1..], 12);
  }
}
