/**
 The inbound half of class `SCTP` (packages/sctp/src/sctp.ts): DATA (643-670),
 FORWARD-TSN (787-828) and the receive window.

 `ReceiveData` and `ReceiveForwardTsn` say what the handlers compute on values; class
 `SctpInbound` is the object whose fields they change. The run theorem at the end covers
 every sequence of DATA and FORWARD-TSN chunks whose TSNs stay within a 2^31 window.
 */
module Inbound {
  import opened SerialNumbers
  import opened StringOrder
  import opened TsnTracking
  import opened Wrappers
  import opened Reassembly

  const WINDOW := 1024 * 1024

  datatype State = State(tracker: Tracker, streams: map<nat, Stream>, rwnd: int, sackNeeded: bool)

  datatype Outcome = Outcome(state: State, delivered: seq<Message>, threw: bool)

  function StreamAt(streams: map<nat, Stream>, id: nat): Stream {
    if id in streams then streams[id] else EMPTY_STREAM
  }

  function ReceiveData(s: State, chunk: Chunk): Outcome {
    var t := MarkReceived(s.tracker, chunk.tsn);
    if IsDuplicate(s.tracker, chunk.tsn) then
      Outcome(s.(tracker := t, sackNeeded := true), [], false)
    else
      var stream := StreamAt(s.streams, chunk.streamId);
      match AddChunk(stream.reassembly, chunk)
      case DuplicateChunk =>
        Outcome(State(t, s.streams[chunk.streamId := stream], s.rwnd, true), [], true)
      case Added(list) =>
        var p := Pop(stream.(reassembly := list), FRESH);
        Outcome(
          State(t, s.streams[chunk.streamId := p.stream],
                s.rwnd - |chunk.data| + MessageBytes(p.messages), true),
          p.messages, false)
  }

  /** One (stream, SSN) entry of a FORWARD-TSN: skip to the next SSN and deliver what that frees. */
  function ForwardStream(s: State, id: nat, ssn: nat): Outcome {
    var p := Pop(StreamAt(s.streams, id).(ssn := Add16(ssn, 1)), FRESH);
    Outcome(
      s.(streams := s.streams[id := p.stream], rwnd := s.rwnd + MessageBytes(p.messages)),
      p.messages, false)
  }

  function ForwardStreams(s: State, skipped: seq<(nat, nat)>): Outcome
    decreases |skipped|
  {
    if skipped == [] then Outcome(s, [], false)
    else
      var o := ForwardStream(s, skipped[0].0, skipped[0].1);
      var rest := ForwardStreams(o.state, skipped[1..]);
      Outcome(rest.state, o.delivered + rest.delivered, false)
  }

  function PruneAll(streams: map<nat, Stream>, tsn: nat): map<nat, Stream> {
    map id | id in streams :: Prune(streams[id], tsn)
  }

  ghost function Sum(m: map<nat, nat>): nat
    decreases |m|
  {
    if m == map[] then 0
    else
      var k :| k in m;
      m[k] + Sum(m - {k})
  }

  function Sizes(streams: map<nat, Stream>): map<nat, nat> {
    map id | id in streams :: Bytes(streams[id].reassembly)
  }

  function PrunedSizes(streams: map<nat, Stream>, tsn: nat): map<nat, nat> {
    map id | id in streams :: PrunedBytes(streams[id], tsn)
  }

  /** The bytes held in all reassembly buffers. */
  ghost function Buffered(streams: map<nat, Stream>): nat {
    Sum(Sizes(streams))
  }

  ghost function PrunedTotal(streams: map<nat, Stream>, tsn: nat): nat {
    Sum(PrunedSizes(streams, tsn))
  }

  ghost function ReceiveForwardTsn(s: State, cum: nat, skipped: seq<(nat, nat)>): Outcome {
    if Gte32(s.tracker.last, cum) then Outcome(s.(sackNeeded := true), [], false)
    else
      var t := Forward(s.tracker, cum);
      var o := ForwardStreams(s.(tracker := t, sackNeeded := true), skipped);
      Outcome(
        o.state.(streams := PruneAll(o.state.streams, t.last),
                 rwnd := o.state.rwnd + PrunedTotal(o.state.streams, t.last)),
        o.delivered, false)
  }

  // Sums over the streams

  lemma {:induction false} SumRemove(m: map<nat, nat>, k: nat)
    requires k in m
    ensures Sum(m) == m[k] + Sum(m - {k})
    decreases |m|
  {
    var j :| j in m && Sum(m) == m[j] + Sum(m - {j});
    if j != k {
      SumRemove(m - {j}, k);
      SumRemove(m - {k}, j);
      assert (m - {j}) - {k} == (m - {k}) - {j};
    }
  }

  lemma SumUpdate(m: map<nat, nat>, k: nat, v: nat)
    ensures Sum(m[k := v]) == Sum(m) - (if k in m then m[k] else 0) + v
  {
    var m' := m[k := v];
    SumRemove(m', k);
    if k in m {
      SumRemove(m, k);
      assert m' - {k} == m - {k};
    } else {
      assert m' - {k} == m;
    }
  }

  lemma {:induction false} SumAdd(a: map<nat, nat>, b: map<nat, nat>, c: map<nat, nat>)
    requires a.Keys == b.Keys == c.Keys
    requires forall k :: k in a ==> a[k] == b[k] + c[k]
    ensures Sum(a) == Sum(b) + Sum(c)
    decreases |a|
  {
    if a != map[] {
      var k :| k in a;
      SumRemove(a, k);
      SumRemove(b, k);
      SumRemove(c, k);
      SumAdd(a - {k}, b - {k}, c - {k});
    } else {
      assert b == map[] && c == map[];
    }
  }

  lemma BufferedUpdate(streams: map<nat, Stream>, id: nat, stream: Stream)
    ensures Buffered(streams[id := stream]) ==
            Buffered(streams) - Bytes(StreamAt(streams, id).reassembly) + Bytes(stream.reassembly)
  {
    assert Sizes(streams[id := stream]) == Sizes(streams)[id := Bytes(stream.reassembly)];
    SumUpdate(Sizes(streams), id, Bytes(stream.reassembly));
  }

  /** Pruning every stream frees exactly the bytes it reports. */
  lemma PruneAllConserves(streams: map<nat, Stream>, tsn: nat)
    ensures Buffered(streams) == Buffered(PruneAll(streams, tsn)) + PrunedTotal(streams, tsn)
  {
    var pruned := PruneAll(streams, tsn);
    var a, b, c := Sizes(streams), Sizes(pruned), PrunedSizes(streams, tsn);
    forall id | id in a ensures a[id] == b[id] + c[id] {
      PruneConservesBytes(streams[id], tsn);
    }
    SumAdd(a, b, c);
  }

  lemma ForwardStreamConserves(s: State, id: nat, ssn: nat)
    ensures var o := ForwardStream(s, id, ssn); o.state.rwnd + Buffered(o.state.streams) == s.rwnd + Buffered(s.streams)
  {
    var stream := StreamAt(s.streams, id).(ssn := Add16(ssn, 1));
    PopConservesBytes(stream, FRESH);
    BufferedUpdate(s.streams, id, Pop(stream, FRESH).stream);
  }

  lemma {:induction false} ForwardStreamsConserve(s: State, skipped: seq<(nat, nat)>)
    ensures var o := ForwardStreams(s, skipped); o.state.rwnd + Buffered(o.state.streams) == s.rwnd + Buffered(s.streams)
    decreases |skipped|
  {
    if skipped != [] {
      ForwardStreamConserves(s, skipped[0].0, skipped[0].1);
      ForwardStreamsConserve(ForwardStream(s, skipped[0].0, skipped[0].1).state, skipped[1..]);
    }
  }

  /** A FORWARD-TSN conserves the window whatever it says. */
  lemma ForwardTsnConserves(s: State, cum: nat, skipped: seq<(nat, nat)>)
    ensures var o := ReceiveForwardTsn(s, cum, skipped);
            o.state.rwnd + Buffered(o.state.streams) == s.rwnd + Buffered(s.streams)
  {
    if !Gte32(s.tracker.last, cum) {
      var t := Forward(s.tracker, cum);
      var s1 := s.(tracker := t, sackNeeded := true);
      ForwardStreamsConserve(s1, skipped);
      PruneAllConserves(ForwardStreams(s1, skipped).state.streams, t.last);
    }
  }

  /** A DATA chunk conserves the window if it is really inserted. */
  lemma DataConserves(s: State, chunk: Chunk, i: nat)
    requires !IsDuplicate(s.tracker, chunk.tsn)
    requires var list := StreamAt(s.streams, chunk.streamId).reassembly;
             i <= |list| && AddChunk(list, chunk) == Added(list[..i] + [chunk] + list[i..])
    ensures var o := ReceiveData(s, chunk);
            o.state.rwnd + Buffered(o.state.streams) == s.rwnd + Buffered(s.streams)
  {
    hide Pop, AddChunk, Bytes, MessageBytes, IsDuplicate, Buffered;
    var stream := StreamAt(s.streams, chunk.streamId);
    var list := stream.reassembly;
    var list' := list[..i] + [chunk] + list[i..];
    BytesConcat(list[..i] + [chunk], list[i..]);
    BytesAppend(list[..i], chunk);
    BytesConcat(list[..i], list[i..]);
    assert list[..i] + list[i..] == list;
    PopConservesBytes(stream.(reassembly := list'), FRESH);
    BufferedUpdate(s.streams, chunk.streamId, Pop(stream.(reassembly := list'), FRESH).stream);
  }

  // Sorted reassembly lists

  function Serials(list: seq<Chunk>): (us: seq<nat>)
    ensures |us| == |list|
    ensures forall i :: 0 <= i < |us| ==> us[i] == list[i].serial
  {
    seq(|list|, i requires 0 <= i < |list| => list[i].serial)
  }

  ghost predicate Sorted(list: seq<Chunk>) {
    SortedAs(list, Serials(list))
  }

  lemma SortedWithout(list: seq<Chunk>, i: nat, j: nat)
    requires Sorted(list) && i <= j <= |list|
    ensures Sorted(list[..i] + list[j..])
    ensures forall x :: x in list[..i] + list[j..] ==> x in list
  {
    var r := list[..i] + list[j..];
    var us, us' := Serials(list), Serials(r);
    forall a | 0 <= a < |r| ensures r[a] == list[if a < i then a else a + (j - i)] {
    }
    forall a, b | 0 <= a < b < |us'| ensures us'[a] < us'[b] {
      var a', b' := if a < i then a else a + (j - i), if b < i then b else b + (j - i);
      assert us'[a] == us[a'] && us'[b] == us[b'] && a' < b';
    }
    forall a | 0 <= a < |us'| ensures r[a].tsn == us'[a] % MOD32 {
      var a' := if a < i then a else a + (j - i);
      assert list[a'].tsn == us[a'] % MOD32;
    }
  }

  /** Delivery leaves the list sorted and adds nothing to it. */
  lemma {:induction false} PopKeepsSorted(s: Stream, k: Cursor)
    requires CursorOk(s, k) && Sorted(s.reassembly)
    ensures Sorted(Pop(s, k).stream.reassembly)
    ensures forall x :: x in Pop(s, k).stream.reassembly ==> x in s.reassembly
    decreases |s.reassembly| - k.pos
  {
    if k.pos < |s.reassembly| {
      match PopTurn(s, k)
      case Stop =>
      case Skip(k') => PopKeepsSorted(s, k');
      case Yield(s', m, k') =>
        SortedWithout(s.reassembly, if k.start.None? then k.pos else k.start.value, k.pos + 1);
        PopKeepsSorted(s', k');
    }
  }

  lemma PruneKeepsSorted(s: Stream, tsn: nat)
    requires Sorted(s.reassembly)
    ensures Sorted(Prune(s, tsn).reassembly)
    ensures forall x :: x in Prune(s, tsn).reassembly ==> x in s.reassembly
  {
    var n := PruneCount(s.reassembly, tsn);
    SortedWithout(s.reassembly, 0, n);
    assert s.reassembly[..0] + s.reassembly[n..] == s.reassembly[n..];
  }

  // Runs

  /**
   A run: the state of the inbound half, the virtual value `cum` of its cumulative TSN,
   and its history: the serials of the chunks that entered reassembly and the highest
   cumulative TSN of an accepted FORWARD-TSN.
   */
  datatype Run = Run(s: State, cum: nat, got: set<nat>, forwarded: nat, threw: bool)

  datatype Event =
    | Data(chunk: Chunk)
    | ForwardTsn(serial: nat, skipped: seq<(nat, nat)>)

  /** How far the cumulative TSN moved. */
  function Moved(a: State, b: State): nat {
    (b.tracker.last - a.tracker.last) % MOD32
  }

  ghost function Step(r: Run, e: Event): Run {
    match e
    case Data(chunk) =>
      var o := ReceiveData(r.s, chunk);
      Run(o.state, r.cum + Moved(r.s, o.state),
          if IsDuplicate(r.s.tracker, chunk.tsn) then r.got else r.got + {chunk.serial},
          r.forwarded, r.threw || o.threw)
    case ForwardTsn(serial, skipped) =>
      var o := ReceiveForwardTsn(r.s, serial % MOD32, skipped);
      Run(o.state, r.cum + Moved(r.s, o.state), r.got,
          if Gte32(r.s.tracker.last, serial % MOD32) then r.forwarded else serial,
          r.threw || o.threw)
  }

  /** The TSN of the event is within 2^31 of the cumulative TSN and of what it is compared with. */
  ghost predicate InWindow(r: Run, e: Event) {
    match e
    case Data(chunk) =>
      && chunk.tsn == chunk.serial % MOD32
      && -HALF32 < chunk.serial - r.cum < HALF32
      && Near(Serials(StreamAt(r.s.streams, chunk.streamId).reassembly), chunk.serial)
    case ForwardTsn(serial, _) =>
      -HALF32 < serial - r.cum < HALF32
  }

  ghost function Execute(r: Run, es: seq<Event>): Run
    decreases |es|
  {
    if es == [] then r else Execute(Step(r, es[0]), es[1..])
  }

  ghost predicate Windowed(r: Run, es: seq<Event>)
    decreases |es|
  {
    es == [] || (InWindow(r, es[0]) && Windowed(Step(r, es[0]), es[1..]))
  }

  /** A fresh association whose peer starts at TSN `initial`. */
  predicate Fresh(r: Run, initial: nat) {
    && 1 <= initial < MOD32
    && r == Run(State(Tracker(initial - 1, {}, []), map[], WINDOW, false), initial - 1, {}, initial - 1, false)
  }

  ghost predicate StreamsOk(streams: map<nat, Stream>, c: nat, m: set<nat>) {
    forall id :: id in streams ==> StreamOk(streams[id].reassembly, c, m)
  }

  ghost predicate StreamOk(list: seq<Chunk>, c: nat, m: set<nat>) {
    Sorted(list) && forall x :: x in list ==> Received(c, m, x.serial)
  }

  /**
   The received TSNs are exactly the chunks that entered reassembly plus everything up to
   the last accepted FORWARD-TSN; lists are sorted; nothing was thrown; the advertised
   window and the buffered bytes add up to 1 MiB.
   */
  ghost predicate Good(r: Run, m: set<nat>) {
    && Tracks(r.s.tracker, r.cum, m) && r.forwarded <= r.cum
    && (forall v: nat :: Received(r.cum, m, v) <==> v <= r.forwarded || v in r.got)
    && StreamsOk(r.s.streams, r.cum, m)
    && !r.threw
    && r.s.rwnd + Buffered(r.s.streams) == WINDOW
  }

  lemma MovedIsDistance(a: State, b: State, c: nat, c': nat)
    requires a.tracker.last == c % MOD32 && b.tracker.last == c' % MOD32 && c <= c' < c + MOD32
    ensures Moved(a, b) == c' - c
  {
  }

  lemma StreamOkGrows(list: seq<Chunk>, c: nat, m: set<nat>, list': seq<Chunk>, c': nat, m': set<nat>)
    requires StreamOk(list, c, m) && Sorted(list') && forall x :: x in list' ==> x in list
    requires forall v: nat :: Received(c, m, v) ==> Received(c', m', v)
    ensures StreamOk(list', c', m')
  {
  }

  /** A new DATA chunk is inserted: its TSN cannot already be in the list. */
  lemma NewChunkInserts(list: seq<Chunk>, chunk: Chunk, c: nat, m: set<nat>) returns (i: nat)
    requires StreamOk(list, c, m) && !Received(c, m, chunk.serial)
    requires chunk.tsn == chunk.serial % MOD32 && Near(Serials(list), chunk.serial)
    ensures i <= |list| && AddChunk(list, chunk) == Added(list[..i] + [chunk] + list[i..])
    ensures Sorted(list[..i] + [chunk] + list[i..])
  {
    var us := Serials(list);
    assert chunk.serial !in us by {
      if j :| 0 <= j < |us| && us[j] == chunk.serial {
        assert list[j] in list;
      }
    }
    i := AddChunkInserts(list, us, chunk, chunk.serial);
    assert Serials(list[..i] + [chunk] + list[i..]) == us[..i] + [chunk.serial] + us[i..];
  }

  lemma UpdateKeepsOk(
    streams: map<nat, Stream>, c: nat, m: set<nat>, id: nat, stream: Stream, c': nat, m': set<nat>)
    requires StreamsOk(streams, c, m) && StreamOk(stream.reassembly, c', m')
    requires forall v: nat :: Received(c, m, v) ==> Received(c', m', v)
    ensures StreamsOk(streams[id := stream], c', m')
  {
    forall i | i in streams && i != id ensures StreamOk(streams[i].reassembly, c', m') {
      StreamOkGrows(streams[i].reassembly, c, m, streams[i].reassembly, c', m');
    }
  }

  /** The stream that receives a new chunk: the chunk is inserted, the window is conserved, the list stays sorted. */
  lemma NewDataKeepsOk(r: Run, m: set<nat>, chunk: Chunk, c': nat, m': set<nat>)
    requires Good(r, m) && InWindow(r, Data(chunk)) && !IsDuplicate(r.s.tracker, chunk.tsn)
    requires !Received(r.cum, m, chunk.serial)
    requires forall v: nat :: Received(c', m', v) <==> Received(r.cum, m, v) || v == chunk.serial
    ensures var o := ReceiveData(r.s, chunk);
            && !o.threw && StreamsOk(o.state.streams, c', m')
            && o.state.rwnd + Buffered(o.state.streams) == WINDOW
  {
    hide MarkReceived, IsDuplicate, AddChunk, Pop, Buffered, Sorted, Received, Tracks;
    var stream := StreamAt(r.s.streams, chunk.streamId);
    EmptyIsOk(r.cum, m);
    assert StreamOk(stream.reassembly, r.cum, m);
    var i := NewChunkInserts(stream.reassembly, chunk, r.cum, m);
    DataConserves(r.s, chunk, i);
    var list := stream.reassembly[..i] + [chunk] + stream.reassembly[i..];
    PopKeepsSorted(stream.(reassembly := list), FRESH);
    var stream' := Pop(stream.(reassembly := list), FRESH).stream;
    assert StreamOk(stream'.reassembly, c', m');
    UpdateKeepsOk(r.s.streams, r.cum, m, chunk.streamId, stream', c', m');
  }

  lemma EmptyIsOk(c: nat, m: set<nat>)
    ensures StreamOk([], c, m)
  {
  }

  lemma DataKeepsGood(r: Run, m: set<nat>, chunk: Chunk) returns (m': set<nat>)
    requires Good(r, m) && InWindow(r, Data(chunk))
    ensures Good(Step(r, Data(chunk)), m')
    ensures IsDuplicate(r.s.tracker, chunk.tsn) <==> chunk.serial <= r.forwarded || chunk.serial in r.got
    ensures var r' := Step(r, Data(chunk));
            && r.cum <= r'.cum < r.cum + HALF32 && Tracks(MarkReceived(r.s.tracker, chunk.tsn), r'.cum, m')
            && forall v: nat :: Received(r'.cum, m', v) <==> Received(r.cum, m, v) || v == chunk.serial
  {
    hide IsDuplicate, MarkReceivedBy, JsSort, AddChunk, Pop, Buffered, StreamOk;
    var t, u := r.s.tracker, chunk.serial;
    var c';
    c', m' := MarkReceivedIsExact(t, r.cum, m, u, JsSort(t.misordered + {u % MOD32}));
    var o := ReceiveData(r.s, chunk);
    if !IsDuplicate(t, chunk.tsn) {
      NewDataKeepsOk(r, m, chunk, c', m');
    }
    MovedIsDistance(r.s, o.state, r.cum, c');
  }

  lemma {:induction false} ForwardStreamsKeepOk(s: State, skipped: seq<(nat, nat)>, c: nat, m: set<nat>)
    requires StreamsOk(s.streams, c, m)
    ensures StreamsOk(ForwardStreams(s, skipped).state.streams, c, m)
    ensures ForwardStreams(s, skipped).state.tracker == s.tracker
    decreases |skipped|
  {
    if skipped != [] {
      var id := skipped[0].0;
      var stream := StreamAt(s.streams, id);
      assert StreamOk(stream.reassembly, c, m);
      PopKeepsSorted(stream.(ssn := Add16(skipped[0].1, 1)), FRESH);
      ForwardStreamsKeepOk(ForwardStream(s, id, skipped[0].1).state, skipped[1..], c, m);
    }
  }

  lemma ForwardKeepsOk(r: Run, m: set<nat>, serial: nat, skipped: seq<(nat, nat)>, c': nat, m': set<nat>)
    requires StreamsOk(r.s.streams, r.cum, m)
    requires !Gte32(r.s.tracker.last, serial % MOD32)
    requires forall v: nat :: Received(r.cum, m, v) ==> Received(c', m', v)
    ensures StreamsOk(ReceiveForwardTsn(r.s, serial % MOD32, skipped).state.streams, c', m')
    ensures ReceiveForwardTsn(r.s, serial % MOD32, skipped).state.tracker == Forward(r.s.tracker, serial % MOD32)
  {
    hide Forward, Pop, Buffered, PrunedTotal, Sorted, Received, Prune;
    var o := ReceiveForwardTsn(r.s, serial % MOD32, skipped);
    var t' := Forward(r.s.tracker, serial % MOD32);
    var s1 := r.s.(tracker := t', sackNeeded := true);
    ForwardStreamsKeepOk(s1, skipped, r.cum, m);
    var streams := ForwardStreams(s1, skipped).state.streams;
    forall id | id in o.state.streams ensures StreamOk(o.state.streams[id].reassembly, c', m') {
      PruneKeepsSorted(streams[id], t'.last);
      StreamOkGrows(streams[id].reassembly, r.cum, m, o.state.streams[id].reassembly, c', m');
    }
  }

  lemma ForwardKeepsGood(r: Run, m: set<nat>, serial: nat, skipped: seq<(nat, nat)>) returns (m': set<nat>)
    requires Good(r, m) && InWindow(r, ForwardTsn(serial, skipped))
    ensures Good(Step(r, ForwardTsn(serial, skipped)), m')
    ensures var r' := Step(r, ForwardTsn(serial, skipped));
            && r.cum <= r'.cum < r.cum + HALF32 && serial <= r'.cum && Tracks(Forward(r.s.tracker, serial % MOD32), r'.cum, m')
            && forall v: nat :: Received(r'.cum, m', v) <==> Received(r.cum, m, v) || v <= serial
  {
    hide ForwardBy, JsSort, Pop, Buffered, PrunedTotal, StreamOk, ForwardStreams, PruneAll;
    var t := r.s.tracker;
    var c';
    c', m' := ForwardIsExact(t, r.cum, m, serial, JsSort(LaterSet(t.misordered, serial % MOD32)));
    var o := ReceiveForwardTsn(r.s, serial % MOD32, skipped);
    ForwardTsnConserves(r.s, serial % MOD32, skipped);
    if serial > r.cum {
      ForwardKeepsOk(r, m, serial, skipped, c', m');
    } else {
      ForwardIgnored(t, serial % MOD32);
      Unchanged(r, m, c', m');
    }
    MovedIsDistance(r.s, o.state, r.cum, c');
  }

  lemma ForwardIgnored(t: Tracker, cum: nat)
    requires Gte32(t.last, cum)
    ensures Forward(t, cum) == t
  {
  }

  lemma Unchanged(r: Run, m: set<nat>, c': nat, m': set<nat>)
    requires StreamsOk(r.s.streams, r.cum, m)
    requires forall v: nat :: Received(r.cum, m, v) ==> Received(c', m', v)
    ensures StreamsOk(r.s.streams, c', m')
  {
    forall id | id in r.s.streams ensures StreamOk(r.s.streams[id].reassembly, c', m') {
      StreamOkGrows(r.s.streams[id].reassembly, r.cum, m, r.s.streams[id].reassembly, c', m');
    }
  }

  lemma {:induction false} ExecuteKeepsGood(r: Run, m: set<nat>, es: seq<Event>) returns (m': set<nat>)
    requires Good(r, m) && Windowed(r, es)
    ensures Good(Execute(r, es), m')
    decreases |es|
  {
    if es == [] {
      m' := m;
    } else {
      var m1;
      match es[0] {
        case Data(chunk) => m1 := DataKeepsGood(r, m, chunk);
        case ForwardTsn(serial, skipped) => m1 := ForwardKeepsGood(r, m, serial, skipped);
      }
      m' := ExecuteKeepsGood(Step(r, es[0]), m1, es[1..]);
    }
  }

  /**
   After any sequence of DATA and FORWARD-TSN chunks: the advertised window plus the bytes
   buffered in all streams is 1 MiB, the duplicate-chunk exception was never reached, every
   list is strictly TSN-sorted and the TSN bookkeeping is exact.
   */
  lemma ReceiveWindowIsConserved(r: Run, initial: nat, es: seq<Event>)
    requires Fresh(r, initial) && Windowed(r, es)
    ensures var r' := Execute(r, es);
            && r'.s.rwnd + Buffered(r'.s.streams) == WINDOW
            && !r'.threw
            && (forall id :: id in r'.s.streams ==> Sorted(r'.s.streams[id].reassembly))
            && exists m :: Good(r', m)
  {
    assert Good(r, {});
    var m := ExecuteKeepsGood(r, {}, es);
  }

  // The cumulative TSN over runs

  /** DATA chunks have TSNs of `digits` digits; no TSN has wrapped. */
  ghost predicate PlainEvent(e: Event, digits: nat) {
    match e
    case Data(chunk) => chunk.serial < MOD32 && |Decimal(chunk.serial)| == digits
    case ForwardTsn(serial, _) => serial < MOD32
  }

  /** Everything received is of `digits` digits, and the TSN after the cumulative one is missing. */
  ghost predicate NextIsMissing(r: Run, m: set<nat>, digits: nat) {
    Good(r, m) && Uniform(r.got, digits) && r.cum + 1 !in m
  }

  lemma HeldIsUniform(r: Run, m: set<nat>, digits: nat)
    requires Good(r, m) && Uniform(r.got, digits)
    ensures Uniform(m, digits)
  {
    hide Decimal, Buffered, StreamsOk;
    forall v | v in m
      ensures v in r.got
    {
      assert Received(r.cum, m, v);
    }
  }

  lemma StepKeepsNextMissing(r: Run, m: set<nat>, e: Event, digits: nat) returns (m': set<nat>)
    requires NextIsMissing(r, m, digits) && InWindow(r, e) && PlainEvent(e, digits)
    ensures NextIsMissing(Step(r, e), m', digits)
  {
    hide Good, Step, MarkReceived, Forward, Decimal;
    HeldIsUniform(r, m, digits);
    GoodTracks(r, m);
    match e {
      case Data(chunk) =>
        m' := DataKeepsGood(r, m, chunk);
        MarkReceivedIsMaximal(r.s.tracker, r.cum, m, chunk.serial, Step(r, e).cum, m', digits);
      case ForwardTsn(serial, skipped) =>
        m' := ForwardKeepsGood(r, m, serial, skipped);
        ForwardIsMaximal(r.s.tracker, r.cum, m, serial, Step(r, e).cum, m', digits);
    }
    GotGrows(r, e);
  }

  lemma GoodTracks(r: Run, m: set<nat>)
    requires Good(r, m)
    ensures Tracks(r.s.tracker, r.cum, m)
  {
  }

  lemma GotGrows(r: Run, e: Event)
    ensures Step(r, e).got <= r.got + if e.Data? then {e.chunk.serial} else {}
  {
  }

  lemma {:induction false} RunKeepsNextMissing(r: Run, m: set<nat>, es: seq<Event>, digits: nat) returns (m': set<nat>)
    requires NextIsMissing(r, m, digits) && Windowed(r, es)
    requires forall i :: 0 <= i < |es| ==> PlainEvent(es[i], digits)
    ensures NextIsMissing(Execute(r, es), m', digits)
    decreases |es|
  {
    hide NextIsMissing, Step, PlainEvent;
    if es == [] {
      m' := m;
    } else {
      m' := StepKeepsNextMissing(r, m, es[0], digits);
      m' := RunKeepsNextMissing(Step(r, es[0]), m', es[1..], digits);
    }
  }

  /**
   In every run whose DATA chunks have TSNs of equally many digits that do not wrap, the TSN after
   the cumulative one is never among those received out of order: the string order does no harm.
   */
  lemma NextTsnIsMissing(r: Run, initial: nat, es: seq<Event>, digits: nat)
    requires Fresh(r, initial) && Windowed(r, es)
    requires forall i :: 0 <= i < |es| ==> PlainEvent(es[i], digits)
    ensures var r' := Execute(r, es); (r'.cum + 1) % MOD32 !in r'.s.tracker.misordered
  {
    hide Execute, PlainEvent, Windowed;
    assert NextIsMissing(r, {}, digits) by { FreshIsGood(r, initial, digits); }
    var m := RunKeepsNextMissing(r, {}, es, digits);
    GoodTracks(Execute(r, es), m);
    MissingOnTheWire(Execute(r, es), m);
  }

  lemma FreshIsGood(r: Run, initial: nat, digits: nat)
    requires Fresh(r, initial)
    ensures NextIsMissing(r, {}, digits)
  {
  }

  lemma MissingOnTheWire(r: Run, m: set<nat>)
    requires Tracks(r.s.tracker, r.cum, m) && r.cum + 1 !in m
    ensures (r.cum + 1) % MOD32 !in r.s.tracker.misordered
  {
    if (r.cum + 1) % MOD32 in r.s.tracker.misordered {
      var v :| v in m && v % MOD32 == (r.cum + 1) % MOD32;
      Gt32IsVirtualOrder(v, r.cum + 1);
    }
  }
}
