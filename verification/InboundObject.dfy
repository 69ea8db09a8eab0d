/**
 The inbound half as the object it is: `markReceived`, `receiveDataChunk`,
 `receiveForwardTsnChunk` and `sendSack` of packages/sctp/src/sctp.ts change the fields in
 place, and compute what the functions of `TsnTracking`, `Inbound` and `Association` say.
 */
module InboundObject {
  import opened SerialNumbers
  import opened StringOrder
  import opened TsnTracking
  import opened Wrappers
  import opened Reassembly
  import opened Inbound
  import opened Sacks
  import Association

  class SctpInbound {
    var lastReceivedTsn: nat
    var sackMisOrdered: set<nat>
    var sackDuplicates: seq<nat>
    var sackNeeded: bool
    var advertisedRwnd: int
    var inboundStreams: map<nat, InboundStream>
    /** The stream objects. */
    ghost var objects: set<InboundStream>

    /** Different streams are different objects. */
    ghost predicate Valid()
      reads this`inboundStreams, this`objects
    {
      && (forall id :: id in inboundStreams ==> inboundStreams[id] in objects)
      && (forall a, b :: a in inboundStreams && b in inboundStreams && a != b ==> inboundStreams[a] != inboundStreams[b])
    }

    ghost function Tracking(): Tracker
      reads this
    {
      Tracker(lastReceivedTsn, sackMisOrdered, sackDuplicates)
    }

    ghost function Streams(): map<nat, Stream>
      requires Valid()
      reads this`inboundStreams, this`objects, objects
    {
      map id | id in inboundStreams :: inboundStreams[id].State()
    }

    ghost function State(): Inbound.State
      requires Valid()
      reads this, objects
    {
      Inbound.State(Tracking(), Streams(), advertisedRwnd, sackNeeded)
    }

    /** If one stream object changed and no other, the map of stream states changed at that stream. */
    twostate lemma OnlyStreamChanged(id: nat)
      requires old(Valid()) && Valid() && id in inboundStreams
      requires inboundStreams == old(inboundStreams) && objects == old(objects)
      requires forall o :: o in objects && o != inboundStreams[id] ==> unchanged(o)
      ensures Streams() == old(Streams())[id := inboundStreams[id].State()]
    {
    }

    constructor (initialTsn: nat)
      requires 1 <= initialTsn < MOD32
      ensures Valid() && Fresh(Run(State(), initialTsn - 1, {}, initialTsn - 1, false), initialTsn)
    {
      lastReceivedTsn := initialTsn - 1;
      sackMisOrdered := {};
      sackDuplicates := [];
      sackNeeded := false;
      advertisedRwnd := WINDOW;
      inboundStreams := map[];
      objects := {};
    }

    /** Moves the cumulative TSN over the sorted out-of-order TSNs and drops what it passed. */
    method AdvanceCumulativeTsn()
      modifies this`lastReceivedTsn, this`sackMisOrdered, this`sackDuplicates
      ensures lastReceivedTsn == Advance(old(lastReceivedTsn), JsSort(old(sackMisOrdered)))
      ensures sackMisOrdered == LaterSet(old(sackMisOrdered), lastReceivedTsn)
      ensures sackDuplicates == LaterSeq(old(sackDuplicates), lastReceivedTsn)
    {
      var order := JsSort(sackMisOrdered);
      var i := 0;
      assert order[0..] == order;
      while i < |order| && order[i] == PlusOne(lastReceivedTsn)
        invariant i <= |order|
        invariant Advance(old(lastReceivedTsn), order) == Advance(lastReceivedTsn, order[i..])
        invariant sackMisOrdered == old(sackMisOrdered) && sackDuplicates == old(sackDuplicates)
      {
        assert order[i..][1..] == order[i + 1..];
        lastReceivedTsn := order[i];
        i := i + 1;
      }
      sackDuplicates := LaterSeq(sackDuplicates, lastReceivedTsn);
      sackMisOrdered := set x | x in sackMisOrdered && Gt32(x, lastReceivedTsn);
    }

    method MarkReceivedTsn(tsn: nat) returns (duplicate: bool)
      modifies this`lastReceivedTsn, this`sackMisOrdered, this`sackDuplicates
      ensures duplicate <==> IsDuplicate(old(Tracking()), tsn)
      ensures Tracking() == MarkReceived(old(Tracking()), tsn)
    {
      if Gte32(lastReceivedTsn, tsn) || tsn in sackMisOrdered {
        sackDuplicates := sackDuplicates + [tsn];
        return true;
      }
      sackMisOrdered := sackMisOrdered + {tsn};
      AdvanceCumulativeTsn();
      return false;
    }

    method GetInboundStream(streamId: nat) returns (stream: InboundStream)
      requires Valid()
      modifies this`inboundStreams, this`objects
      ensures Valid() && streamId in inboundStreams && inboundStreams[streamId] == stream
      ensures stream.State() == StreamAt(old(Streams()), streamId)
      ensures Streams() == old(Streams())[streamId := stream.State()]
      ensures objects == old(objects) + {stream} && fresh(objects - old(objects))
    {
      if streamId !in inboundStreams {
        var created := new InboundStream();
        inboundStreams := inboundStreams[streamId := created];
        objects := objects + {created};
      }
      stream := inboundStreams[streamId];
    }

    /** The body of the delivery loops: each message handed over gives its bytes back to the window. */
    method Credit(messages: seq<Message>)
      modifies this`advertisedRwnd
      ensures advertisedRwnd == old(advertisedRwnd) + MessageBytes(messages)
    {
      var i := 0;
      assert messages[0..] == messages;
      while i < |messages|
        invariant i <= |messages|
        invariant advertisedRwnd + MessageBytes(messages[i..]) == old(advertisedRwnd) + MessageBytes(messages)
      {
        assert messages[i..][1..] == messages[i + 1..];
        advertisedRwnd := advertisedRwnd + |messages[i].data|;
        i := i + 1;
      }
    }

    /** The window after a chunk came in and `delivered` went out. */
    method Spend(data: seq<byte>, delivered: seq<Message>)
      modifies this`advertisedRwnd
      ensures advertisedRwnd == old(advertisedRwnd) - |data| + MessageBytes(delivered)
    {
      hide MessageBytes;
      advertisedRwnd := advertisedRwnd - |data|;
      Credit(delivered);
    }

    /** The part of `receiveDataChunk` that follows a new TSN; `ok` is false where the source throws. */
    method Reassemble(chunk: Chunk) returns (delivered: seq<Message>, ok: bool)
      requires Valid()
      modifies this`inboundStreams, this`advertisedRwnd, this`objects, objects
      ensures Valid() && fresh(objects - old(objects))
      ensures var stream := StreamAt(old(Streams()), chunk.streamId);
              match AddChunk(stream.reassembly, chunk)
              case DuplicateChunk =>
                !ok && delivered == [] && advertisedRwnd == old(advertisedRwnd) &&
                Streams() == old(Streams())[chunk.streamId := stream]
              case Added(list) =>
                var p := Pop(stream.(reassembly := list), FRESH);
                ok && delivered == p.messages &&
                advertisedRwnd == old(advertisedRwnd) - |chunk.data| + MessageBytes(delivered) &&
                Streams() == old(Streams())[chunk.streamId := p.stream]
    {
      hide Pop, AddChunk, MessageBytes;
      var stream := GetInboundStream(chunk.streamId);
      label Got:
      delivered, ok := stream.TakeIn(chunk);
      OnlyStreamChanged@Got(chunk.streamId);
      UpdateTwice(old(Streams()), chunk.streamId, old@Got(stream.State()), stream.State());
      if ok {
        Spend(chunk.data, delivered);
      }
    }

    method ReceiveDataChunk(chunk: Chunk) returns (delivered: seq<Message>, ok: bool)
      requires Valid()
      modifies this, objects
      ensures Valid() && fresh(objects - old(objects))
      ensures Outcome(State(), delivered, !ok) == ReceiveData(old(State()), chunk)
    {
      hide Pop, AddChunk, MarkReceived, IsDuplicate, MessageBytes;
      sackNeeded := true;
      var duplicate := MarkReceivedTsn(chunk.tsn);
      assert Streams() == old(Streams());
      if duplicate {
        return [], true;
      }
      delivered, ok := Reassemble(chunk);
    }

    /** The loop over the (stream, SSN) pairs of a FORWARD-TSN. */
    method SkipStreams(skipped: seq<(nat, nat)>) returns (delivered: seq<Message>)
      requires Valid()
      modifies this`inboundStreams, this`advertisedRwnd, this`objects, objects
      ensures Valid() && fresh(objects - old(objects))
      ensures Outcome(State(), delivered, false) == ForwardStreams(old(State()), skipped)
    {
      hide Pop, MessageBytes, ForwardStreams, ToSkip;
      delivered := [];
      var i := 0;
      ghost var goal := ForwardStreams(State(), skipped);
      SkipBegins(State(), skipped);
      while i < |skipped|
        invariant i <= |skipped| && Valid() && fresh(objects - old(objects))
        invariant unchanged(this`lastReceivedTsn, this`sackMisOrdered, this`sackDuplicates, this`sackNeeded)
        invariant ToSkip(goal, delivered, State(), skipped, i)
      {
        SkipTurn(goal, delivered, State(), skipped, i);
        var messages := SkipStream(skipped[i].0, skipped[i].1);
        delivered := delivered + messages;
        i := i + 1;
      }
      SkipEnds(goal, delivered, State(), skipped);
    }

    method SkipStream(streamId: nat, streamSeqNum: nat) returns (messages: seq<Message>)
      requires Valid()
      modifies this`inboundStreams, this`advertisedRwnd, this`objects, objects
      ensures Valid() && fresh(objects - old(objects))
      ensures var p := Pop(StreamAt(old(Streams()), streamId).(ssn := Add16(streamSeqNum, 1)), FRESH);
              messages == p.messages && Streams() == old(Streams())[streamId := p.stream] &&
              advertisedRwnd == old(advertisedRwnd) + MessageBytes(messages)
    {
      hide Pop, MessageBytes, Add16;
      var stream := GetInboundStream(streamId);
      label Got:
      messages := stream.SkipTo(Add16(streamSeqNum, 1));
      OnlyStreamChanged@Got(streamId);
      UpdateTwice(old(Streams()), streamId, old@Got(stream.State()), stream.State());
      Credit(messages);
    }

    method PruneStream(id: nat)
      requires Valid() && id in inboundStreams
      modifies this`advertisedRwnd, objects
      ensures Streams() == old(Streams())[id := Prune(old(Streams())[id], lastReceivedTsn)]
      ensures advertisedRwnd == old(advertisedRwnd) + PrunedBytes(old(Streams())[id], lastReceivedTsn)
    {
      hide PrunedBytes, Prune;
      var size := inboundStreams[id].PruneChunks(lastReceivedTsn);
      OnlyStreamChanged(id);
      advertisedRwnd := advertisedRwnd + size;
    }

    /** Prunes every stream, in whatever order the streams come, and credits the bytes freed. */
    method PruneStreams()
      requires Valid()
      modifies this`advertisedRwnd, objects
      ensures Streams() == PruneAll(old(Streams()), lastReceivedTsn)
      ensures advertisedRwnd == old(advertisedRwnd) + PrunedTotal(old(Streams()), lastReceivedTsn)
    {
      hide PrunedBytes, Prune, Sum, Partly, PrunedSizes, Only;
      var ids := inboundStreams.Keys;
      ghost var streams := Streams();
      ghost var sizes := PrunedSizes(streams, lastReceivedTsn);
      assert ids == streams.Keys;
      NothingPruned(streams, lastReceivedTsn);
      while ids != {}
        invariant ids <= inboundStreams.Keys
        invariant Streams() == Partly(streams, ids, lastReceivedTsn)
        invariant advertisedRwnd + Sum(Only(sizes, ids)) == old(advertisedRwnd) + Sum(sizes)
        decreases |ids|
      {
        var id :| id in ids;
        OneMorePruned(streams, ids, id, lastReceivedTsn);
        PruneStream(id);
        ids := ids - {id};
      }
      AllPruned(streams, lastReceivedTsn);
    }

    method ReceiveForwardTsnChunk(cumulativeTsn: nat, skipped: seq<(nat, nat)>) returns (delivered: seq<Message>)
      requires Valid()
      modifies this, objects
      ensures Valid() && fresh(objects - old(objects))
      ensures Outcome(State(), delivered, false) == ReceiveForwardTsn(old(State()), cumulativeTsn, skipped)
    {
      hide Pop, PrunedTotal, Advance, JsSort, LaterSeq, ForwardStreams, PruneAll;
      sackNeeded := true;
      delivered := [];
      if Gte32(lastReceivedTsn, cumulativeTsn) {
        assert Streams() == old(Streams());
        return;
      }
      ghost var t := old(Tracking());
      lastReceivedTsn := cumulativeTsn;
      sackMisOrdered := set x | x in sackMisOrdered && Gt32(x, lastReceivedTsn);
      assert sackMisOrdered == LaterSet(t.misordered, cumulativeTsn);
      AdvanceCumulativeTsn();
      assert Tracking() == Forward(t, cumulativeTsn);
      assert Streams() == old(Streams());
      delivered := SkipStreams(skipped);
      PruneStreams();
    }

    /** `sendSack`: the SACK handed to the network, or nothing where its serialization throws. */
    method SendSack() returns (sack: Option<Sack>)
      requires Valid()
      modifies this`sackNeeded, this`sackDuplicates
      ensures Valid()
      ensures old(sackNeeded) ==> State() == Association.AfterSack(old(State()))
      ensures old(sackNeeded) ==>
                sack == (var k := Association.MakeSack(old(State())); if Fits(k) then Some(k) else None)
      ensures !old(sackNeeded) ==> State() == old(State()) && sack == None
    {
      hide JsSort, Gaps, Extend, NextOf, Fits;
      if !sackNeeded {
        assert Streams() == old(Streams());
        return None;
      }
      var order := JsSort(sackMisOrdered);
      NoGapsYet(lastReceivedTsn, order);
      var gaps: seq<Gap> := [];
      var gapNext: Option<nat> := None;
      var i := 0;
      while i < |order|
        invariant i <= |order| && gapNext == NextOf(order[..i])
        invariant gaps == Gaps(lastReceivedTsn, order[..i]) && sackDuplicates == old(sackDuplicates)
      {
        GapsSnoc(lastReceivedTsn, order, i);
        gaps := Extend(gaps, gapNext, lastReceivedTsn, order[i]);
        gapNext := Some(PlusOne(order[i]));
        i := i + 1;
      }
      assert order[..i] == order;
      var k := Sack(lastReceivedTsn, if advertisedRwnd < 0 then 0 else advertisedRwnd, gaps, sackDuplicates);
      assert k == Association.MakeSack(old(State()));
      sack := if Fits(k) then Some(k) else None;
      sackDuplicates := [];
      sackNeeded := false;
      assert Streams() == old(Streams());
    }
  }

  /** Having delivered `delivered`, the loop at index `i` still has the rest of `goal` to do. */
  ghost predicate ToSkip(goal: Outcome, delivered: seq<Message>, s: Inbound.State, skipped: seq<(nat, nat)>, i: nat)
    requires i <= |skipped|
  {
    var rest := ForwardStreams(s, skipped[i..]);
    goal == Outcome(rest.state, delivered + rest.delivered, false)
  }

  lemma SkipBegins(s: Inbound.State, skipped: seq<(nat, nat)>)
    ensures ToSkip(ForwardStreams(s, skipped), [], s, skipped, 0)
  {
    assert skipped[0..] == skipped;
    var o := ForwardStreams(s, skipped);
    assert [] + o.delivered == o.delivered;
  }

  lemma SkipTurn(goal: Outcome, delivered: seq<Message>, s: Inbound.State, skipped: seq<(nat, nat)>, i: nat)
    requires i < |skipped| && ToSkip(goal, delivered, s, skipped, i)
    ensures var o := ForwardStream(s, skipped[i].0, skipped[i].1);
            ToSkip(goal, delivered + o.delivered, o.state, skipped, i + 1)
  {
    hide Pop, MessageBytes;
    assert skipped[i..][0] == skipped[i] && skipped[i..][1..] == skipped[i + 1..];
    var o := ForwardStream(s, skipped[i].0, skipped[i].1);
    var rest := ForwardStreams(o.state, skipped[i + 1..]);
    assert delivered + (o.delivered + rest.delivered) == delivered + o.delivered + rest.delivered;
  }

  lemma SkipEnds(goal: Outcome, delivered: seq<Message>, s: Inbound.State, skipped: seq<(nat, nat)>)
    requires ToSkip(goal, delivered, s, skipped, |skipped|)
    ensures goal == Outcome(s, delivered, false)
  {
    assert skipped[|skipped|..] == [] && delivered + [] == delivered;
  }

  /** The streams when those in `ids` are still to be pruned. */
  ghost function Partly(streams: map<nat, Stream>, ids: set<nat>, tsn: nat): map<nat, Stream> {
    map id | id in streams :: if id in ids then streams[id] else Prune(streams[id], tsn)
  }

  ghost function Only(m: map<nat, nat>, ids: set<nat>): map<nat, nat> {
    map id | id in m && id in ids :: m[id]
  }

  lemma NothingPruned(streams: map<nat, Stream>, tsn: nat)
    ensures Partly(streams, streams.Keys, tsn) == streams
    ensures Only(PrunedSizes(streams, tsn), streams.Keys) == PrunedSizes(streams, tsn)
  {
  }

  lemma OneMorePruned(streams: map<nat, Stream>, ids: set<nat>, id: nat, tsn: nat)
    requires id in ids && ids <= streams.Keys
    ensures Partly(streams, ids, tsn).Keys == streams.Keys && Partly(streams, ids, tsn)[id] == streams[id]
    ensures Partly(streams, ids, tsn)[id := Prune(streams[id], tsn)] == Partly(streams, ids - {id}, tsn)
    ensures var sizes := PrunedSizes(streams, tsn);
            Sum(Only(sizes, ids)) == PrunedBytes(streams[id], tsn) + Sum(Only(sizes, ids - {id}))
  {
    hide Sum, Prune, PrunedBytes;
    var sizes := PrunedSizes(streams, tsn);
    SumRemove(Only(sizes, ids), id);
    assert Only(sizes, ids) - {id} == Only(sizes, ids - {id});
  }

  lemma AllPruned(streams: map<nat, Stream>, tsn: nat)
    ensures Partly(streams, {}, tsn) == PruneAll(streams, tsn)
    ensures Sum(Only(PrunedSizes(streams, tsn), {})) == 0
  {
    assert Only(PrunedSizes(streams, tsn), {}) == map[];
  }

  lemma UpdateTwice(m: map<nat, Stream>, k: nat, x: Stream, y: Stream)
    ensures m[k := x][k := y] == m[k := y]
  {
  }
}
