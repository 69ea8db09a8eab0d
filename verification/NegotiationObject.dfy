/**
 `ProposalResources` and `NegotiationTransaction` of packages/webrtc/src/negotiationTransaction.ts as
 the objects they are; their methods compute what module `Negotiation` says.
 */
module NegotiationObject {
  import opened Wrappers
  import opened Negotiation

  class ProposalResources {
    var remoteCreated: set<Transceiver>
    var displaced: set<Transceiver>
    var prepared: map<nat, Transport>
    var pendingOnly: set<Transport>
    var owners: set<Transport>
    var emittedCandidates: set<Transport>
    var preparedFor: Option<nat>

    function Value(): Resources
      reads this
    {
      Resources(remoteCreated, displaced, prepared, pendingOnly, owners, emittedCandidates, preparedFor)
    }

    constructor ()
      ensures Value() == NO_RESOURCES
    {
      remoteCreated, displaced, prepared, pendingOnly, owners := {}, {}, map[], {}, {};
      emittedCandidates, preparedFor := {}, None;
    }

    /** The map is emptied before it is copied into: assigning an object to itself would lose it. */
    method Assign(source: ProposalResources)
      requires source != this
      modifies this
      ensures Value() == source.Value() == old(source.Value())
    {
      remoteCreated, displaced := source.remoteCreated, source.displaced;
      pendingOnly, owners, emittedCandidates := source.pendingOnly, source.owners, source.emittedCandidates;
      prepared := map[];
      var mids := source.prepared.Keys;
      while mids != {}
        invariant mids <= source.prepared.Keys && prepared.Keys == source.prepared.Keys - mids
        invariant forall m :: m in prepared ==> prepared[m] == source.prepared[m]
        invariant remoteCreated == source.remoteCreated && displaced == source.displaced
        invariant pendingOnly == source.pendingOnly && owners == source.owners
        invariant emittedCandidates == source.emittedCandidates && source.Value() == old(source.Value())
      {
        var mid :| mid in mids;
        prepared := prepared[mid := source.prepared[mid]];
        mids := mids - {mid};
      }
      assert prepared == source.prepared;
      preparedFor := source.preparedFor;
    }

    method Clear()
      modifies this
      ensures Value() == NO_RESOURCES
    {
      var none := new ProposalResources();
      Assign(none);
    }

    /** What happens to the original afterwards does not reach the copy. */
    method Copy() returns (copy: ProposalResources)
      ensures fresh(copy) && copy.Value() == Value()
    {
      copy := new ProposalResources();
      copy.Assign(this);
    }
  }

  class NegotiationTransaction {
    var baseline: Option<Snapshot>
    var offerSnapshot: Option<Snapshot>
    const resources: ProposalResources
    var createdTransports: set<Transport>
    var revision: nat
    var phase: Phase
    /** The managers and the transports. */
    var world: World

    ghost function Value(): State
      reads this, resources
    {
      State(baseline, offerSnapshot, createdTransports, resources.Value(), phase, revision, world)
    }

    constructor (w: World)
      ensures fresh(resources) && Value() == State(None, None, {}, NO_RESOURCES, Idle, 0, w)
    {
      resources := new ProposalResources();
      baseline, offerSnapshot, createdTransports, revision, phase, world := None, None, {}, 0, Idle, w;
    }

    method RecordOffer()
      modifies this`offerSnapshot
      ensures Value() == SnapshotForOffer(old(Value()))
    {
      if baseline.Some? {
        return;
      }
      var now := Capture(world);
      if offerSnapshot.None? {
        offerSnapshot := Some(now);
        return;
      }
      var states := offerSnapshot.value.states;
      ghost var first := states;
      var todo := now.states.Keys;
      while todo != {}
        invariant todo <= now.states.Keys && states.Keys == first.Keys + (now.states.Keys - todo)
        invariant forall x :: x in states ==> states[x] == if x in first then first[x] else now.states[x]
      {
        var x :| x in todo;
        if x !in states {
          states := states[x := now.states[x]];
        }
        todo := todo - {x};
      }
      assert states == now.states + first;
      offerSnapshot := Some(offerSnapshot.value.(states := states));
    }

    method Open(fromCreatedOffer: bool) returns (r: nat)
      modifies this
      ensures Value() == Begin(old(Value()), fromCreatedOffer) && r == revision
    {
      if baseline.None? {
        baseline := if fromCreatedOffer && offerSnapshot.Some? then offerSnapshot else Some(Capture(world));
      }
      offerSnapshot := None;
      revision := revision + 1;
      phase := Pending;
      return revision;
    }

    /** Stops one transport; the subscription made at its creation forgets it. */
    method StopTransport(t: Transport)
      modifies this`world, this`createdTransports
      ensures Value() == Stop(old(Value()), {t})
    {
      world := world.(stopped := world.stopped + {t});
      createdTransports := createdTransports - {t};
    }

    method StopUnless(candidates: set<Transport>, inUse: set<Transport>)
      modifies this`world, this`createdTransports
      ensures Value() == Stop(old(Value()), candidates - inUse)
    {
      var todo := candidates;
      ghost var s := Value();
      assert Stop(s, {}) == s;
      while todo != {}
        invariant todo <= candidates && Value() == Stop(s, (candidates - todo) - inUse)
      {
        var t :| t in todo;
        if t !in inUse {
          StopTransport(t);
        }
        StopOneMore(s, (candidates - todo) - inUse, t);
        assert (candidates - (todo - {t})) - inUse == (candidates - todo) - inUse + if t in inUse then {} else {t};
        todo := todo - {t};
      }
      assert candidates - todo == candidates;
    }

    method RestoreTo(sn: Snapshot, added: set<Transceiver>, speculative: set<Transport>, o: Outside)
      modifies this`world, this`createdTransports
      ensures Value() == RestoreState(old(Value()), sn, added, speculative, o)
    {
      var removed := set x | x in added && x in world.bindings && x !in o.others && x !in sn.states
        :: world.bindings[x].transport;
      var proposedSctp := world.sctp;
      world := world.(bindings := o.others + sn.states, sctp := if sn.sctp.Some? then sn.sctp else o.keptSctp);
      var inUse := InUse(world, true);
      StopUnless(speculative + removed + Of(proposedSctp), inUse);
    }

    method CleanUp()
      modifies this`baseline, this`phase, resources
      ensures Value() == Cleanup(old(Value()))
    {
      baseline := None;
      resources.Clear();
      phase := Idle;
    }

    method ReplaceProposal(carried: set<Transceiver>, o: Outside)
      modifies this, resources
      ensures Value() == Replace(old(Value()), carried, o)
    {
      if baseline.None? {
        return;
      }
      var kept := carried * resources.remoteCreated;
      RestoreTo(baseline.value, resources.remoteCreated, Speculative(resources.Value()), o);
      resources.Clear();
      resources.remoteCreated := kept;
      revision := revision + 1;
      phase := Pending;
    }

    method RollBack(o: Outside)
      modifies this, resources
      ensures Value() == Rollback(old(Value()), o)
    {
      if baseline.None? {
        return;
      }
      RestoreTo(baseline.value, resources.remoteCreated, Speculative(resources.Value()), o);
      CleanUp();
    }

    method UndoTo(state: Snapshot, before: ProposalResources, o: Outside)
      requires before != resources
      modifies this, resources
      ensures Value() == RestoreCheckpoint(old(Value()), Checkpoint(state, old(before.Value())), o)
    {
      var kept := Speculative(before.Value());
      RestoreTo(state, resources.remoteCreated - before.remoteCreated, Speculative(resources.Value()) - kept, o);
      resources.Assign(before);
      phase := Pending;
    }

    method CommitAnswer()
      modifies this, resources
      ensures Value() == Commit(old(Value()))
    {
      phase := Committing;
      var candidates := createdTransports + Held(baseline);
      createdTransports := {};
      CleanUp();
      StopUnless(candidates, InUse(world, false));
    }

    method Close()
      modifies this, resources
      ensures Value() == Dispose(old(Value()))
    {
      var transports := createdTransports + Speculative(resources.Value()) + resources.prepared.Values +
        Held(baseline) + Held(offerSnapshot);
      createdTransports := {};
      offerSnapshot := None;
      CleanUp();
      StopUnless(transports, {});
    }
  }

  lemma StopOneMore(s: State, ts: set<Transport>, t: Transport)
    ensures Stop(Stop(s, ts), {t}) == Stop(s, ts + {t})
  {
    assert s.created - ts - {t} == s.created - (ts + {t});
    assert s.world.stopped + ts + {t} == s.world.stopped + (ts + {t});
  }
}
