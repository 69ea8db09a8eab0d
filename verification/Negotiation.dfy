/**
 The negotiation transaction of packages/webrtc/src/negotiationTransaction.ts (section 4.1.10.2
 of RFC 9429): which state a rollback restores, and who owns each transport.

 The managers of transceivers and SCTP are stood for by a binding map with snapshot and
 restore: a restore gives every transceiver of the snapshot the transport it had there, and
 leaves what the transceivers outside it get to a parameter.
 */
module Negotiation {
  import opened Wrappers

  type Transceiver = nat
  type Transport = nat

  datatype Binding = Binding(transport: Transport, stopped: bool)

  /** Transceivers and SCTP with their transports, and the transports created and stopped so far. */
  datatype World = World(bindings: map<Transceiver, Binding>, sctp: Option<Transport>,
                         existing: set<Transport>, stopped: set<Transport>)

  datatype Snapshot = Snapshot(states: map<Transceiver, Binding>, sctp: Option<Transport>)

  /** What a pending proposal created or prepared. */
  datatype Resources = Resources(
    remoteCreated: set<Transceiver>, displaced: set<Transceiver>, prepared: map<nat, Transport>,
    pendingOnly: set<Transport>, owners: set<Transport>, emitted: set<Transport>, preparedFor: Option<nat>)

  const NO_RESOURCES := Resources({}, {}, map[], {}, {}, {}, None)

  datatype Phase = Idle | Pending | Validating | Preparing | Committing

  datatype Checkpoint = Checkpoint(state: Snapshot, resources: Resources)

  datatype State = State(
    baseline: Option<Snapshot>, offerSnapshot: Option<Snapshot>, created: set<Transport>,
    resources: Resources, phase: Phase, revision: nat, world: World)

  function Of(sctp: Option<Transport>): set<Transport> {
    if sctp.Some? then {sctp.value} else {}
  }

  function Transports(sn: Snapshot): set<Transport> {
    (set x | x in sn.states :: sn.states[x].transport) + Of(sn.sctp)
  }

  function Held(o: Option<Snapshot>): set<Transport> {
    if o.Some? then Transports(o.value) else {}
  }

  function InUse(w: World, includeStopped: bool): set<Transport> {
    (set x | x in w.bindings && (includeStopped || !w.bindings[x].stopped) :: w.bindings[x].transport) + Of(w.sctp)
  }

  function Unstopped(w: World): set<Transport> {
    w.existing - w.stopped
  }

  function Speculative(r: Resources): set<Transport> {
    r.pendingOnly + r.owners
  }

  /** A transport that closes leaves the set of created ones. */
  function Stop(s: State, ts: set<Transport>): State {
    s.(world := s.world.(stopped := s.world.stopped + ts), created := s.created - ts)
  }

  function Capture(w: World): Snapshot {
    Snapshot(w.bindings, w.sctp)
  }

  function Cleanup(s: State): State {
    s.(baseline := None, resources := NO_RESOURCES, phase := Idle)
  }

  /** `createOffer` in stable; a later one only adds transceivers created since. */
  function SnapshotForOffer(s: State): State {
    if s.baseline.Some? then s
    else if s.offerSnapshot.None? then s.(offerSnapshot := Some(Capture(s.world)))
    else
      var first := s.offerSnapshot.value;
      s.(offerSnapshot := Some(first.(states := s.world.bindings + first.states)))
  }

  function Begin(s: State, fromCreatedOffer: bool): State {
    s.(baseline :=
         if s.baseline.Some? then s.baseline
         else if fromCreatedOffer && s.offerSnapshot.Some? then s.offerSnapshot
         else Some(Capture(s.world)),
       offerSnapshot := None, revision := s.revision + 1, phase := Pending)
  }

  /** What the managers decide on a restore: transceivers outside the snapshot, and an SCTP transport kept for the application. */
  datatype Outside = Outside(others: map<Transceiver, Binding>, keptSctp: Option<Transport>)

  function RestoreState(s: State, sn: Snapshot, added: set<Transceiver>, speculative: set<Transport>, o: Outside): State {
    var w := s.world;
    var removed := set x | x in added && x in w.bindings && x !in o.others && x !in sn.states :: w.bindings[x].transport;
    var w' := w.(bindings := o.others + sn.states, sctp := if sn.sctp.Some? then sn.sctp else o.keptSctp);
    Stop(s.(world := w'), (speculative + removed + Of(w.sctp)) - InUse(w', true))
  }

  /** Back to the baseline, which stays; `carried` transceivers are described again by the replacing offer. */
  function Replace(s: State, carried: set<Transceiver>, o: Outside): State {
    if s.baseline.None? then s
    else
      RestoreState(s, s.baseline.value, s.resources.remoteCreated, Speculative(s.resources), o)
        .(resources := NO_RESOURCES.(remoteCreated := carried * s.resources.remoteCreated),
          revision := s.revision + 1, phase := Pending)
  }

  function Rollback(s: State, o: Outside): State {
    if s.baseline.None? then s
    else Cleanup(RestoreState(s, s.baseline.value, s.resources.remoteCreated, Speculative(s.resources), o))
  }

  function TakeCheckpoint(s: State): Checkpoint {
    Checkpoint(Capture(s.world), s.resources)
  }

  function RestoreCheckpoint(s: State, c: Checkpoint, o: Outside): State {
    RestoreState(s, c.state, s.resources.remoteCreated - c.resources.remoteCreated,
                 Speculative(s.resources) - Speculative(c.resources), o)
      .(resources := c.resources, phase := Pending)
  }

  /** Every transport the previous session or this transaction used stops unless a live binding holds it. */
  function Commit(s: State): State {
    var candidates := s.created + Held(s.baseline);
    Stop(Cleanup(s.(created := {})), candidates - InUse(s.world, false))
  }

  function Dispose(s: State): State {
    var ts := s.created + Speculative(s.resources) + s.resources.prepared.Values + Held(s.baseline) + Held(s.offerSnapshot);
    Stop(Cleanup(s.(created := {}, offerSnapshot := None)), ts)
  }

  // What the rest of the connection does in between

  function CreateTransport(s: State, t: Transport): State {
    s.(world := s.world.(existing := s.world.existing + {t}), created := s.created + {t})
  }

  function Bind(s: State, x: Transceiver, b: Binding): State {
    s.(world := s.world.(bindings := s.world.bindings[x := b]))
  }

  function BindSctp(s: State, t: Transport): State {
    s.(world := s.world.(sctp := Some(t)))
  }

  function PrepareTransport(s: State, description: nat, mid: nat, t: Transport, pendingOnly: bool): State {
    var r := s.resources;
    s.(resources := r.(preparedFor := Some(description), prepared := r.prepared[mid := t],
                       pendingOnly := if pendingOnly then r.pendingOnly + {t} else r.pendingOnly))
  }

  /** `takePreparedCandidateTransports`: pending-only transports whose candidates were not emitted yet. */
  function TakePrepared(s: State): (State, set<Transport>) {
    var r := s.resources;
    (s.(resources := r.(emitted := r.emitted + r.pendingOnly)), r.pendingOnly - r.emitted)
  }

  function DiscardPrepared(s: State): State {
    var r := s.resources;
    Stop(s.(resources := r.(prepared := map[], pendingOnly := {}, emitted := {}, preparedFor := None)), r.pendingOnly)
  }

  datatype Step =
    | SnapshotStep
    | BeginStep(fromCreatedOffer: bool)
    | PhaseStep(phase: Phase)
    | ReplaceStep(carried: set<Transceiver>, outside: Outside)
    | RollbackStep(outside: Outside)
    | RestoreStep(checkpoint: Checkpoint, outside: Outside)
    | CommitStep
    | DisposeStep
    | CreateStep(transport: Transport)
    | BindStep(x: Transceiver, binding: Binding)
    | SctpStep(transport: Transport)
    | RemoteStep(x: Transceiver)
    | OwnerStep(transport: Transport)
    | PrepareStep(description: nat, mid: nat, transport: Transport, pendingOnly: bool)
    | TakeStep
    | DiscardStep
    | CloseStep(transport: Transport)

  /**
   Only an open transaction moves a transceiver or SCTP from one transport to another, commits, or
   goes back to a checkpoint; a created transport is new.
   */
  predicate Enabled(s: State, e: Step) {
    match e
    case BindStep(x, b) =>
      s.baseline.Some? || x !in s.world.bindings || s.world.bindings[x].transport == b.transport
    case SctpStep(t) => s.baseline.Some? || s.world.sctp.None?
    case CommitStep => s.baseline.Some?
    case RestoreStep(_, _) => s.baseline.Some?
    case CreateStep(t) => t !in s.world.existing
    case _ => true
  }

  function Perform(s: State, e: Step): State
    requires Enabled(s, e)
  {
    match e
    case SnapshotStep => SnapshotForOffer(s)
    case BeginStep(from) => Begin(s, from)
    case PhaseStep(p) => s.(phase := p)
    case ReplaceStep(carried, o) => Replace(s, carried, o)
    case RollbackStep(o) => Rollback(s, o)
    case RestoreStep(c, o) => RestoreCheckpoint(s, c, o)
    case CommitStep => Commit(s)
    case DisposeStep => Dispose(s)
    case CreateStep(t) => CreateTransport(s, t)
    case BindStep(x, b) => Bind(s, x, b)
    case SctpStep(t) => BindSctp(s, t)
    case RemoteStep(x) => s.(resources := s.resources.(remoteCreated := s.resources.remoteCreated + {x}))
    case OwnerStep(t) => s.(resources := s.resources.(owners := s.resources.owners + {t}))
    case PrepareStep(d, mid, t, p) => PrepareTransport(s, d, mid, t, p)
    case TakeStep => TakePrepared(s).0
    case DiscardStep => DiscardPrepared(s)
    case CloseStep(t) => Stop(s, {t})
  }

  // Ownership

  /** The bindings the offer snapshot recorded are still there. */
  ghost predicate StillBound(sn: Snapshot, w: World) {
    && (forall x :: x in sn.states ==> x in w.bindings && w.bindings[x].transport == sn.states[x].transport)
    && (sn.sctp.Some? ==> w.sctp == sn.sctp)
  }

  /** While a transaction is open, every transport is created in it or held by its baseline; otherwise, created or bound. */
  ghost predicate Inv(s: State) {
    && (s.baseline.Some? ==> s.offerSnapshot.None?)
    && (s.offerSnapshot.Some? ==> StillBound(s.offerSnapshot.value, s.world))
    && (forall t :: t in Unstopped(s.world) ==> Owned(s, t))
  }

  ghost predicate Owned(s: State, t: Transport) {
    || t in s.created
    || (if s.baseline.Some? then t in Held(s.baseline)
        else if s.offerSnapshot.Some? then t in Held(s.offerSnapshot)
        else t in InUse(s.world, true))
  }

  lemma StillBoundIsInUse(sn: Snapshot, w: World)
    requires StillBound(sn, w)
    ensures Transports(sn) <= InUse(w, true)
  {
  }

  lemma RestoredIsInUse(s: State, sn: Snapshot, added: set<Transceiver>, speculative: set<Transport>, o: Outside)
    ensures Transports(sn) <= InUse(RestoreState(s, sn, added, speculative, o).world, true)
  {
    var w' := RestoreState(s, sn, added, speculative, o).world;
    assert forall x :: x in sn.states ==> x in w'.bindings && w'.bindings[x] == sn.states[x];
  }

  lemma BeginKeepsInv(s: State, from: bool)
    requires Inv(s)
    ensures Inv(Begin(s, from))
  {
    if s.baseline.None? {
      if s.offerSnapshot.Some? {
        StillBoundIsInUse(s.offerSnapshot.value, s.world);
      }
      assert Transports(Capture(s.world)) == InUse(s.world, true);
    }
  }

  lemma SnapshotKeepsInv(s: State)
    requires Inv(s)
    ensures Inv(SnapshotForOffer(s))
  {
    if s.baseline.None? {
      assert Transports(Capture(s.world)) == InUse(s.world, true);
      if s.offerSnapshot.Some? {
        var first := s.offerSnapshot.value;
        var sn := first.(states := s.world.bindings + first.states);
        assert forall x :: x in first.states ==> x in sn.states && sn.states[x] == first.states[x];
        assert Transports(first) <= Transports(sn);
      }
    }
  }

  lemma RollbackKeepsInv(s: State, o: Outside)
    requires Inv(s)
    ensures Inv(Rollback(s, o))
  {
    var s' := Rollback(s, o);
    if s.baseline.Some? {
      RestoredIsInUse(s, s.baseline.value, s.resources.remoteCreated, Speculative(s.resources), o);
      forall t | t in Unstopped(s'.world)
        ensures Owned(s', t)
      {
        assert t in Unstopped(s.world) && Owned(s, t);
      }
    }
  }

  /** A transceiver, `live` ones only if so asked, or SCTP is bound to the transport. */
  ghost predicate Bound(w: World, t: Transport, live: bool) {
    (exists x :: x in w.bindings && w.bindings[x].transport == t && (live ==> !w.bindings[x].stopped)) || w.sctp == Some(t)
  }

  lemma InUseIsBound(w: World, t: Transport, includeStopped: bool)
    ensures t in InUse(w, includeStopped) <==> Bound(w, t, !includeStopped)
  {
  }

  /** After the commit exactly those transports run that ran before it and have a live binding. */
  lemma CommitStopsTheRest(s: State)
    requires Inv(s) && s.baseline.Some?
    ensures Inv(Commit(s))
    ensures forall t :: t in Unstopped(Commit(s).world) <==> t in Unstopped(s.world) && Bound(s.world, t, true)
  {
    var s' := Commit(s);
    assert InUse(s'.world, true) == InUse(s.world, true);
    forall t
      ensures t in Unstopped(s'.world) <==> t in Unstopped(s.world) && Bound(s.world, t, true)
    {
      InUseIsBound(s.world, t, false);
      assert t in Unstopped(s.world) ==> Owned(s, t);
    }
    forall t | t in Unstopped(s'.world)
      ensures t in InUse(s.world, true)
    {
      InUseIsBound(s.world, t, false);
    }
  }

  /** After `dispose` nothing runs that the transaction held, and what runs is bound. */
  lemma DisposeStopsAll(s: State)
    requires Inv(s)
    ensures Inv(Dispose(s)) && Unstopped(Dispose(s).world) <= InUse(s.world, true)
    ensures s.baseline.Some? ==> Unstopped(Dispose(s).world) == {}
    ensures s.created + Speculative(s.resources) + s.resources.prepared.Values + Held(s.baseline) + Held(s.offerSnapshot)
            <= Dispose(s).world.stopped
  {
    var s' := Dispose(s);
    assert InUse(s'.world, true) == InUse(s.world, true);
    forall t | t in Unstopped(s'.world)
      ensures s.baseline.None? && t in InUse(s.world, true)
    {
      assert t in Unstopped(s.world) && Owned(s, t);
    }
  }

  lemma BindKeepsInv(s: State, x: Transceiver, b: Binding)
    requires Inv(s) && Enabled(s, BindStep(x, b))
    ensures Inv(Bind(s, x, b))
  {
    var s' := Bind(s, x, b);
    if s.baseline.None? && s.offerSnapshot.None? {
      forall t | t in InUse(s.world, true)
        ensures t in InUse(s'.world, true)
      {
        if y :| y in s.world.bindings && s.world.bindings[y].transport == t {
          assert y in s'.world.bindings && s'.world.bindings[y].transport == t;
        }
      }
    }
    forall t | t in Unstopped(s'.world)
      ensures Owned(s', t)
    {
      assert t in Unstopped(s.world) && Owned(s, t);
    }
  }

  lemma SctpKeepsInv(s: State, t: Transport)
    requires Inv(s) && Enabled(s, SctpStep(t))
    ensures Inv(BindSctp(s, t))
  {
    var s' := BindSctp(s, t);
    assert s.world.sctp.None? ==> InUse(s.world, true) <= InUse(s'.world, true);
    forall t | t in Unstopped(s'.world)
      ensures Owned(s', t)
    {
      assert t in Unstopped(s.world) && Owned(s, t);
    }
  }

  /** Steps that stop transports, create them or change resources, and nothing else. */
  lemma OtherStepKeepsInv(s: State, s': State)
    requires Inv(s)
    requires s'.baseline == s.baseline && s'.offerSnapshot == s.offerSnapshot
    requires s.baseline.Some? || (s'.world.bindings == s.world.bindings && s'.world.sctp == s.world.sctp)
    requires forall t :: t in Unstopped(s'.world) ==> t in s'.created || (t in Unstopped(s.world) && t !in s.created)
    ensures Inv(s')
  {
    assert s.baseline.None? ==> InUse(s.world, true) == InUse(s'.world, true);
    forall t | t in Unstopped(s'.world)
      ensures Owned(s', t)
    {
      if t !in s'.created {
        assert t in Unstopped(s.world) && Owned(s, t);
      }
    }
  }

  lemma StepKeepsInv(s: State, e: Step)
    requires Inv(s) && Enabled(s, e)
    ensures Inv(Perform(s, e))
  {
    match e
    case SnapshotStep => SnapshotKeepsInv(s);
    case BeginStep(from) => BeginKeepsInv(s, from);
    case RollbackStep(o) => RollbackKeepsInv(s, o);
    case CommitStep => CommitStopsTheRest(s);
    case DisposeStep => DisposeStopsAll(s);
    case BindStep(x, b) => BindKeepsInv(s, x, b);
    case SctpStep(t) => SctpKeepsInv(s, t);
    case _ => OtherStepKeepsInv(s, Perform(s, e));
  }

  // Runs

  predicate Initial(s: State) {
    s.baseline.None? && s.offerSnapshot.None? && s.world.existing == {}
  }

  ghost predicate IsRun(run: seq<State>, steps: seq<Step>) {
    && |run| == |steps| + 1 && Initial(run[0])
    && forall i :: 0 <= i < |steps| ==> Enabled(run[i], steps[i]) && run[i + 1] == Perform(run[i], steps[i])
  }

  lemma {:induction false} RunKeepsInv(run: seq<State>, steps: seq<Step>, i: nat)
    requires IsRun(run, steps) && i < |run|
    ensures Inv(run[i])
  {
    hide Perform, Enabled;
    if i > 0 {
      RunKeepsInv(run, steps, i - 1);
      StepKeepsInv(run[i - 1], steps[i - 1]);
    }
  }

  /** At every point of every run, a transport that runs is bound, held by the baseline, or tracked as created. */
  lemma NoTransportIsLost(run: seq<State>, steps: seq<Step>, i: nat, t: Transport)
    requires IsRun(run, steps) && i < |run| && t in Unstopped(run[i].world)
    ensures t in run[i].created || t in Held(run[i].baseline) || t in InUse(run[i].world, true)
  {
    RunKeepsInv(run, steps, i);
    var s := run[i];
    assert Owned(s, t);
    if s.offerSnapshot.Some? {
      StillBoundIsInUse(s.offerSnapshot.value, s.world);
    }
  }

  /**
   Of the transports that run before it, the final answer keeps running those that a live
   transceiver or SCTP uses, and no other.
   */
  lemma CommitLeavesNoOrphan(run: seq<State>, steps: seq<Step>, i: nat, t: Transport)
    requires IsRun(run, steps) && i < |steps| && steps[i].CommitStep?
    ensures t in Unstopped(run[i + 1].world) <==> t in Unstopped(run[i].world) && Bound(run[i].world, t, true)
    ensures run[i + 1].world.bindings == run[i].world.bindings && run[i + 1].world.sctp == run[i].world.sctp
    ensures run[i + 1].baseline.None? && run[i + 1].created == {} && run[i + 1].resources == NO_RESOURCES
  {
    RunKeepsInv(run, steps, i);
    assert Enabled(run[i], steps[i]) && run[i + 1] == Perform(run[i], steps[i]);
    CommitStopsTheRest(run[i]);
  }

  /** Closing during a negotiation stops every transport there is. */
  lemma DisposeLeavesNothing(run: seq<State>, steps: seq<Step>, i: nat, t: Transport)
    requires IsRun(run, steps) && i < |steps| && steps[i].DisposeStep? && t in Unstopped(run[i + 1].world)
    ensures run[i].baseline.None? && t in InUse(run[i].world, true)
  {
    RunKeepsInv(run, steps, i);
    DisposeStopsAll(run[i]);
  }

  predicate EndsTransaction(e: Step) {
    e.RollbackStep? || e.CommitStep? || e.DisposeStep?
  }

  lemma StepKeepsBaseline(s: State, e: Step)
    requires Enabled(s, e) && s.baseline.Some? && !EndsTransaction(e)
    ensures Perform(s, e).baseline == s.baseline
  {
  }

  /** Through any mix of begin, replace, checkpoint restore and pranswer the first baseline stays. */
  lemma {:induction false} FirstBaselineStays(run: seq<State>, steps: seq<Step>, i: nat, j: nat)
    requires IsRun(run, steps) && i <= j < |run| && run[i].baseline.Some?
    requires forall k :: i <= k < j ==> !EndsTransaction(steps[k])
    ensures run[j].baseline == run[i].baseline
    decreases j - i
  {
    hide Perform, Enabled;
    if i < j {
      FirstBaselineStays(run, steps, i, j - 1);
      StepKeepsBaseline(run[j - 1], steps[j - 1]);
    }
  }

  ghost predicate Restores(w: World, sn: Snapshot) {
    && (forall x :: x in sn.states ==> x in w.bindings && w.bindings[x] == sn.states[x])
    && (sn.sctp.Some? ==> w.sctp == sn.sctp)
  }

  /**
   A rollback puts every transceiver and SCTP back to what they were when the transaction was
   opened, however many descriptions were applied since.
   */
  lemma RollbackRestoresTheFirstBaseline(run: seq<State>, steps: seq<Step>, i: nat, j: nat)
    requires IsRun(run, steps) && i < j < |steps|
    requires steps[i].BeginStep? && (steps[i].fromCreatedOffer ==> run[i].offerSnapshot.None?)
    requires run[i].baseline.None? && steps[j].RollbackStep?
    requires forall k :: i < k < j ==> !EndsTransaction(steps[k])
    ensures Restores(run[j + 1].world, Capture(run[i].world))
    ensures run[j + 1].baseline.None? && run[j + 1].resources == NO_RESOURCES && run[j + 1].phase.Idle?
  {
    assert run[i + 1] == Perform(run[i], steps[i]) && run[j + 1] == Perform(run[j], steps[j]);
    FirstBaselineStays(run, steps, i + 1, j);
  }

  /** The same for a local offer, which goes back to the state before the `createOffer` it came from. */
  lemma RollbackRestoresTheOfferSnapshot(run: seq<State>, steps: seq<Step>, i: nat, j: nat)
    requires IsRun(run, steps) && i < j < |steps|
    requires steps[i] == BeginStep(true) && run[i].baseline.None? && run[i].offerSnapshot.Some? && steps[j].RollbackStep?
    requires forall k :: i < k < j ==> !EndsTransaction(steps[k])
    ensures Restores(run[j + 1].world, run[i].offerSnapshot.value)
  {
    assert run[i + 1] == Perform(run[i], steps[i]) && run[j + 1] == Perform(run[j], steps[j]);
    FirstBaselineStays(run, steps, i + 1, j);
  }

  /** The transport of a transceiver of `added` that the restore removes. */
  ghost predicate Removed(w: World, w': World, added: set<Transceiver>, t: Transport) {
    exists x :: x in added && x in w.bindings && x !in w'.bindings && w.bindings[x].transport == t
  }

  /**
   A restore stops exactly what the proposal held, the transports of the transceivers it removes and
   the one SCTP ran on, as far as nothing is bound to them afterwards.
   */
  lemma RestoreStopsTheProposal(s: State, sn: Snapshot, added: set<Transceiver>, speculative: set<Transport>, o: Outside)
    ensures var s' := RestoreState(s, sn, added, speculative, o);
            && Restores(s'.world, sn)
            && forall t :: t in s'.world.stopped <==>
                 || t in s.world.stopped
                 || ((t in speculative || Removed(s.world, s'.world, added, t) || s.world.sctp == Some(t)) &&
                     !Bound(s'.world, t, false))
  {
    var s' := RestoreState(s, sn, added, speculative, o);
    var w' := s.world.(bindings := o.others + sn.states, sctp := if sn.sctp.Some? then sn.sctp else o.keptSctp);
    assert InUse(s'.world, true) == InUse(w', true);
    forall t
      ensures t in InUse(s'.world, true) <==> Bound(s'.world, t, false)
    {
      InUseIsBound(s'.world, t, true);
    }
    var removed := set x | x in added && x in s.world.bindings && x !in o.others && x !in sn.states ::
      s.world.bindings[x].transport;
    assert forall t :: t in removed <==> Removed(s.world, s'.world, added, t);
  }

  /** A replacement offer starts from the baseline, with nothing of the proposal before it but what it describes again. */
  lemma ReplaceReturnsToBaseline(s: State, carried: set<Transceiver>, o: Outside)
    requires s.baseline.Some?
    ensures var s' := Replace(s, carried, o);
            && s'.baseline == s.baseline && s'.phase.Pending? && s'.revision == s.revision + 1
            && Restores(s'.world, s.baseline.value)
            && s'.resources.remoteCreated == carried * s.resources.remoteCreated
            && Speculative(s'.resources) == {} && s'.resources.prepared == map[]
            && forall t :: t in Speculative(s.resources) ==> t in s'.world.stopped || Bound(s'.world, t, false)
  {
    RestoreStopsTheProposal(s, s.baseline.value, s.resources.remoteCreated, Speculative(s.resources), o);
  }

  /** Repeated `createOffer` calls keep what the first recorded. */
  lemma FirstOfferSnapshotStays(s: State)
    requires s.baseline.None? && s.offerSnapshot.Some?
    ensures var sn := SnapshotForOffer(s).offerSnapshot;
            && sn.Some? && sn.value.sctp == s.offerSnapshot.value.sctp
            && sn.value.states.Keys == s.world.bindings.Keys + s.offerSnapshot.value.states.Keys
            && forall x :: x in s.offerSnapshot.value.states ==> sn.value.states[x] == s.offerSnapshot.value.states[x]
  {
  }

  /** A failed operation is undone to its checkpoint, and the baseline is not touched. */
  lemma CheckpointUndoes(run: seq<State>, steps: seq<Step>, i: nat, j: nat)
    requires IsRun(run, steps) && i <= j < |steps| && run[i].baseline.Some?
    requires steps[j].RestoreStep? && steps[j].checkpoint == TakeCheckpoint(run[i])
    requires forall k :: i <= k < j ==> !EndsTransaction(steps[k])
    ensures Restores(run[j + 1].world, Capture(run[i].world))
    ensures run[j + 1].resources == run[i].resources && run[j + 1].baseline == run[i].baseline
  {
    assert run[j + 1] == Perform(run[j], steps[j]);
    FirstBaselineStays(run, steps, i, j);
  }

  // What stops

  /** The transport belongs to what is undone, and nothing is bound to it any more. */
  ghost predicate Undone(s: State, s': State, added: set<Transceiver>, speculative: set<Transport>, t: Transport) {
    (t in speculative || Removed(s.world, s'.world, added, t) || s.world.sctp == Some(t)) && !Bound(s'.world, t, false)
  }

  /** Whether a step stops a transport that runs. */
  ghost predicate Stops(s: State, e: Step, s': State, t: Transport) {
    match e
    case CommitStep => !Bound(s.world, t, true)
    case ReplaceStep(_, _) => s.baseline.Some? && Undone(s, s', s.resources.remoteCreated, Speculative(s.resources), t)
    case RollbackStep(_) => s.baseline.Some? && Undone(s, s', s.resources.remoteCreated, Speculative(s.resources), t)
    case RestoreStep(c, _) =>
      Undone(s, s', s.resources.remoteCreated - c.resources.remoteCreated,
             Speculative(s.resources) - Speculative(c.resources), t)
    case DisposeStep =>
      || t in s.created || t in Speculative(s.resources) || t in s.resources.prepared.Values
      || t in Held(s.baseline) || t in Held(s.offerSnapshot)
    case DiscardStep => t in s.resources.pendingOnly
    case CloseStep(u) => t == u
    case _ => false
  }

  /**
   In every run, a transport that runs stops exactly at the end of a proposal that held it and
   leaves it unbound, at a commit that no live owner of it survives, or by name.
   */
  lemma TransportStopsIff(run: seq<State>, steps: seq<Step>, i: nat, t: Transport)
    requires IsRun(run, steps) && i < |steps| && t in Unstopped(run[i].world)
    ensures t in run[i + 1].world.stopped <==> Stops(run[i], steps[i], run[i + 1], t)
  {
    hide RestoreState, Removed;
    var s, e := run[i], steps[i];
    assert Enabled(s, e) && run[i + 1] == Perform(s, e);
    RunKeepsInv(run, steps, i);
    match e
    case ReplaceStep(_, o) =>
      if s.baseline.Some? {
        RestoreStopsTheProposal(s, s.baseline.value, s.resources.remoteCreated, Speculative(s.resources), o);
      }
    case RollbackStep(o) =>
      if s.baseline.Some? {
        RestoreStopsTheProposal(s, s.baseline.value, s.resources.remoteCreated, Speculative(s.resources), o);
      }
    case RestoreStep(c, o) =>
      RestoreStopsTheProposal(s, c.state, s.resources.remoteCreated - c.resources.remoteCreated,
                              Speculative(s.resources) - Speculative(c.resources), o);
    case CommitStep =>
      CommitStopsTheRest(s);
      assert run[i + 1].world.existing == s.world.existing;
    case _ =>
  }

  // Candidates of prepared transports

  /** The step forgets whose candidates were emitted. */
  predicate ForgetsEmitted(e: Step) {
    EndsTransaction(e) || e.ReplaceStep? || e.RestoreStep? || e.DiscardStep?
  }

  function Taken(s: State): set<Transport> {
    TakePrepared(s).1
  }

  lemma EmittedGrows(s: State, e: Step)
    requires Enabled(s, e) && !ForgetsEmitted(e)
    ensures Perform(s, e).resources.emitted == s.resources.emitted + if e.TakeStep? then Taken(s) else {}
  {
    hide Enabled;
    if e.TakeStep? {
      var r := s.resources;
      assert r.emitted + r.pendingOnly == r.emitted + (r.pendingOnly - r.emitted);
    }
  }

  lemma {:induction false} EmittedStays(run: seq<State>, steps: seq<Step>, i: nat, j: nat)
    requires IsRun(run, steps) && i <= j < |run|
    requires forall k :: i <= k < j ==> !ForgetsEmitted(steps[k])
    ensures run[i].resources.emitted <= run[j].resources.emitted
    decreases j - i
  {
    hide Perform, Enabled;
    if i < j {
      EmittedStays(run, steps, i, j - 1);
      EmittedGrows(run[j - 1], steps[j - 1]);
    }
  }

  /**
   While a proposal goes on, the candidates of each transport it prepared are taken once: every
   take hands over exactly the prepared ones that no earlier take did.
   */
  lemma CandidatesAreTakenOnce(run: seq<State>, steps: seq<Step>, i: nat, j: nat)
    requires IsRun(run, steps) && i < j < |steps| && steps[i].TakeStep? && steps[j].TakeStep?
    requires forall k :: i <= k < j ==> !ForgetsEmitted(steps[k])
    ensures Taken(run[i]) * Taken(run[j]) == {}
    ensures run[j].resources.pendingOnly <= run[j + 1].resources.emitted
    ensures run[j + 1].resources.emitted == run[j].resources.emitted + Taken(run[j])
  {
    hide Perform, Enabled;
    EmittedGrows(run[i], steps[i]);
    EmittedStays(run, steps, i + 1, j);
    EmittedGrows(run[j], steps[j]);
  }

  // What a proposal leaves

  /** The step hands the transport or the transceiver to the proposal. */
  predicate Hands(e: Step, t: Transport) {
    match e
    case PrepareStep(_, _, u, pendingOnly) => pendingOnly && u == t
    case OwnerStep(u) => u == t
    case _ => false
  }

  lemma ResourcesGrow(s: State, e: Step)
    requires Enabled(s, e) && !ForgetsEmitted(e)
    ensures Speculative(s.resources) <= Speculative(Perform(s, e).resources)
    ensures s.resources.remoteCreated <= Perform(s, e).resources.remoteCreated
  {
  }

  lemma {:induction false} ResourcesStay(run: seq<State>, steps: seq<Step>, i: nat, j: nat)
    requires IsRun(run, steps) && i <= j < |run|
    requires forall k :: i <= k < j ==> !ForgetsEmitted(steps[k])
    ensures Speculative(run[i].resources) <= Speculative(run[j].resources)
    ensures run[i].resources.remoteCreated <= run[j].resources.remoteCreated
    decreases j - i
  {
    hide Perform, Enabled;
    if i < j {
      ResourcesStay(run, steps, i, j - 1);
      ResourcesGrow(run[j - 1], steps[j - 1]);
    }
  }

  /**
   A transport handed to a proposal does not outlive it: when the proposal is rolled back or replaced it has
   stopped, unless something is bound to it then. The same holds of the transport of a transceiver that a
   remote offer created and that is gone.
   */
  lemma ProposalLeavesNothing(run: seq<State>, steps: seq<Step>, i: nat, j: nat, t: Transport)
    requires IsRun(run, steps) && i < j < |steps| && run[j].baseline.Some?
    requires steps[j].RollbackStep? || steps[j].ReplaceStep?
    requires forall k :: i <= k < j ==> !ForgetsEmitted(steps[k])
    requires Hands(steps[i], t) ||
             exists x :: steps[i] == RemoteStep(x) && x in run[j].world.bindings && x !in run[j + 1].world.bindings &&
                         run[j].world.bindings[x].transport == t
    ensures t in run[j + 1].world.stopped || Bound(run[j + 1].world, t, false)
  {
    assert run[i + 1] == Perform(run[i], steps[i]) && run[j + 1] == Perform(run[j], steps[j]);
    ResourcesStay(run, steps, i + 1, j);
    var s, o := run[j], steps[j].outside;
    RestoreStopsTheProposal(s, s.baseline.value, s.resources.remoteCreated, Speculative(s.resources), o);
    if !Hands(steps[i], t) {
      assert Removed(s.world, run[j + 1].world, s.resources.remoteCreated, t);
    }
  }
}
