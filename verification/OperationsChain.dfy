/**
 The operations chain of `RTCPeerConnection` (`enqueueDescriptionOperation`,
 packages/webrtc/src/peerConnection.ts:794-843): a scheduler made of promises, with two
 release points per operation, `done` and `applied`.
 */
module OperationsChain {
  import opened Wrappers

  /** The two promises an operation releases itself; the others are `Promise.all` of these. */
  datatype Release = Done(id: nat) | Applied(id: nat)

  /** A promise, as the releases it waits for. */
  type Promise = set<Release>

  /** An ordinary operation waits for `done` of the tail, a candidate operation for `applied`. */
  datatype Kind = Ordinary | Candidate

  datatype Outcome = Success | Failure | Overtaken

  datatype Phase = Waiting | Running | Settled(outcome: Outcome)

  datatype Operation = Operation(kind: Kind, waits: Promise, phase: Phase)

  datatype Tail = Tail(done: Promise, applied: Promise)

  /** `mark` is the operation whose `releaseApplied` is stored in `markDescriptionApplied`. */
  datatype State = State(ops: seq<Operation>, tail: Tail, mark: Option<nat>, released: set<Release>, closed: bool)

  const START := State([], Tail({}, {}), None, {}, false)

  // The steps: each runs without a suspension point

  /** A call: rejected at once when closed, registered at the end of the chain otherwise. */
  function Enqueue(s: State, kind: Kind): State {
    if s.closed then s
    else
      var id := |s.ops|;
      var waits := if kind.Candidate? then s.tail.applied else s.tail.done;
      s.(ops := s.ops + [Operation(kind, waits, Waiting)],
         tail := if kind.Candidate? then Tail(s.tail.done + {Done(id)}, s.tail.applied + {Done(id)})
                 else Tail({Done(id)}, {Applied(id)}))
  }

  predicate CanResume(s: State, i: nat) {
    i < |s.ops| && s.ops[i].phase.Waiting? && s.ops[i].waits <= s.released
  }

  predicate CanFinish(s: State, i: nat) {
    i < |s.ops| && s.ops[i].phase.Running?
  }

  /** The promise awaited has resolved: the body begins, unless `close` came first. */
  function Resume(s: State, i: nat): State
    requires CanResume(s, i)
  {
    if s.closed then Settle(s, i, Overtaken)
    else s.(ops := s.ops[i := s.ops[i].(phase := Running)], mark := if s.ops[i].kind.Ordinary? then Some(i) else s.mark)
  }

  /** The `finally` block. */
  function Settle(s: State, i: nat, outcome: Outcome): State
    requires i < |s.ops|
  {
    s.(ops := s.ops[i := s.ops[i].(phase := Settled(outcome))], released := s.released + {Applied(i), Done(i)})
  }

  /** The body returned or threw. */
  function Finish(s: State, i: nat, threw: bool): State
    requires CanFinish(s, i)
  {
    Settle(s, i, if s.closed then Overtaken else if threw then Failure else Success)
  }

  /** A running body calls `markDescriptionApplied`. */
  function MarkApplied(s: State): State {
    if s.mark.Some? then s.(released := s.released + {Applied(s.mark.value)}) else s
  }

  function Close(s: State): State {
    s.(closed := true)
  }

  datatype Action =
    | EnqueueAction(kind: Kind)
    | ResumeAction(i: nat)
    | FinishAction(i: nat, threw: bool)
    | MarkAction(i: nat)
    | CloseAction

  predicate Enabled(s: State, a: Action) {
    match a
    case EnqueueAction(_) => true
    case ResumeAction(i) => CanResume(s, i)
    case FinishAction(i, _) => CanFinish(s, i)
    case MarkAction(i) => CanFinish(s, i) && s.ops[i].kind.Ordinary?
    case CloseAction => true
  }

  function Perform(s: State, a: Action): State
    requires Enabled(s, a)
  {
    match a
    case EnqueueAction(kind) => Enqueue(s, kind)
    case ResumeAction(i) => Resume(s, i)
    case FinishAction(i, threw) => Finish(s, i, threw)
    case MarkAction(i) => MarkApplied(s)
    case CloseAction => Close(s)
  }

  /** The fields of the connection that the chain lives in. */
  class DescriptionChain {
    var ops: seq<Operation>
    var descriptionTail: Tail
    var markDescriptionApplied: Option<nat>
    var released: set<Release>
    var isClosed: bool

    function Value(): State
      reads this
    {
      State(ops, descriptionTail, markDescriptionApplied, released, isClosed)
    }

    constructor ()
      ensures Value() == START
    {
      ops, descriptionTail, markDescriptionApplied, released, isClosed := [], Tail({}, {}), None, {}, false;
    }

    /** The synchronous part of a call; false where it throws because the connection is closed. */
    method Register(afterApplied: bool) returns (ok: bool)
      modifies this`ops, this`descriptionTail
      ensures Value() == Enqueue(old(Value()), if afterApplied then Candidate else Ordinary)
      ensures ok == !old(isClosed) == (|ops| == |old(ops)| + 1)
    {
      if isClosed {
        return false;
      }
      var previous := descriptionTail;
      var id := |ops|;
      descriptionTail :=
        if afterApplied then Tail(previous.done + {Done(id)}, previous.applied + {Done(id)})
        else Tail({Done(id)}, {Applied(id)});
      ops := ops + [Operation(if afterApplied then Candidate else Ordinary,
                              if afterApplied then previous.applied else previous.done, Waiting)];
      ok := true;
    }

    /** What runs when the awaited promise resolves, up to the body. */
    method Continue(i: nat)
      requires CanResume(Value(), i)
      modifies this
      ensures Value() == Resume(old(Value()), i)
    {
      if isClosed {
        Release(i, Overtaken);
      } else {
        if ops[i].kind.Ordinary? {
          markDescriptionApplied := Some(i);
        }
        ops := ops[i := ops[i].(phase := Running)];
      }
    }

    method Release(i: nat, outcome: Outcome)
      requires i < |ops|
      modifies this`ops, this`released
      ensures Value() == Settle(old(Value()), i, outcome)
    {
      released := released + {Applied(i)};
      released := released + {Done(i)};
      ops := ops[i := ops[i].(phase := Settled(outcome))];
      assert released == old(released) + {Applied(i), Done(i)};
    }

    method Complete(i: nat, threw: bool)
      requires CanFinish(Value(), i)
      modifies this
      ensures Value() == Finish(old(Value()), i, threw)
    {
      Release(i, if isClosed then Overtaken else if threw then Failure else Success);
    }
  }

  // What every run keeps

  predicate Started(o: Operation) {
    !o.phase.Waiting?
  }

  predicate IsSettled(s: State, i: nat) {
    i < |s.ops| && s.ops[i].phase.Settled?
  }

  /** The tail after the first `n` calls: the last ordinary one among them and the candidates since. */
  function TailAt(s: State, n: nat): Tail
    requires n <= |s.ops|
  {
    if n == 0 then Tail({}, {})
    else if s.ops[n - 1].kind.Ordinary? then Tail({Done(n - 1)}, {Applied(n - 1)})
    else
      var t := TailAt(s, n - 1);
      Tail(t.done + {Done(n - 1)}, t.applied + {Done(n - 1)})
  }

  ghost predicate Linked(s: State, i: nat)
    requires i < |s.ops|
  {
    s.ops[i].waits == if s.ops[i].kind.Candidate? then TailAt(s, i).applied else TailAt(s, i).done
  }

  ghost predicate ReleasedRight(s: State) {
    && (forall i: nat :: Done(i) in s.released <==> IsSettled(s, i))
    && (forall i: nat :: Applied(i) in s.released ==> i < |s.ops| && Started(s.ops[i]))
    && (forall i: nat :: IsSettled(s, i) ==> Applied(i) in s.released)
  }

  ghost predicate Inv(s: State) {
    && s.tail == TailAt(s, |s.ops|)
    && (forall i :: 0 <= i < |s.ops| ==> Linked(s, i))
    && (forall i :: 0 <= i < |s.ops| && Started(s.ops[i]) ==> s.ops[i].waits <= s.released)
    && ReleasedRight(s)
    && (forall i :: 0 <= i < |s.ops| && s.ops[i].kind.Ordinary? && s.ops[i].phase.Running? ==> s.mark == Some(i))
    && (s.mark.Some? ==> s.mark.value < |s.ops| && s.ops[s.mark.value].kind.Ordinary? && Started(s.ops[s.mark.value]))
  }

  ghost predicate IsRun(run: seq<State>) {
    && run != [] && run[0] == START
    && forall i :: 0 <= i < |run| - 1 ==> Next(run[i], run[i + 1])
  }

  ghost predicate Next(s: State, s': State) {
    exists a :: Enabled(s, a) && s' == Perform(s, a)
  }

  /** The tail depends on the kinds of the operations only. */
  lemma {:induction false} TailOfSameKinds(s: State, s': State, n: nat)
    requires n <= |s.ops| && n <= |s'.ops|
    requires forall i :: 0 <= i < n ==> s.ops[i].kind == s'.ops[i].kind
    ensures TailAt(s, n) == TailAt(s', n)
  {
    if n > 0 {
      TailOfSameKinds(s, s', n - 1);
    }
  }

  /** When `done` of the tail after `n` calls has resolved, all of them have settled. */
  lemma {:induction false} DoneMeansAllSettled(s: State, n: nat, i: nat)
    requires Inv(s) && i < n <= |s.ops| && TailAt(s, n).done <= s.released
    ensures IsSettled(s, i)
  {
    assert Done(n - 1) in TailAt(s, n).done;
    assert IsSettled(s, n - 1);
    if i < n - 1 {
      assert Linked(s, n - 1);
      DoneMeansAllSettled(s, n - 1, i);
    }
  }

  ghost predicate AppliedOrSettled(s: State, i: nat) {
    IsSettled(s, i) || (i < |s.ops| && s.ops[i].kind.Ordinary? && Applied(i) in s.released)
  }

  /** When `applied` has resolved, all have settled but for a last ordinary one that has applied. */
  lemma {:induction false} AppliedMeans(s: State, n: nat, i: nat)
    requires Inv(s) && i < n <= |s.ops| && TailAt(s, n).applied <= s.released
    ensures AppliedOrSettled(s, i)
  {
    if s.ops[n - 1].kind.Ordinary? {
      assert Applied(n - 1) in TailAt(s, n).applied;
      if i < n - 1 {
        assert Linked(s, n - 1);
        DoneMeansAllSettled(s, n - 1, i);
      }
    } else {
      assert Done(n - 1) in TailAt(s, n).applied;
      assert IsSettled(s, n - 1);
      if i < n - 1 {
        AppliedMeans(s, n - 1, i);
      }
    }
  }

  /** An ordinary operation has begun only if every earlier operation has settled. */
  lemma OrdinaryRunsAlone(s: State, i: nat, j: nat)
    requires Inv(s) && i < j < |s.ops| && s.ops[j].kind.Ordinary? && Started(s.ops[j])
    ensures IsSettled(s, i)
  {
    assert Linked(s, j);
    DoneMeansAllSettled(s, j, i);
  }

  /** A candidate operation has begun only if every earlier one has applied its description or settled. */
  lemma CandidateStartsAfterApplied(s: State, i: nat, j: nat)
    requires Inv(s) && i < j < |s.ops| && s.ops[j].kind.Candidate? && Started(s.ops[j])
    ensures AppliedOrSettled(s, i)
    ensures s.ops[i].kind.Candidate? ==> IsSettled(s, i)
  {
    assert Linked(s, j);
    AppliedMeans(s, j, i);
  }

  lemma NextKeepsInv(s: State, a: Action)
    requires Inv(s) && Enabled(s, a)
    ensures Inv(Perform(s, a))
  {
    match a
    case EnqueueAction(kind) => EnqueueKeepsInv(s, kind);
    case ResumeAction(i) =>
      if s.closed {
        SettleKeepsInv(s, i, Overtaken);
      } else {
        ResumeKeepsInv(s, i);
      }
    case FinishAction(i, threw) =>
      SettleKeepsInv(s, i, if s.closed then Overtaken else if threw then Failure else Success);
    case MarkAction(i) => SameOpsLinked(s, MarkApplied(s));
    case CloseAction => SameOpsLinked(s, Close(s));
  }

  lemma SameOpsLinked(s: State, s': State)
    requires |s.ops| <= |s'.ops|
    requires forall i :: 0 <= i < |s.ops| ==> s.ops[i].kind == s'.ops[i].kind && s.ops[i].waits == s'.ops[i].waits
    ensures forall i :: 0 <= i < |s.ops| && Linked(s, i) ==> Linked(s', i)
    ensures TailAt(s, |s.ops|) == TailAt(s', |s.ops|)
  {
    forall i | 0 <= i < |s.ops| && Linked(s, i)
      ensures Linked(s', i)
    {
      TailOfSameKinds(s, s', i);
    }
    TailOfSameKinds(s, s', |s.ops|);
  }

  lemma EnqueueKeepsInv(s: State, kind: Kind)
    requires Inv(s)
    ensures Inv(Enqueue(s, kind))
  {
    if !s.closed {
      var s' := Enqueue(s, kind);
      SameOpsLinked(s, s');
      assert Linked(s', |s.ops|);
      assert forall i: nat :: IsSettled(s', i) <==> IsSettled(s, i);
    }
  }

  lemma SettleKeepsInv(s: State, i: nat, outcome: Outcome)
    requires Inv(s) && (CanResume(s, i) || CanFinish(s, i))
    ensures Inv(Settle(s, i, outcome))
  {
    var s' := Settle(s, i, outcome);
    SameOpsLinked(s, s');
    assert forall k: nat :: IsSettled(s', k) <==> IsSettled(s, k) || k == i;
  }

  lemma ResumeKeepsInv(s: State, i: nat)
    requires Inv(s) && CanResume(s, i) && !s.closed
    ensures Inv(Resume(s, i))
  {
    var s' := Resume(s, i);
    SameOpsLinked(s, s');
    assert forall k: nat :: IsSettled(s', k) <==> IsSettled(s, k);
    if s.ops[i].kind.Ordinary? {
      forall k | 0 <= k < |s'.ops| && s'.ops[k].kind.Ordinary? && s'.ops[k].phase.Running?
        ensures k == i
      {
        assert Linked(s, i);
        if k < i {
          DoneMeansAllSettled(s, i, k);
        } else if k > i {
          OrdinaryRunsAlone(s, i, k);
        }
      }
    }
  }

  lemma {:induction false} RunKeepsInv(run: seq<State>, i: nat)
    requires IsRun(run) && i < |run|
    ensures Inv(run[i])
  {
    hide Inv, Perform, Enabled;
    if i == 0 {
      InvAtStart();
    } else {
      RunKeepsInv(run, i - 1);
      assert Next(run[i - 1], run[i]);
      var a :| Enabled(run[i - 1], a) && run[i] == Perform(run[i - 1], a);
      NextKeepsInv(run[i - 1], a);
    }
  }

  lemma InvAtStart()
    ensures Inv(START)
  {
  }

  // Theorems over runs

  /** Ordinary operations run one at a time, in call order, after everything called before them. */
  lemma OrdinaryOperationsAreSerial(run: seq<State>, t: nat, i: nat, j: nat)
    requires IsRun(run) && t < |run| && i < j < |run[t].ops|
    requires run[t].ops[j].kind.Ordinary? && Started(run[t].ops[j])
    ensures IsSettled(run[t], i)
  {
    RunKeepsInv(run, t);
    OrdinaryRunsAlone(run[t], i, j);
  }

  lemma CandidateOperationsWait(run: seq<State>, t: nat, i: nat, j: nat)
    requires IsRun(run) && t < |run| && i < j < |run[t].ops|
    requires run[t].ops[j].kind.Candidate? && Started(run[t].ops[j])
    ensures AppliedOrSettled(run[t], i)
    ensures run[t].ops[i].kind.Candidate? ==> IsSettled(run[t], i)
  {
    RunKeepsInv(run, t);
    CandidateStartsAfterApplied(run[t], i, j);
  }

  /** What a waiting operation waits for. */
  ghost predicate MayBegin(s: State, j: nat)
    requires j < |s.ops|
  {
    forall i: nat :: i < j ==>
      if s.ops[j].kind.Ordinary? then IsSettled(s, i)
      else AppliedOrSettled(s, i) && (s.ops[i].kind.Candidate? ==> IsSettled(s, i))
  }

  lemma {:induction false} AllAppliedReleases(s: State, n: nat)
    requires Inv(s) && n <= |s.ops|
    requires forall i: nat :: i < n ==> AppliedOrSettled(s, i) && (s.ops[i].kind.Candidate? ==> IsSettled(s, i))
    ensures TailAt(s, n).applied <= s.released
  {
    if n > 0 {
      AllAppliedReleases(s, n - 1);
      assert AppliedOrSettled(s, n - 1);
    }
  }

  /**
   An operation is held up by nothing else: a waiting ordinary one can take its turn exactly if all
   earlier calls have settled, a candidate one exactly if they have applied or settled and the
   candidate ones among them have settled.
   */
  lemma ResumesIff(run: seq<State>, t: nat, j: nat)
    requires IsRun(run) && t < |run| && j < |run[t].ops| && run[t].ops[j].phase.Waiting?
    ensures CanResume(run[t], j) <==> MayBegin(run[t], j)
  {
    hide IsRun;
    var s := run[t];
    RunKeepsInv(run, t);
    assert Linked(s, j);
    if MayBegin(s, j) {
      if s.ops[j].kind.Ordinary? {
        SettledPrefixReleases(s, j);
      } else {
        AllAppliedReleases(s, j);
      }
    }
    if CanResume(s, j) {
      forall i: nat | i < j
        ensures if s.ops[j].kind.Ordinary? then IsSettled(s, i)
                else AppliedOrSettled(s, i) && (s.ops[i].kind.Candidate? ==> IsSettled(s, i))
      {
        if s.ops[j].kind.Ordinary? {
          DoneMeansAllSettled(s, j, i);
        } else {
          AppliedMeans(s, j, i);
        }
      }
    }
  }

  /** The outcome of an operation is that of its body, unless `close` came first, and it is final. */
  lemma {:induction false} OutcomeIsOfTheBody(run: seq<State>, t: nat, u: nat, i: nat, threw: bool)
    requires IsRun(run) && t < u < |run| && CanFinish(run[t], i)
    requires run[t + 1] == Perform(run[t], FinishAction(i, threw))
    ensures i < |run[u].ops| && run[u].ops[i].phase.Settled?
    ensures var outcome := run[u].ops[i].phase.outcome;
            && (outcome.Overtaken? <==> run[t].closed)
            && (!run[t].closed ==> (outcome.Failure? <==> threw))
    ensures Done(i) in run[u].released && Applied(i) in run[u].released
    decreases u - t
  {
    hide Enabled;
    if t + 1 < u {
      OutcomeIsOfTheBody(run, t, u - 1, i, threw);
      assert Next(run[u - 1], run[u]);
      var a :| Enabled(run[u - 1], a) && run[u] == Perform(run[u - 1], a);
      SettledIsFinal(run[u - 1], a, i);
    }
  }

  lemma SettledIsFinal(s: State, a: Action, i: nat)
    requires Enabled(s, a) && IsSettled(s, i)
    ensures IsSettled(Perform(s, a), i) && Perform(s, a).ops[i] == s.ops[i]
    ensures s.released <= Perform(s, a).released
  {
  }

  /** The call a running ordinary operation makes releases its own `applied`, never another's. */
  lemma MarkReleasesTheRunningOperation(run: seq<State>, t: nat, i: nat)
    requires IsRun(run) && t < |run| && Enabled(run[t], MarkAction(i))
    ensures MarkApplied(run[t]) == run[t].(released := run[t].released + {Applied(i)})
  {
    RunKeepsInv(run, t);
  }

  /** Turns an operation may still take; one that is not registered yet has both to come. */
  function TurnsLeft(s: State, k: nat): nat {
    if k >= |s.ops| then 2
    else match s.ops[k].phase case Waiting => 2 case Running => 1 case Settled(_) => 0
  }

  /** The same for the operations before `n`. */
  function Work(s: State, n: nat): nat {
    if n == 0 then 0 else Work(s, n - 1) + TurnsLeft(s, n - 1)
  }

  /** An operation before `n` takes a turn in this step: its body begins, or it settles. */
  ghost predicate TakesTurn(s: State, s': State, n: nat) {
    exists k: nat :: k < n && k < |s.ops| && k < |s'.ops| && s.ops[k].phase != s'.ops[k].phase
  }

  /** How many of the first `t` steps are turns of operations before `n`. */
  ghost function Turns(run: seq<State>, n: nat, t: nat): nat
    requires t < |run|
  {
    if t == 0 then 0 else Turns(run, n, t - 1) + if TakesTurn(run[t - 1], run[t], n) then 1 else 0
  }

  lemma StepOfOne(s: State, a: Action, k: nat)
    requires Enabled(s, a)
    ensures TurnsLeft(Perform(s, a), k) <= TurnsLeft(s, k)
    ensures k < |s.ops| ==> k < |Perform(s, a).ops|
    ensures k < |s.ops| && s.ops[k].phase != Perform(s, a).ops[k].phase ==> TurnsLeft(Perform(s, a), k) < TurnsLeft(s, k)
  {
  }

  lemma {:induction false} StepOfWork(s: State, a: Action, n: nat)
    requires Enabled(s, a)
    ensures Work(Perform(s, a), n) <= Work(s, n)
    ensures TakesTurn(s, Perform(s, a), n) ==> Work(Perform(s, a), n) < Work(s, n)
    decreases n
  {
    hide Perform, Enabled, TurnsLeft;
    if n > 0 {
      StepOfWork(s, a, n - 1);
      StepOfOne(s, a, n - 1);
      if TakesTurn(s, Perform(s, a), n) && !TakesTurn(s, Perform(s, a), n - 1) {
        var k: nat :| k < n && k < |s.ops| && k < |Perform(s, a).ops| && s.ops[k].phase != Perform(s, a).ops[k].phase;
        assert k == n - 1;
      }
    }
  }

  lemma {:induction false} WorkAtStart(n: nat)
    ensures Work(START, n) == 2 * n
  {
    if n > 0 {
      WorkAtStart(n - 1);
    }
  }

  /**
   In any run, whatever is enqueued, marked or closed in between, the first `n` operations take
   at most two turns each; with `NoOperationIsStuck`, each of them settles if turns are taken.
   */
  lemma {:induction false} TurnsAreBounded(run: seq<State>, n: nat, t: nat)
    requires IsRun(run) && t < |run|
    ensures Turns(run, n, t) + Work(run[t], n) <= 2 * n
    decreases t
  {
    hide Perform, Enabled, Work, TakesTurn;
    if t == 0 {
      WorkAtStart(n);
    } else {
      TurnsAreBounded(run, n, t - 1);
      assert Next(run[t - 1], run[t]);
      var a :| Enabled(run[t - 1], a) && run[t] == Perform(run[t - 1], a);
      StepOfWork(run[t - 1], a, n);
    }
  }

  lemma {:induction false} SettledPrefixReleases(s: State, n: nat)
    requires Inv(s) && n <= |s.ops| && forall i :: 0 <= i < n ==> IsSettled(s, i)
    ensures TailAt(s, n).done <= s.released && TailAt(s, n).applied <= s.released
  {
    if n > 0 {
      SettledPrefixReleases(s, n - 1);
      assert IsSettled(s, n - 1);
    }
  }

  /** While an operation is unsettled, closed or not, some operation can take a turn: the first unsettled one. */
  lemma NoOperationIsStuck(run: seq<State>, t: nat, i: nat)
    requires IsRun(run) && t < |run| && i < |run[t].ops| && !IsSettled(run[t], i)
    ensures exists k :: 0 <= k <= i && (CanResume(run[t], k) || CanFinish(run[t], k))
  {
    var s := run[t];
    RunKeepsInv(run, t);
    var k := FirstUnsettled(s, i);
    SettledPrefixReleases(s, k);
    assert Linked(s, k);
    assert CanResume(s, k) || CanFinish(s, k);
  }

  lemma FirstUnsettled(s: State, i: nat) returns (k: nat)
    requires i < |s.ops| && !IsSettled(s, i)
    ensures k <= i && !IsSettled(s, k) && forall j :: 0 <= j < k ==> IsSettled(s, j)
  {
    k := 0;
    while IsSettled(s, k)
      invariant k <= i && forall j :: 0 <= j < k ==> IsSettled(s, j)
      decreases i - k
    {
      k := k + 1;
    }
  }

  /** What `close` leaves of an operation: as it was, or rejected as overtaken. */
  predicate OnlyOvertaken(s: State, s': State, i: nat) {
    && i < |s.ops| == |s'.ops|
    && (s'.ops[i].phase == s.ops[i].phase || (!s.ops[i].phase.Settled? && s'.ops[i].phase == Settled(Overtaken)))
  }

  /** In every run, after `close` nothing is registered, no body begins, and what settles is rejected. */
  lemma {:induction false} CloseOvertakes(run: seq<State>, t: nat, u: nat, i: nat)
    requires IsRun(run) && t <= u < |run| && run[t].closed && i < |run[t].ops|
    ensures run[u].closed && OnlyOvertaken(run[t], run[u], i)
    decreases u - t
  {
    hide Perform, Enabled;
    if t < u {
      CloseOvertakes(run, t, u - 1, i);
      assert Next(run[u - 1], run[u]);
      var a :| Enabled(run[u - 1], a) && run[u] == Perform(run[u - 1], a);
      ClosedStep(run[u - 1], a, i);
    }
  }

  lemma ClosedStep(s: State, a: Action, i: nat)
    requires s.closed && Enabled(s, a) && i < |s.ops|
    ensures Perform(s, a).closed && OnlyOvertaken(s, Perform(s, a), i)
  {
  }
}
