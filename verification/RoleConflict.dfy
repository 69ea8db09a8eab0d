/**
 ICE role conflicts (sections 7.2.5.1 and 7.3.1.1 of RFC 8445): two agents repair a clash
 of roles by their tie-breakers, over a network that loses, duplicates and reorders.

 Models the request handler, `switchRole` and the handling of error 487 in
 packages/ice/src/ice.ts.
 */
module RoleConflict {

  /** `changes` counts the role changes of an agent; nothing reads it. */
  datatype Agent = Agent(controlling: bool, tie: nat, lite: bool, changes: nat)

  /** An ICE-lite agent is always controlled. */
  function SwitchRole(a: Agent, controlling: bool): Agent {
    var c := controlling && !a.lite;
    a.(controlling := c, changes := a.changes + if c != a.controlling then 1 else 0)
  }

  datatype Answer = Success | RoleConflict487 | NoAnswer

  /** What an agent does with a check that carries the sender's role and tie-breaker. */
  function ReceiveCheck(a: Agent, controlling: bool, tie: nat): (Agent, Answer) {
    if a.controlling && controlling then
      if a.tie >= tie then (a, RoleConflict487) else (SwitchRole(a, false), Success)
    else if !a.controlling && !controlling then
      if a.lite || a.tie < tie then (a, RoleConflict487) else (SwitchRole(a, true), NoAnswer)
    else (a, Success)
  }

  /** What an agent does with a 487 answer to a check it sent in the role `controlling`. */
  function ReceiveConflict(a: Agent, controlling: bool): Agent {
    SwitchRole(a, !controlling)
  }

  /** The agent as an object; every pair of the check list is told the role. */
  class IceAgent {
    var iceControlling: bool
    var pairRoles: seq<bool>
    const tieBreaker: nat
    const iceLite: bool
    ghost var changes: nat

    ghost predicate Valid()
      reads this
    {
      && (iceLite ==> !iceControlling)
      && forall i :: 0 <= i < |pairRoles| ==> pairRoles[i] == iceControlling
    }

    ghost function State(): Agent
      reads this
    {
      Agent(iceControlling, tieBreaker, iceLite, changes)
    }

    constructor (controlling: bool, tie: nat, lite: bool)
      ensures Valid() && State() == Agent(controlling && !lite, tie, lite, 0) && pairRoles == []
    {
      iceControlling := controlling && !lite;
      pairRoles, tieBreaker, iceLite, changes := [], tie, lite, 0;
    }

    method SwitchTo(controlling: bool)
      requires Valid()
      modifies this
      ensures Valid() && State() == SwitchRole(old(State()), controlling) && |pairRoles| == |old(pairRoles)|
    {
      var role := if iceLite then false else controlling;
      changes := changes + if role != iceControlling then 1 else 0;
      iceControlling := role;
      for i := 0 to |pairRoles|
        invariant iceControlling == role && changes == SwitchRole(old(State()), controlling).changes
        invariant |pairRoles| == |old(pairRoles)|
        invariant forall j :: 0 <= j < i ==> pairRoles[j] == role
      {
        pairRoles := pairRoles[i := role];
      }
    }

    method HandleRequest(controlling: bool, tie: nat) returns (answer: Answer)
      requires Valid()
      modifies this
      ensures Valid() && (State(), answer) == ReceiveCheck(old(State()), controlling, tie)
    {
      if iceControlling && controlling {
        if tieBreaker >= tie {
          return RoleConflict487;
        }
        SwitchTo(false);
      } else if !iceControlling && !controlling {
        if iceLite || tieBreaker < tie {
          return RoleConflict487;
        }
        SwitchTo(true);
        return NoAnswer;
      }
      return Success;
    }

    method HandleConflict(controlling: bool)
      requires Valid()
      modifies this
      ensures Valid() && State() == ReceiveConflict(old(State()), controlling)
    {
      if !controlling {
        SwitchTo(true);
      } else {
        SwitchTo(false);
      }
    }
  }

  // Two agents

  datatype Side = Left | Right

  function Other(x: Side): Side {
    if x.Left? then Right else Left
  }

  datatype Msg =
    | Check(from: Side, controlling: bool, tie: nat)
    | Conflict(to: Side, controlling: bool)

  /** What was ever sent stays in `net`: it may arrive late, again, or never. */
  datatype System = System(left: Agent, right: Agent, net: set<Msg>)

  function At(s: System, x: Side): Agent {
    if x.Left? then s.left else s.right
  }

  function With(s: System, x: Side, a: Agent): System {
    if x.Left? then s.(left := a) else s.(right := a)
  }

  function SendCheck(s: System, x: Side): System
  {
    s.(net := s.net + {Check(x, At(s, x).controlling, At(s, x).tie)})
  }

  function DeliverCheck(s: System, m: Msg): System
    requires m.Check?
  {
    var y := Other(m.from);
    var (a, answer) := ReceiveCheck(At(s, y), m.controlling, m.tie);
    var s' := With(s, y, a);
    if answer == RoleConflict487 then s'.(net := s.net + {Conflict(m.from, m.controlling)}) else s'
  }

  function DeliverConflict(s: System, m: Msg): System
    requires m.Conflict?
  {
    With(s, m.to, ReceiveConflict(At(s, m.to), m.controlling))
  }

  ghost predicate Next(s: System, s': System) {
    || (exists x :: s' == SendCheck(s, x))
    || (exists m :: m in s.net && m.Check? && s' == DeliverCheck(s, m))
    || (exists m :: m in s.net && m.Conflict? && s' == DeliverConflict(s, m))
  }

  ghost predicate Initial(s: System) {
    s.net == {} && forall x :: At(s, x).changes == 0 && (At(s, x).lite ==> !At(s, x).controlling)
  }

  ghost predicate IsRun(run: seq<System>) {
    && run != [] && Initial(run[0])
    && forall i :: 0 <= i < |run| - 1 ==> Next(run[i], run[i + 1])
  }

  /** `w` should end up controlling: the larger tie-breaker of two full agents, or the full agent next to a lite one. */
  ghost predicate Prevails(s: System, w: Side)
  {
    !At(s, w).lite && (At(s, Other(w)).lite || At(s, w).tie > At(s, Other(w)).tie)
  }

  predicate Complementary(s: System)
  {
    At(s, Left).controlling != At(s, Right).controlling
  }

  /**
   The winner `w` only ever becomes controlling and the loser only ever becomes controlled; no
   message in flight says otherwise. `w0` and `l0` are the roles they began with.
   */
  ghost predicate Inv(s: System, w: Side, w0: bool, l0: bool) {
    && Prevails(s, w)
    && var W, L := At(s, w), At(s, Other(w));
       && (w0 ==> W.controlling) && (L.controlling ==> l0)
       && (L.lite ==> !l0)
       && W.changes == (if W.controlling == w0 then 0 else 1)
       && L.changes == (if L.controlling == l0 then 0 else 1)
       && (w0 != l0 ==> W.controlling == w0 && L.controlling == l0)
       && (forall m :: m in s.net ==> MsgOk(W, L, w, w0, l0, m))
  }

  ghost predicate MsgOk(W: Agent, L: Agent, w: Side, w0: bool, l0: bool, m: Msg) {
    match m
    case Check(from, c, tie) =>
      if from == w then tie == W.tie && (if c then W.controlling else !w0)
      else tie == L.tie && (if c then l0 else !L.controlling)
    case Conflict(to, c) =>
      if to == w then !c && !w0 && !L.controlling
      else if c then W.controlling && l0 else L.lite
  }

  lemma NextKeepsInv(s: System, s': System, w: Side, w0: bool, l0: bool)
    requires Inv(s, w, w0, l0) && Next(s, s')
    ensures Inv(s', w, w0, l0)
  {
    hide ReceiveCheck;
    if x :| s' == SendCheck(s, x) {
    } else if m :| m in s.net && m.Check? && s' == DeliverCheck(s, m) {
      DeliverCheckKeepsInv(s, m, w, w0, l0);
    } else {
      var m :| m in s.net && m.Conflict? && s' == DeliverConflict(s, m);
      DeliverConflictKeepsInv(s, m, w, w0, l0);
    }
  }

  lemma DeliverCheckKeepsInv(s: System, m: Msg, w: Side, w0: bool, l0: bool)
    requires Inv(s, w, w0, l0) && m in s.net && m.Check?
    ensures Inv(DeliverCheck(s, m), w, w0, l0)
  {
    assert MsgOk(At(s, w), At(s, Other(w)), w, w0, l0, m);
    var s' := DeliverCheck(s, m);
    forall x | x in s'.net
      ensures MsgOk(At(s', w), At(s', Other(w)), w, w0, l0, x)
    {
      if x in s.net {
        assert MsgOk(At(s, w), At(s, Other(w)), w, w0, l0, x);
      }
    }
  }

  lemma DeliverConflictKeepsInv(s: System, m: Msg, w: Side, w0: bool, l0: bool)
    requires Inv(s, w, w0, l0) && m in s.net && m.Conflict?
    ensures Inv(DeliverConflict(s, m), w, w0, l0)
  {
    assert MsgOk(At(s, w), At(s, Other(w)), w, w0, l0, m);
    var s' := DeliverConflict(s, m);
    forall x | x in s'.net
      ensures MsgOk(At(s', w), At(s', Other(w)), w, w0, l0, x)
    {
      assert MsgOk(At(s, w), At(s, Other(w)), w, w0, l0, x);
    }
  }

  lemma {:induction false} RunKeepsInv(run: seq<System>, i: nat, w: Side)
    requires IsRun(run) && i < |run| && Prevails(run[0], w)
    ensures Inv(run[i], w, At(run[0], w).controlling, At(run[0], Other(w)).controlling)
  {
    hide Next;
    if i > 0 {
      RunKeepsInv(run, i - 1, w);
      assert Next(run[i - 1], run[i]);
      NextKeepsInv(run[i - 1], run[i], w, At(run[0], w).controlling, At(run[0], Other(w)).controlling);
    }
  }

  /** In every run each agent changes role at most once. */
  lemma AtMostOneChange(run: seq<System>, i: nat, w: Side, x: Side)
    requires IsRun(run) && i < |run| && Prevails(run[0], w)
    ensures At(run[i], x).changes <= 1
  {
    RunKeepsInv(run, i, w);
    assert x == w || x == Other(w);
  }

  /** Roles that are complementary at some point of a run are the same at every later point. */
  lemma {:induction false} ComplementaryRolesStay(run: seq<System>, i: nat, j: nat, w: Side, x: Side)
    requires IsRun(run) && i <= j < |run| && Prevails(run[0], w) && Complementary(run[i])
    ensures At(run[j], x).controlling == At(run[i], x).controlling
    decreases j - i
  {
    hide Inv, Next, IsRun;
    if i < j {
      ComplementaryRolesStay(run, i, j - 1, w, Left);
      ComplementaryRolesStay(run, i, j - 1, w, Right);
      RunKeepsInv(run, j - 1, w);
      RunStep(run, j);
      SettledStays(run[j - 1], run[j], w, At(run[0], w).controlling, At(run[0], Other(w)).controlling);
      assert x == w || x == Other(w);
    }
  }

  lemma RunStep(run: seq<System>, j: nat)
    requires IsRun(run) && 0 < j < |run|
    ensures Next(run[j - 1], run[j])
  {
    hide Next;
  }

  lemma SettledStays(s: System, s': System, w: Side, w0: bool, l0: bool)
    requires Inv(s, w, w0, l0) && Next(s, s') && Complementary(s)
    ensures Inv(s', w, w0, l0)
    ensures At(s', w).controlling == At(s, w).controlling
    ensures At(s', Other(w)).controlling == At(s, Other(w)).controlling
  {
    NextKeepsInv(s, s', w, w0, l0);
    RolesAreMonotone(s, s', w, w0, l0);
  }

  ghost predicate Monotone(s: System, s': System, w: Side) {
    && (At(s, w).controlling ==> At(s', w).controlling)
    && (At(s', Other(w)).controlling ==> At(s, Other(w)).controlling)
  }

  lemma CheckIsMonotone(s: System, m: Msg, w: Side, w0: bool, l0: bool)
    requires Inv(s, w, w0, l0) && m in s.net && m.Check?
    ensures Monotone(s, DeliverCheck(s, m), w)
  {
    assert MsgOk(At(s, w), At(s, Other(w)), w, w0, l0, m);
  }

  lemma ConflictIsMonotone(s: System, m: Msg, w: Side, w0: bool, l0: bool)
    requires Inv(s, w, w0, l0) && m in s.net && m.Conflict?
    ensures Monotone(s, DeliverConflict(s, m), w)
  {
    assert MsgOk(At(s, w), At(s, Other(w)), w, w0, l0, m);
  }

  /** The winner never gives up control and the loser never takes it. */
  lemma RolesAreMonotone(s: System, s': System, w: Side, w0: bool, l0: bool)
    requires Inv(s, w, w0, l0) && Next(s, s')
    ensures Monotone(s, s', w)
  {
    hide Inv, DeliverCheck, DeliverConflict;
    if x :| s' == SendCheck(s, x) {
    } else if m :| m in s.net && m.Check? && s' == DeliverCheck(s, m) {
      CheckIsMonotone(s, m, w, w0, l0);
    } else {
      var m :| m in s.net && m.Conflict? && s' == DeliverConflict(s, m);
      ConflictIsMonotone(s, m, w, w0, l0);
    }
  }

  /** A run that began in conflict is still in it, or the larger tie-breaker is controlling. */
  lemma ConflictEndsWithWinner(run: seq<System>, i: nat, w: Side)
    requires IsRun(run) && i < |run| && Prevails(run[0], w)
    requires !Complementary(run[0])
    ensures Complementary(run[i]) ==> At(run[i], w).controlling && !At(run[i], Other(w)).controlling
  {
    RunKeepsInv(run, i, w);
    assert w == Left || w == Right;
  }

  /** A check sent now by `x`, its delivery, and the delivery of the 487 it draws, if any. */
  function Exchange(s: System, x: Side): System
  {
    var m := Check(x, At(s, x).controlling, At(s, x).tie);
    var s1 := DeliverCheck(SendCheck(s, x), m);
    var answer := ReceiveCheck(At(s, Other(x)), m.controlling, m.tie).1;
    if answer == RoleConflict487 then DeliverConflict(s1, Conflict(x, m.controlling)) else s1
  }

  /** Between full agents one completed exchange, started by either side, repairs the conflict. */
  lemma OneExchangeRepairs(run: seq<System>, i: nat, w: Side, x: Side)
    requires IsRun(run) && i < |run| && Prevails(run[0], w)
    requires !At(run[i], Left).lite && !At(run[i], Right).lite
    requires !Complementary(run[i])
    ensures var s' := Exchange(run[i], x);
            At(s', w).controlling && !At(s', Other(w)).controlling
  {
    RunKeepsInv(run, i, w);
    assert x == w || x == Other(w);
  }

  /**
   What the answer tells the sender of a check: 487, that the roles still clash; success, that they do
   not; and no answer comes exactly from an agent that takes control.
   */
  lemma AnswerTells(a: Agent, controlling: bool, tie: nat)
    requires a.lite ==> !a.controlling
    ensures var (a', answer) := ReceiveCheck(a, controlling, tie);
            && (answer == RoleConflict487 <==> a'.controlling == controlling)
            && (answer == NoAnswer <==> !a.controlling && a'.controlling)
            && (answer == RoleConflict487 ==> a' == a)
  {
  }

  /** Once the roles are complementary, every check sent from then on succeeds and changes nothing. */
  lemma SettledChecksSucceed(run: seq<System>, i: nat, j: nat, k: nat, w: Side, x: Side)
    requires IsRun(run) && i <= j <= k < |run| && Prevails(run[0], w) && Complementary(run[i])
    ensures ReceiveCheck(At(run[k], Other(x)), At(run[j], x).controlling, At(run[j], x).tie) ==
            (At(run[k], Other(x)), Success)
  {
    hide IsRun, Prevails;
    ComplementaryRolesStay(run, i, j, w, x);
    ComplementaryRolesStay(run, i, k, w, Other(x));
  }

  // Which pairs of agents settle

  function Start(a: Agent, b: Agent): System {
    System(a, b, {})
  }

  /** A lite agent begins controlled; nobody has changed role yet. */
  predicate Fresh(a: Agent) {
    a.changes == 0 && (a.lite ==> !a.controlling)
  }

  /** In every run that begins with `a` and `b`, no agent changes role twice. */
  ghost predicate Settles(a: Agent, b: Agent) {
    forall run, i: nat, x ::
      IsRun(run) && run[0] == Start(a, b) && i < |run| ==> Changes(run, i, x) <= 1
  }

  function Changes(run: seq<System>, i: nat, x: Side): nat
    requires i < |run|
  {
    At(run[i], x).changes
  }

  /** Full agents with one tie-breaker that begin in the same role. */
  predicate Tied(a: Agent, b: Agent) {
    !a.lite && !b.lite && a.tie == b.tie && a.controlling == b.controlling
  }

  /**
   For any two agents, full or lite: no run has an agent change role twice, unless both are
   full, begin in the same role and have equal tie-breakers.
   */
  lemma SettlesIff(a: Agent, b: Agent)
    requires Fresh(a) && Fresh(b)
    ensures Settles(a, b) <==> !Tied(a, b)
  {
    if Tied(a, b) {
      var run := EqualTieBreakersOscillate(a);
      assert Changes(run, |run| - 1, Right) == 2;
    } else {
      forall run, i: nat, x | IsRun(run) && run[0] == Start(a, b) && i < |run|
        ensures Changes(run, i, x) <= 1
      {
        UntiedSettle(run, i, x);
      }
    }
  }

  lemma UntiedSettle(run: seq<System>, i: nat, x: Side)
    requires IsRun(run) && i < |run| && !Tied(run[0].left, run[0].right)
    ensures At(run[i], x).changes <= 1
  {
    hide IsRun, Inv;
    if Prevails(run[0], Left) {
      AtMostOneChange(run, i, Left, x);
    } else if Prevails(run[0], Right) {
      AtMostOneChange(run, i, Right, x);
    } else {
      StillRun(run, i);
    }
  }

  /** Nobody prevails, and no conflict can arise: both are lite, or the roles are complementary. */
  ghost predicate Still(s: System, l0: bool, r0: bool) {
    && s.left.controlling == l0 && s.right.controlling == r0 && s.left.changes == 0 && s.right.changes == 0
    && (l0 != r0 || (s.left.lite && s.right.lite && !l0 && !r0))
    && forall m :: m in s.net ==> StillMsg(m, l0, r0)
  }

  predicate StillMsg(m: Msg, l0: bool, r0: bool) {
    match m
    case Check(from, c, _) => c == if from.Left? then l0 else r0
    case Conflict(_, c) => l0 == r0 && !c
  }

  lemma NextKeepsStill(s: System, s': System, l0: bool, r0: bool)
    requires Still(s, l0, r0) && Next(s, s')
    ensures Still(s', l0, r0)
  {
    if x :| s' == SendCheck(s, x) {
    } else if m :| m in s.net && m.Check? && s' == DeliverCheck(s, m) {
      assert StillMsg(m, l0, r0);
    } else {
      var m :| m in s.net && m.Conflict? && s' == DeliverConflict(s, m);
      assert StillMsg(m, l0, r0);
    }
  }

  lemma {:induction false} StillRun(run: seq<System>, i: nat)
    requires IsRun(run) && i < |run| && !Tied(run[0].left, run[0].right)
    requires !Prevails(run[0], Left) && !Prevails(run[0], Right)
    ensures Still(run[i], run[0].left.controlling, run[0].right.controlling)
  {
    hide Next;
    if i == 0 {
      assert At(run[0], Left) == run[0].left && At(run[0], Right) == run[0].right;
    } else {
      StillRun(run, i - 1);
      RunStep(run, i);
      NextKeepsStill(run[i - 1], run[i], run[0].left.controlling, run[0].right.controlling);
    }
  }

  /** With equal tie-breakers and roles both agents step aside, and one of them changes role twice. */
  lemma EqualTieBreakersOscillate(a: Agent) returns (run: seq<System>)
    requires Fresh(a) && !a.lite
    ensures forall b :: Fresh(b) && Tied(a, b) ==> b == a
    ensures IsRun(run) && run[0] == Start(a, a) && run[|run| - 1].right.changes == 2
  {
    if a.controlling {
      run := BothControlling(a);
    } else {
      run := BothControlled(a);
    }
  }

  lemma BothControlling(a: Agent) returns (run: seq<System>)
    requires Fresh(a) && !a.lite && a.controlling
    ensures IsRun(run) && run[0] == Start(a, a) && run[|run| - 1].right.changes == 2
  {
    hide Next, IsRun;
    var tie, b := a.tie, Agent(false, a.tie, false, 1);
    var fromLeft, fromRight := Check(Left, true, tie), Check(Right, true, tie);
    var toLeft, toRight := Conflict(Left, true), Conflict(Right, true);
    var s0 := Start(a, a);
    SendIsNext(s0, Left);
    var s1 := System(a, a, {fromLeft});
    SendIsNext(s1, Right);
    var s2 := System(a, a, {fromLeft} + {fromRight});
    CheckIsNext(s2, fromLeft);
    var s3 := System(a, a, s2.net + {toLeft});
    CheckIsNext(s3, fromRight);
    var s4 := System(a, a, s3.net + {toRight});
    ConflictIsNext(s4, toLeft);
    var s5 := System(b, a, s4.net);
    ConflictIsNext(s5, toRight);
    var s6 := System(b, b, s4.net);
    SendIsNext(s6, Left);
    var s7 := System(b, b, s6.net + {Check(Left, false, tie)});
    CheckIsNext(s7, Check(Left, false, tie));
    var s8 := System(b, a.(changes := 2), s7.net);
    assert s1 == SendCheck(s0, Left) && s2 == SendCheck(s1, Right) && s7 == SendCheck(s6, Left);
    run := BeginRun(s0);
    run := ExtendRun(run, s1);
    run := ExtendRun(run, s2);
    run := ExtendRun(run, s3);
    run := ExtendRun(run, s4);
    run := ExtendRun(run, s5);
    run := ExtendRun(run, s6);
    run := ExtendRun(run, s7);
    run := ExtendRun(run, s8);
  }

  lemma BothControlled(a: Agent) returns (run: seq<System>)
    requires Fresh(a) && !a.lite && !a.controlling
    ensures IsRun(run) && run[0] == Start(a, a) && run[|run| - 1].right.changes == 2
  {
    hide Next, IsRun;
    var tie, b := a.tie, Agent(true, a.tie, false, 1);
    var fromLeft, fromRight := Check(Left, false, tie), Check(Right, false, tie);
    var s0 := Start(a, a);
    SendIsNext(s0, Left);
    var s1 := System(a, a, {fromLeft});
    SendIsNext(s1, Right);
    var s2 := System(a, a, {fromLeft} + {fromRight});
    CheckIsNext(s2, fromLeft);
    var s3 := System(a, b, s2.net);
    CheckIsNext(s3, fromRight);
    var s4 := System(b, b, s2.net);
    SendIsNext(s4, Right);
    var s5 := System(b, b, s4.net + {Check(Right, true, tie)});
    CheckIsNext(s5, Check(Right, true, tie));
    var s6 := System(b, b, s5.net + {Conflict(Right, true)});
    ConflictIsNext(s6, Conflict(Right, true));
    var s7 := System(b, a.(changes := 2), s6.net);
    assert s1 == SendCheck(s0, Left) && s2 == SendCheck(s1, Right) && s5 == SendCheck(s4, Right);
    run := BeginRun(s0);
    run := ExtendRun(run, s1);
    run := ExtendRun(run, s2);
    run := ExtendRun(run, s3);
    run := ExtendRun(run, s4);
    run := ExtendRun(run, s5);
    run := ExtendRun(run, s6);
    run := ExtendRun(run, s7);
  }

  lemma BeginRun(s: System) returns (run: seq<System>)
    requires Initial(s)
    ensures IsRun(run) && run == [s]
  {
    run := [s];
  }

  lemma ExtendRun(run: seq<System>, s: System) returns (run': seq<System>)
    requires IsRun(run) && run != [] && Next(run[|run| - 1], s)
    ensures IsRun(run') && |run'| == |run| + 1 && run'[0] == run[0] && run'[|run|] == s
  {
    hide Next;
    run' := run + [s];
  }

  lemma SendIsNext(s: System, x: Side)
    ensures Next(s, SendCheck(s, x))
  {
  }

  lemma CheckIsNext(s: System, m: Msg)
    requires m in s.net && m.Check?
    ensures Next(s, DeliverCheck(s, m))
  {
  }

  lemma ConflictIsNext(s: System, m: Msg)
    requires m in s.net && m.Conflict?
    ensures Next(s, DeliverConflict(s, m))
  {
  }
}
