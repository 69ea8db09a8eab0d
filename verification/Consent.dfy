/**
 Consent freshness (section 5.1 of RFC 7675) in packages/ice/src/ice.ts: a session machine with
 an expiry timer, whose requests may be answered late, over timed runs.
 */
module Consent {
  import opened Wrappers

  datatype IceState = New | Completed | Connected | Disconnected | Failed | Closed

  /** The callback given to `setTimeout`, and when it is due. */
  datatype Timer = Timer(session: nat, due: nat)

  /** What the response to a consent request is compared with. */
  datatype Request = Request(session: nat, pair: nat, generation: nat, password: nat)

  /**
   The fields of `Connection` that the consent lifecycle reads or writes. Pairs and passwords are
   stood for by numbers; `loop` says whether the request loop of the current session is running.
   */
  datatype Agent = Agent(
    lite: bool, state: IceState, nominated: Option<nat>, generation: nat, password: nat,
    session: nat, consented: bool, timer: Option<Timer>, loop: bool)

  /** CONSENT_TIMEOUT, in milliseconds. */
  const CONSENT_TIMEOUT: nat := 30_000

  predicate Terminal(state: IceState) {
    state.Closed? || state.Failed?
  }

  function StopConsent(a: Agent): Agent {
    a.(session := a.session + 1, consented := false, timer := None, loop := false)
  }

  /** Starts a session; in a terminal state its loop ends at once, and clears the timer it set. */
  function QueryConsent(a: Agent, now: nat): Agent {
    if a.lite then a
    else
      var b := StopConsent(a);
      if Terminal(a.state) then b.(consented := true)
      else b.(consented := true, timer := Some(Timer(b.session, now + CONSENT_TIMEOUT)), loop := true)
  }

  predicate CanSendApplicationData(a: Agent) {
    a.nominated.Some? && !Terminal(a.state) && (a.lite || a.consented)
  }

  /** The response is for the current session, pair, remote generation and password. */
  predicate Accepts(a: Agent, r: Request) {
    && r.session == a.session && !Terminal(a.state)
    && a.nominated == Some(r.pair) && r.generation == a.generation && r.password == a.password
  }

  function ReceiveResponse(a: Agent, r: Request, now: nat): Agent {
    if !Accepts(a, r) then a
    else a.(consented := true, timer := Some(Timer(a.session, now + CONSENT_TIMEOUT)),
            state := if a.state.Disconnected? then Connected else a.state)
  }

  /** The expiry callback. */
  function Expire(a: Agent, t: Timer): Agent {
    var b := a.(timer := None);
    if t.session != a.session || Terminal(a.state) then b
    else b.(consented := false, session := a.session + 1, loop := false, state := Failed)
  }

  /** One turn of the request loop that does not send: it ends and clears the timer. */
  function EndLoop(a: Agent): Agent {
    a.(loop := false, timer := None)
  }

  function NextRequest(a: Agent): Request
    requires a.nominated.Some?
  {
    Request(a.session, a.nominated.value, a.generation, a.password)
  }

  /** The part of `checkComplete` that selects a pair. */
  function Nominate(a: Agent, pair: nat, now: nat): Agent {
    if a.nominated.Some? then a
    else
      var b := a.(nominated := Some(pair), consented := true);
      if !a.lite && (a.state.Connected? || a.state.Completed?) then QueryConsent(b, now) else b
  }

  /** The end of `connect`. */
  function Connect(a: Agent, now: nat): Agent {
    QueryConsent(a, now).(state := Connected)
  }

  /** `restart` and `restartRemote`. */
  function Restart(a: Agent): Agent {
    StopConsent(a.(generation := a.generation + 1, password := 0, state := New, nominated := None))
  }

  function ResetNominatedPair(a: Agent): Agent {
    StopConsent(a.(nominated := None))
  }

  /** The selected TCP connection was closed. */
  function ConnectionClosed(a: Agent): Agent {
    if a.nominated.None? || Terminal(a.state) then a else StopConsent(a).(state := Failed)
  }

  function Close(a: Agent): Agent {
    StopConsent(a.(state := Closed)).(nominated := None)
  }

  /** The connection as the object it is. */
  class Connection {
    const iceLite: bool
    var state: IceState
    var nominated: Option<nat>
    var remoteGeneration: nat
    var remotePassword: nat
    var consentSessionId: nat
    var consentFresh: bool
    var consentExpiryTimer: Option<Timer>
    var queryConsentLoop: bool

    ghost function Value(): Agent
      reads this
    {
      Agent(iceLite, state, nominated, remoteGeneration, remotePassword,
            consentSessionId, consentFresh, consentExpiryTimer, queryConsentLoop)
    }

    method StopConsentLifecycle()
      modifies this`consentSessionId, this`consentFresh, this`consentExpiryTimer, this`queryConsentLoop
      ensures Value() == StopConsent(old(Value()))
    {
      consentSessionId := consentSessionId + 1;
      consentFresh := false;
      if consentExpiryTimer != None {
        consentExpiryTimer := None;
      }
      queryConsentLoop := false;
    }

    method RefreshConsentExpiry(sessionId: nat, now: nat)
      modifies this`consentExpiryTimer
      ensures consentExpiryTimer ==
              if sessionId != consentSessionId then old(consentExpiryTimer)
              else Some(Timer(sessionId, now + CONSENT_TIMEOUT))
    {
      if sessionId != consentSessionId {
        return;
      }
      consentExpiryTimer := None;
      consentExpiryTimer := Some(Timer(sessionId, now + CONSENT_TIMEOUT));
    }

    /** The body of `queryConsent` up to its first suspension. */
    method StartConsent(now: nat)
      modifies this
      ensures Value() == QueryConsent(old(Value()), now)
    {
      if iceLite {
        return;
      }
      StopConsentLifecycle();
      var sessionId := consentSessionId;
      consentFresh := true;
      RefreshConsentExpiry(sessionId, now);
      queryConsentLoop := !Terminal(state);
      if !queryConsentLoop {
        consentExpiryTimer := None;
      }
    }

    method OnResponse(r: Request, now: nat)
      modifies this`consentFresh, this`consentExpiryTimer, this`state
      ensures Value() == ReceiveResponse(old(Value()), r, now)
    {
      if r.session != consentSessionId || Terminal(state) {
        return;
      }
      if nominated != Some(r.pair) {
        return;
      }
      if remoteGeneration != r.generation {
        return;
      }
      if remotePassword != r.password {
        return;
      }
      consentFresh := true;
      RefreshConsentExpiry(r.session, now);
      if state == Disconnected {
        state := Connected;
      }
    }

    method OnExpiry(t: Timer)
      requires consentExpiryTimer == Some(t)
      modifies this
      ensures Value() == Expire(old(Value()), t)
    {
      consentExpiryTimer := None;
      if t.session != consentSessionId {
        return;
      }
      if Terminal(state) {
        return;
      }
      consentFresh := false;
      consentSessionId := consentSessionId + 1;
      queryConsentLoop := false;
      state := Failed;
    }

    method MaySend() returns (ok: bool)
      ensures ok == CanSendApplicationData(Value())
    {
      if nominated.None? {
        return false;
      }
      if Terminal(state) {
        return false;
      }
      if iceLite {
        return true;
      }
      return consentFresh;
    }
  }

  // Timed runs

  /** An agent, the clock, and every consent request ever sent: any of them may still be answered. */
  datatype System = System(agent: Agent, now: nat, requests: set<Request>)

  datatype Event =
    | NominateEvent(pair: nat)
    | ConnectEvent
    | RestartEvent
    | ResetEvent
    | SetRemoteParamsEvent(password: nat)
    | GatheringEndsEvent
    | ConnectionClosedEvent
    | CloseEvent
    | LoopEvent
    | ResponseEvent(request: Request)
    | ExpiryEvent
    | TickEvent(elapsed: nat)

  /** Time does not pass a timer that is due. */
  predicate Enabled(s: System, e: Event) {
    match e
    case LoopEvent => s.agent.loop
    case ResponseEvent(r) => r in s.requests
    case ExpiryEvent => s.agent.timer.Some? && s.agent.timer.value.due <= s.now
    case TickEvent(d) => s.agent.timer.Some? ==> s.now + d <= s.agent.timer.value.due
    case GatheringEndsEvent => s.agent.state.New?
    case _ => true
  }

  function Step(s: System, e: Event): System
    requires Enabled(s, e)
  {
    var a := s.agent;
    match e
    case NominateEvent(pair) => s.(agent := Nominate(a, pair, s.now))
    case ConnectEvent => s.(agent := Connect(a, s.now))
    case RestartEvent => s.(agent := Restart(a))
    case ResetEvent => s.(agent := ResetNominatedPair(a))
    case SetRemoteParamsEvent(p) => s.(agent := a.(password := p))
    case GatheringEndsEvent => s.(agent := a.(state := Completed))
    case ConnectionClosedEvent => s.(agent := ConnectionClosed(a))
    case CloseEvent => s.(agent := Close(a))
    case LoopEvent =>
      if Terminal(a.state) || a.nominated.None? then s.(agent := EndLoop(a))
      else s.(requests := s.requests + {NextRequest(a)})
    case ResponseEvent(r) => s.(agent := ReceiveResponse(a, r, s.now))
    case ExpiryEvent => s.(agent := Expire(a, a.timer.value))
    case TickEvent(d) => s.(now := s.now + d)
  }

  ghost predicate IsRun(run: seq<System>, events: seq<Event>) {
    && |run| == |events| + 1 && Initial(run[0])
    && forall i :: 0 <= i < |events| ==> Enabled(run[i], events[i]) && run[i + 1] == Step(run[i], events[i])
  }

  predicate Initial(s: System) {
    var a := s.agent;
    a.state.New? && a.nominated.None? && !a.consented && a.timer.None? && !a.loop && s.requests == {}
  }

  /** The event begins a consent session, or is a valid response in the current one. */
  predicate Confirms(s: System, e: Event)
    requires Enabled(s, e)
  {
    match e
    case ResponseEvent(r) => Accepts(s.agent, r)
    case ConnectEvent => true
    case NominateEvent(_) => s.agent.nominated.None? && (s.agent.state.Connected? || s.agent.state.Completed?)
    case _ => false
  }

  /** `connect` does not finish in a state that is already failed or closed. */
  ghost predicate ConnectsAlive(run: seq<System>, events: seq<Event>)
    requires |run| == |events| + 1
  {
    forall i :: 0 <= i < |events| && events[i].ConnectEvent? ==> !Terminal(run[i].agent.state)
  }

  /** Only the current session has a timer, and no request is of a later one. */
  ghost predicate SessionInv(s: System) {
    var a := s.agent;
    && (a.timer.Some? ==> a.timer.value.session == a.session && s.now <= a.timer.value.due)
    && (a.timer.Some? && a.nominated.None? ==> a.state.Connected?)
    && (forall r :: r in s.requests ==> r.session <= a.session)
    && (a.lite ==> a.timer.None? && !a.loop && s.requests == {})
  }

  ghost predicate Inv(s: System) {
    var a := s.agent;
    && SessionInv(s)
    && (!a.lite && a.state.Connected? && a.nominated.Some? && a.consented ==> a.timer.Some?)
  }

  lemma StepKeepsSessionInv(s: System, e: Event)
    requires SessionInv(s) && Enabled(s, e)
    ensures SessionInv(Step(s, e))
  {
  }

  lemma {:induction false} RunKeepsSessionInv(run: seq<System>, events: seq<Event>, t: nat)
    requires IsRun(run, events) && t < |run|
    ensures SessionInv(run[t])
  {
    hide Step, Enabled;
    if t > 0 {
      RunKeepsSessionInv(run, events, t - 1);
      StepKeepsSessionInv(run[t - 1], events[t - 1]);
    }
  }

  lemma StepKeepsInv(s: System, e: Event)
    requires Inv(s) && Enabled(s, e) && (e.ConnectEvent? ==> !Terminal(s.agent.state))
    ensures Inv(Step(s, e))
  {
    StepKeepsSessionInv(s, e);
  }

  /** A step either leaves the timer and the pair it vouches for, or confirms consent now. */
  lemma TimerComesFromConfirmation(s: System, e: Event)
    requires Inv(s) && Enabled(s, e) && (e.ConnectEvent? ==> !Terminal(s.agent.state))
    requires Step(s, e).agent.timer.Some?
    ensures var a, b := s.agent, Step(s, e).agent;
            || (b.timer == a.timer && b.session == a.session && b.nominated == a.nominated)
            || (Confirms(s, e) && b.timer.value.due == s.now + CONSENT_TIMEOUT)
  {
  }

  lemma {:induction false} RunKeepsInv(run: seq<System>, events: seq<Event>, t: nat)
    requires IsRun(run, events) && ConnectsAlive(run, events) && t < |run|
    ensures Inv(run[t])
  {
    hide Inv, Step, Enabled;
    if t == 0 {
      InvAtStart(run[0]);
    } else {
      RunKeepsInv(run, events, t - 1);
      StepKeepsInv(run[t - 1], events[t - 1]);
    }
  }

  lemma InvAtStart(s: System)
    requires Initial(s)
    ensures Inv(s)
  {
  }

  /** The confirmation an armed timer goes back to. */
  lemma {:induction false} TimerHasEvidence(run: seq<System>, events: seq<Event>, t: nat) returns (k: nat)
    requires IsRun(run, events) && ConnectsAlive(run, events) && t < |run|
    requires run[t].agent.timer.Some?
    ensures k < t && Confirms(run[k], events[k])
    ensures run[t].agent.timer.value.due == run[k].now + CONSENT_TIMEOUT
    ensures run[k + 1].agent.session == run[t].agent.session && run[k + 1].agent.nominated == run[t].agent.nominated
    decreases t
  {
    hide Inv, Step, Enabled, Confirms;
    if t == 0 {
      assert false;
    }
    RunKeepsInv(run, events, t - 1);
    assert Enabled(run[t - 1], events[t - 1]) && run[t] == Step(run[t - 1], events[t - 1]);
    TimerComesFromConfirmation(run[t - 1], events[t - 1]);
    var a, b := run[t - 1].agent, run[t].agent;
    if b.timer == a.timer && b.session == a.session && b.nominated == a.nominated {
      k := TimerHasEvidence(run, events, t - 1);
    } else {
      k := t - 1;
    }
  }

  /**
   In every timed run, a connected full agent sends application data only if, within the last
   30 seconds, its current session began or got a valid response for the pair still selected.
   */
  lemma SendingNeedsFreshConsent(run: seq<System>, events: seq<Event>, t: nat) returns (k: nat)
    requires IsRun(run, events) && ConnectsAlive(run, events) && t < |run|
    requires !run[t].agent.lite && run[t].agent.state.Connected? && CanSendApplicationData(run[t].agent)
    ensures k < t && Confirms(run[k], events[k])
    ensures run[t].now - run[k].now <= CONSENT_TIMEOUT
    ensures run[k + 1].agent.session == run[t].agent.session && run[k + 1].agent.nominated == run[t].agent.nominated
  {
    RunKeepsInv(run, events, t);
    k := TimerHasEvidence(run, events, t);
  }

  /** Some confirmation of the session that is current at `t` lies less than 30 seconds before it. */
  ghost predicate RecentlyConfirmed(run: seq<System>, events: seq<Event>, t: nat)
    requires IsRun(run, events) && t < |run|
  {
    exists i: nat :: i < t && ConfirmsFor(run, events, i, t) && run[t].now < run[i].now + CONSENT_TIMEOUT
  }

  /** Event `i` confirms consent in the session that is current at `t`. */
  ghost predicate ConfirmsFor(run: seq<System>, events: seq<Event>, i: nat, t: nat)
    requires IsRun(run, events) && i < t < |run|
  {
    Confirms(run[i], events[i]) && run[i + 1].agent.session == run[t].agent.session
  }

  /** A step keeps the timer of a session, puts it 30 seconds from now, or clears it; a confirmation does not keep it. */
  lemma TimerMoves(s: System, e: Event)
    requires Enabled(s, e)
    ensures var a, s' := s.agent, Step(s, e);
            && s.now <= s'.now
            && (s'.agent.timer.Some? ==>
                  || s'.agent.timer.value.due == s.now + CONSENT_TIMEOUT
                  || (s'.agent.timer == a.timer && s'.agent.session == a.session && (Confirms(s, e) ==> a.lite)))
  {
  }

  /** In every run a confirmation arms the expiry 30 seconds ahead; one that begins a session starts its request loop. */
  lemma ConfirmationArms(run: seq<System>, events: seq<Event>, i: nat)
    requires IsRun(run, events) && i < |events| && Confirms(run[i], events[i])
    requires !run[i].agent.lite && !Terminal(run[i].agent.state)
    ensures var a := run[i + 1].agent;
            && a.timer == Some(Timer(a.session, run[i].now + CONSENT_TIMEOUT)) && a.consented
            && (events[i].ResponseEvent? <==> a.session == run[i].agent.session)
            && (!events[i].ResponseEvent? ==> a.loop && run[i].agent.session < a.session)
  {
    assert Enabled(run[i], events[i]) && run[i + 1] == Step(run[i], events[i]);
  }

  /** Every confirmation of a session puts its expiry off to 30 seconds later, and nothing brings it forward. */
  lemma {:induction false} ConfirmationsPutExpiryOff(run: seq<System>, events: seq<Event>, i: nat, t: nat)
    requires IsRun(run, events) && i < t < |run| && ConfirmsFor(run, events, i, t)
    requires run[t].agent.timer.Some?
    ensures run[t].agent.timer.value.due >= run[i].now + CONSENT_TIMEOUT
    decreases t
  {
    hide Step, Enabled, Confirms;
    var s, e := run[t - 1], events[t - 1];
    assert Enabled(s, e) && run[t] == Step(s, e);
    RunKeepsSessionInv(run, events, t - 1);
    TimeGoesOn(run, events, i, t - 1);
    TimerMoves(s, e);
    LiteHasNoTimer(s, e);
    if i < t - 1 && run[t].agent.timer == s.agent.timer && run[t].agent.session == s.agent.session {
      ConfirmationsPutExpiryOff(run, events, i, t - 1);
    }
  }

  lemma LiteHasNoTimer(s: System, e: Event)
    requires SessionInv(s) && Enabled(s, e)
    ensures s.agent.lite ==> Step(s, e).agent.timer.None?
  {
  }

  lemma {:induction false} TimeGoesOn(run: seq<System>, events: seq<Event>, i: nat, t: nat)
    requires IsRun(run, events) && i <= t < |run|
    ensures run[i].now <= run[t].now
    decreases t - i
  {
    hide Step, Enabled, Confirms;
    if i < t {
      TimeGoesOn(run, events, i, t - 1);
      TimerMoves(run[t - 1], events[t - 1]);
    }
  }

  /**
   The converse of `SendingNeedsFreshConsent`: consent expires only after 30 seconds in which
   the session was not confirmed once.
   */
  lemma ExpiryNeedsSilence(run: seq<System>, events: seq<Event>, t: nat)
    requires IsRun(run, events) && t < |events| && events[t].ExpiryEvent?
    ensures !RecentlyConfirmed(run, events, t)
  {
    hide Step, Confirms;
    RunKeepsSessionInv(run, events, t);
    assert Enabled(run[t], events[t]);
    forall i: nat | i < t && ConfirmsFor(run, events, i, t)
      ensures run[i].now + CONSENT_TIMEOUT <= run[t].now
    {
      ConfirmationsPutExpiryOff(run, events, i, t);
    }
  }

  /** A restart, a reset, a close, or the loss of the selected connection. */
  predicate EndsConsent(e: Event) {
    DropsPair(e) || e.ConnectionClosedEvent?
  }

  lemma SendingGoesOn(s: System, e: Event)
    requires Enabled(s, e) && CanSendApplicationData(s.agent) && !EndsConsent(e) && !e.ExpiryEvent?
    ensures CanSendApplicationData(Step(s, e).agent)
  {
  }

  /**
   While the session was confirmed within the last 30 seconds whenever its expiry is due, it
   does not expire, and data may be sent until a restart, a reset, a close or the loss of
   the connection.
   */
  lemma {:induction false} ConfirmedConsentStays(run: seq<System>, events: seq<Event>, i: nat, t: nat)
    requires IsRun(run, events) && i <= t < |run| && CanSendApplicationData(run[i].agent)
    requires forall k :: i <= k < t ==> !EndsConsent(events[k])
    requires forall k :: i <= k < t && Enabled(run[k], ExpiryEvent) ==> RecentlyConfirmed(run, events, k)
    ensures CanSendApplicationData(run[t].agent)
    ensures forall k :: i <= k < t ==> !events[k].ExpiryEvent?
    decreases t - i
  {
    hide Step, Enabled, RecentlyConfirmed, CanSendApplicationData, EndsConsent;
    if i < t {
      ConfirmedConsentStays(run, events, i, t - 1);
      assert Enabled(run[t - 1], events[t - 1]) && run[t] == Step(run[t - 1], events[t - 1]);
      if events[t - 1].ExpiryEvent? {
        ExpiryNeedsSilence(run, events, t - 1);
        assert false;
      }
      SendingGoesOn(run[t - 1], events[t - 1]);
    }
  }

  /** The connection failed: consent expired, or the selected connection was lost. */
  predicate Fails(e: Event) {
    e.ExpiryEvent? || e.ConnectionClosedEvent?
  }

  predicate Revives(e: Event) {
    e.NominateEvent? || e.ConnectEvent? || e.RestartEvent?
  }

  /** After a failure nothing is sent until a pair is selected, `connect` ends or the agent restarts. */
  lemma {:induction false} FailureStopsSending(run: seq<System>, events: seq<Event>, i: nat, t: nat)
    requires IsRun(run, events) && i < t < |run| && Fails(events[i])
    requires forall k :: i < k < t ==> !Revives(events[k])
    ensures !CanSendApplicationData(run[t].agent)
    ensures Terminal(run[t].agent.state) || run[t].agent.nominated.None?
    decreases t - i
  {
    hide Step, Enabled, CanSendApplicationData, Fails, Revives;
    assert Enabled(run[t - 1], events[t - 1]) && run[t] == Step(run[t - 1], events[t - 1]);
    RunKeepsSessionInv(run, events, t - 1);
    if t == i + 1 {
      FailsAtOnce(run[i], events[i]);
    } else {
      FailureStopsSending(run, events, i, t - 1);
      StaysFailed(run[t - 1], events[t - 1]);
    }
  }

  predicate Dead(a: Agent) {
    Terminal(a.state) || a.nominated.None?
  }

  lemma FailsAtOnce(s: System, e: Event)
    requires SessionInv(s) && Enabled(s, e) && Fails(e)
    ensures Dead(Step(s, e).agent) && !CanSendApplicationData(Step(s, e).agent)
  {
  }

  lemma StaysFailed(s: System, e: Event)
    requires SessionInv(s) && Enabled(s, e) && !Revives(e) && Dead(s.agent)
    ensures Dead(Step(s, e).agent) && !CanSendApplicationData(Step(s, e).agent)
  {
  }

  /**
   A restart recovers from whatever happened before: when a pair is then selected and `connect` ends, data may be
   sent, under an expiry 30 seconds ahead.
   */
  lemma RestartRecovers(run: seq<System>, events: seq<Event>, i: nat, pair: nat)
    requires IsRun(run, events) && i + 2 < |events|
    requires events[i].RestartEvent? && events[i + 1] == NominateEvent(pair) && events[i + 2].ConnectEvent?
    ensures var s := run[i + 3];
            && CanSendApplicationData(s.agent) && s.agent.nominated == Some(pair) && s.agent.state.Connected?
            && (!s.agent.lite ==> s.agent.timer == Some(Timer(s.agent.session, s.now + CONSENT_TIMEOUT)) && s.agent.loop)
            && run[i].agent.session < s.agent.session && run[i].agent.generation < s.agent.generation
  {
    assert run[i + 1] == Step(run[i], events[i]);
    assert run[i + 2] == Step(run[i + 1], events[i + 1]);
    assert run[i + 3] == Step(run[i + 2], events[i + 2]);
  }

  // Requests

  /** The request is of the current session only for the pair and the remote generation it was sent in. */
  ghost predicate RequestsMatch(s: System) {
    forall r :: r in s.requests && r.session == s.agent.session ==>
      s.agent.nominated == Some(r.pair) && r.generation == s.agent.generation
  }

  lemma StepKeepsRequests(s: System, e: Event)
    requires SessionInv(s) && RequestsMatch(s) && Enabled(s, e)
    ensures RequestsMatch(Step(s, e))
  {
    var s' := Step(s, e);
    forall r | r in s'.requests && r.session == s'.agent.session
      ensures s'.agent.nominated == Some(r.pair) && r.generation == s'.agent.generation
    {
      assert r in s.requests || r == NextRequest(s.agent);
    }
  }

  lemma {:induction false} RunKeepsRequests(run: seq<System>, events: seq<Event>, t: nat)
    requires IsRun(run, events) && t < |run|
    ensures RequestsMatch(run[t])
  {
    hide Step, Enabled;
    if t > 0 {
      RunKeepsRequests(run, events, t - 1);
      RunKeepsSessionInv(run, events, t - 1);
      StepKeepsRequests(run[t - 1], events[t - 1]);
    }
  }

  /**
   The response to a request ever sent confirms consent if and only if the session goes on, the
   agent is alive and the remote password is the one the request was sent with.
   */
  lemma ResponseConfirmsIff(run: seq<System>, events: seq<Event>, t: nat, r: Request)
    requires IsRun(run, events) && t < |run| && r in run[t].requests
    ensures Confirms(run[t], ResponseEvent(r)) <==>
            r.session == run[t].agent.session && !Terminal(run[t].agent.state) && r.password == run[t].agent.password
    ensures Confirms(run[t], ResponseEvent(r)) ==>
              var a := Step(run[t], ResponseEvent(r)).agent;
              CanSendApplicationData(a) && a.timer.Some? && a.timer.value.due == run[t].now + CONSENT_TIMEOUT
  {
    hide IsRun;
    RunKeepsRequests(run, events, t);
  }

  /** The request loop of a live session sends a request whose response would be accepted at once. */
  lemma LoopAsksForConsent(run: seq<System>, events: seq<Event>, t: nat)
    requires IsRun(run, events) && t < |events| && events[t].LoopEvent?
    requires !Terminal(run[t].agent.state) && run[t].agent.nominated.Some?
    ensures exists r :: r in run[t + 1].requests && Confirms(run[t + 1], ResponseEvent(r))
  {
    assert Enabled(run[t], events[t]) && run[t + 1] == Step(run[t], events[t]);
    var r := NextRequest(run[t].agent);
    assert r in run[t + 1].requests && Confirms(run[t + 1], ResponseEvent(r));
  }

  lemma {:induction false} SessionsOnlyGrow(run: seq<System>, events: seq<Event>, i: nat, t: nat)
    requires IsRun(run, events) && i <= t < |run|
    ensures run[i].agent.session <= run[t].agent.session
    decreases t - i
  {
    hide Step, Enabled;
    if i < t {
      SessionsOnlyGrow(run, events, i, t - 1);
      SessionGrows(run[t - 1], events[t - 1]);
    }
  }

  lemma SessionGrows(s: System, e: Event)
    requires Enabled(s, e)
    ensures s.agent.session <= Step(s, e).agent.session
  {
  }

  /** Once its session is over, the response to a request changes nothing, whenever it comes. */
  lemma LateResponsesChangeNothing(run: seq<System>, events: seq<Event>, i: nat, j: nat, t: nat, r: Request)
    requires IsRun(run, events) && i <= j <= t < |run|
    requires r in run[i].requests && run[i].agent.session < run[j].agent.session
    ensures ReceiveResponse(run[t].agent, r, run[t].now) == run[t].agent
  {
    RunKeepsSessionInv(run, events, i);
    SessionsOnlyGrow(run, events, j, t);
  }

  /** The timer of an earlier session never fires: only the current one is ever armed. */
  lemma OnlyTheCurrentSessionExpires(run: seq<System>, events: seq<Event>, t: nat)
    requires IsRun(run, events) && t < |run|
    ensures run[t].agent.timer.Some? ==> run[t].agent.timer.value.session == run[t].agent.session
  {
    RunKeepsSessionInv(run, events, t);
  }

  predicate DropsPair(e: Event) {
    e.RestartEvent? || e.ResetEvent? || e.CloseEvent?
  }

  /** After a restart, a reset or a close nothing is sent, and no session goes on, until a pair is selected again. */
  lemma {:induction false} NothingIsSentWithoutNewPair(run: seq<System>, events: seq<Event>, i: nat, t: nat)
    requires IsRun(run, events) && i < t < |run| && DropsPair(events[i])
    requires forall k :: i < k < t ==> !events[k].NominateEvent?
    ensures run[t].agent.nominated.None? && !CanSendApplicationData(run[t].agent)
    ensures run[i].agent.session < run[t].agent.session
    decreases t - i
  {
    hide Step, Enabled;
    assert Enabled(run[t - 1], events[t - 1]) && run[t] == Step(run[t - 1], events[t - 1]);
    if t == i + 1 {
      PairDropped(run[i], events[i]);
    } else {
      NothingIsSentWithoutNewPair(run, events, i, t - 1);
      StaysWithoutPair(run[t - 1], events[t - 1]);
    }
  }

  lemma PairDropped(s: System, e: Event)
    requires Enabled(s, e) && DropsPair(e)
    ensures Step(s, e).agent.nominated.None? && s.agent.session < Step(s, e).agent.session
  {
  }

  lemma StaysWithoutPair(s: System, e: Event)
    requires Enabled(s, e) && s.agent.nominated.None? && !e.NominateEvent?
    ensures Step(s, e).agent.nominated.None? && s.agent.session <= Step(s, e).agent.session
  {
  }

  // The exception

  /** The run, after `elapsed` more milliseconds. */
  function Later(s: System, elapsed: nat): System {
    s.(now := s.now + elapsed)
  }

  /**
   At the end of `connect` with a pair selected, some expiry bounds how long consent may go
   unconfirmed if and only if the state was not failed or closed by then; if it was, the run
   can go on for any time, and data may be sent at the end of it.
   */
  lemma ConnectIsGuardedIff(run: seq<System>, events: seq<Event>)
    requires IsRun(run, events) && events != [] && events[|events| - 1].ConnectEvent?
    requires !run[|events|].agent.lite && run[|events|].agent.nominated.Some?
    ensures var before, after := run[|events| - 1].agent, run[|events|];
            && ((exists d: nat :: !Enabled(after, TickEvent(d))) <==> !Terminal(before.state))
            && (Terminal(before.state) ==>
                  forall d: nat :: IsRun(run + [Later(after, d)], events + [TickEvent(d)]) &&
                                   CanSendApplicationData(Later(after, d).agent))
  {
    var n := |events|;
    var before, after := run[n - 1].agent, run[n];
    assert Enabled(run[n - 1], events[n - 1]) && run[n] == Step(run[n - 1], events[n - 1]);
    if !Terminal(before.state) {
      assert !Enabled(after, TickEvent(CONSENT_TIMEOUT + 1));
    } else {
      forall d: nat
        ensures IsRun(run + [Later(after, d)], events + [TickEvent(d)])
      {
        ExtendByTime(run, events, d);
      }
    }
  }

  lemma ExtendByTime(run: seq<System>, events: seq<Event>, d: nat)
    requires IsRun(run, events) && Enabled(run[|events|], TickEvent(d))
    ensures IsRun(run + [Later(run[|events|], d)], events + [TickEvent(d)])
  {
    hide Enabled;
    var run', events' := run + [Later(run[|events|], d)], events + [TickEvent(d)];
    forall i | 0 <= i < |events'|
      ensures Enabled(run'[i], events'[i]) && run'[i + 1] == Step(run'[i], events'[i])
    {
      assert i < |events| ==> run'[i] == run[i] && run'[i + 1] == run[i + 1] && events'[i] == events[i];
    }
  }

  /**
   The selected TCP connection closes between the nomination and the end of `connect`: the agent
   is connected, no timer runs, and data may be sent however long ago consent was given.
   */
  lemma ConnectAfterFailureNeverExpires(elapsed: nat) returns (run: seq<System>, events: seq<Event>)
    ensures IsRun(run, events)
    ensures var s := run[|run| - 1];
            s.agent.state.Connected? && !s.agent.lite && CanSendApplicationData(s.agent) && s.now == elapsed
    ensures forall i :: 0 <= i < |events| && Confirms(run[i], events[i]) ==> run[i].now == 0
  {
    var a := Agent(false, New, None, 1, 7, 0, false, None, false);
    var s0 := System(a, 0, {});
    events := [NominateEvent(1), ConnectionClosedEvent, ConnectEvent, TickEvent(elapsed)];
    var s1 := Step(s0, events[0]);
    var s2 := Step(s1, events[1]);
    var s3 := Step(s2, events[2]);
    var s4 := Step(s3, events[3]);
    run := [s0, s1, s2, s3, s4];
  }
}
