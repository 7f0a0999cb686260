/**
 The server's request pipeline (src/proxy.rs, `handle_server` under `proxy_handler`'s timeout) as a step
 system over any gates: any number of requests, their steps interleaved in any order, a timeout possible at
 every point.
 */
module Pipeline {
  import opened Basics
  import opened Config
  import opened Problems
  import opened RateLimiter

  // ---------------------------------------------------------------- requests and gates

  /** The peer chain is absent when the connection presented none. */
  datatype Request = Request(
    chain: Option<seq<string>>, method_: string, path: string, headers: Headers, requestId: string)

  /** What goes upstream. */
  datatype Outgoing = Outgoing(path: string, headers: Headers)

  /** What the gates produced for a request, with the clock readings used on the way. */
  datatype Ticket = Ticket(
    identity: PeerIdentity, found: RouteMatch, purpose: Option<string>, clockAt: Option<nat>, clockAge: Option<nat>)

  /** What the stages answer, each from what the ones before it produced. */
  datatype Gates = Gates(
    limit: u32,
    identify: Request -> Result<PeerIdentity, Problem>,
    route: (Request, PeerIdentity) -> Result<RouteMatch, Problem>,
    authorize: (Request, PeerIdentity, RouteMatch, Option<nat>, Option<nat>) -> Result<Option<string>, Problem>,
    outgoing: (Request, Ticket) -> Result<Outgoing, Problem>)

  /** Where a request stands; `k` is the position of its limiter call. */
  datatype Phase =
    | Arrived
    | Identified(identity: PeerIdentity)
    | Routed(identity: PeerIdentity, found: RouteMatch)
    | Authorized(ticket: Ticket)
    | Clocked(ticket: Ticket, now: nat)
    | AwaitingBody(ticket: Ticket, k: nat)
    | BodyRead(ticket: Ticket, k: nat)
    | AwaitingUpstream(ticket: Ticket, k: nat)
    | Closed(problem: Option<Problem>)

  /** The limiter's map, and the history: limiter calls in lock order with the request and ticket behind each,
      and the positions of the calls whose requests were sent upstream with what was sent. */
  datatype State = State(
    requests: map<nat, Request>, phases: map<nat, Phase>, windows: map<string, Window>,
    calls: seq<Call>, owners: seq<nat>, tickets: seq<Ticket>, forwards: seq<nat>, sent: seq<Outgoing>)

  datatype Step =
    | Arrive(id: nat, request: Request)
    | Identify(id: nat)
    | FindRoute(id: nat)
    | AuthorizePurpose(id: nat, clockAt: Option<nat>, clockAge: Option<nat>)
    | ReadClock(id: nat, now: nat)
    | CheckRate(id: nat, locked: nat)
    | ReadBody(id: nat, withinLimit: bool)
    | Send(id: nat, obstacle: Option<Problem>)
    | Finish(id: nat, problem: Option<Problem>)
    | Timeout(id: nat)

  const EMPTY := State(map[], map[], map[], [], [], [], [], [])

  function Move(s: State, id: nat, phase: Phase): State {
    s.(phases := s.phases[id := phase])
  }

  function Fail(s: State, id: nat, problem: Problem): State {
    Move(s, id, Closed(Some(problem)))
  }

  function IdentifyStep(g: Gates, s: State, id: nat, request: Request): State {
    match g.identify(request)
    case Err(problem) => Fail(s, id, problem)
    case Ok(identity) => Move(s, id, Identified(identity))
  }

  function RouteStep(g: Gates, s: State, id: nat, request: Request, identity: PeerIdentity): State {
    match g.route(request, identity)
    case Err(problem) => Fail(s, id, problem)
    case Ok(found) => Move(s, id, Routed(identity, found))
  }

  function AuthorizeStep(g: Gates, s: State, id: nat, request: Request, identity: PeerIdentity, found: RouteMatch,
                         clockAt: Option<nat>, clockAge: Option<nat>): State
  {
    match g.authorize(request, identity, found, clockAt, clockAge)
    case Err(problem) => Fail(s, id, problem)
    case Ok(purpose) => Move(s, id, Authorized(Ticket(identity, found, purpose, clockAt, clockAge)))
  }

  function CallFor(ticket: Ticket, stamp: Stamp): Call {
    Call(ticket.identity.value, ticket.found.route.id, stamp)
  }

  /** The limiter with the lock held; its clock reading is from before it waited for the lock. */
  function CheckStep(g: Gates, s: State, id: nat, ticket: Ticket, stamp: Stamp): State {
    var call := CallFor(ticket, stamp);
    var (windows, admitted) := RateLimiter.Step(s.windows, KeyOf(call), stamp.now, g.limit);
    var s' := s.(windows := windows, calls := s.calls + [call], owners := s.owners + [id],
                 tickets := s.tickets + [ticket]);
    if admitted then Move(s', id, AwaitingBody(ticket, |s.calls|)) else Fail(s', id, RateLimited)
  }

  function SendStep(g: Gates, s: State, id: nat, request: Request, t: Ticket, k: nat): State {
    match g.outgoing(request, t)
    case Err(problem) => Fail(s, id, problem)
    case Ok(outgoing) =>
      Move(s.(forwards := s.forwards + [k], sent := s.sent + [outgoing]), id, AwaitingUpstream(t, k))
  }

  /** One step; a step that does not apply changes nothing. */
  function Next(g: Gates, s: State, step: Step): State {
    if step.Arrive? then
      if step.id in s.requests then s
      else s.(requests := s.requests[step.id := step.request], phases := s.phases[step.id := Arrived])
    else if step.id !in s.requests || step.id !in s.phases then s
    else
      var request, phase := s.requests[step.id], s.phases[step.id];
      match (step, phase)
      case (Identify(id), Arrived) => IdentifyStep(g, s, id, request)
      case (FindRoute(id), Identified(identity)) => RouteStep(g, s, id, request, identity)
      case (AuthorizePurpose(id, clockAt, clockAge), Routed(identity, found)) =>
        AuthorizeStep(g, s, id, request, identity, found, clockAt, clockAge)
      case (ReadClock(id, now), Authorized(ticket)) => Move(s, id, Clocked(ticket, now))
      case (CheckRate(id, locked), Clocked(ticket, now)) => CheckStep(g, s, id, ticket, Stamp(now, locked))
      case (ReadBody(id, withinLimit), AwaitingBody(ticket, k)) =>
        if withinLimit then Move(s, id, BodyRead(ticket, k)) else Fail(s, id, BodyTooLarge)
      case (Send(id, obstacle), BodyRead(ticket, k)) =>
        if obstacle.Some? then Fail(s, id, obstacle.value) else SendStep(g, s, id, request, ticket, k)
      case (Finish(id, problem), AwaitingUpstream(_, _)) => Move(s, id, Closed(problem))
      case (Timeout(id), _) => if phase.Closed? then s else Fail(s, id, RequestTimeout)
      case _ => s
  }

  function Run(g: Gates, steps: seq<Step>): State {
    if steps == [] then EMPTY else Next(g, Run(g, steps[..|steps| - 1]), steps[|steps| - 1])
  }

  // ---------------------------------------------------------------- the invariant

  /** The request passed every gate before the limiter, with these results. */
  predicate Passed(g: Gates, request: Request, t: Ticket) {
    && g.identify(request) == Ok(t.identity)
    && g.route(request, t.identity) == Ok(t.found)
    && g.authorize(request, t.identity, t.found, t.clockAt, t.clockAge) == Ok(t.purpose)
  }

  /** Position `k` is an admitted call of request `id` under ticket `t`. */
  ghost predicate Backed(g: Gates, s: State, id: nat, t: Ticket, k: nat) {
    && k < |s.calls| == |s.owners| == |s.tickets|
    && s.owners[k] == id && s.tickets[k] == t
    && AdmittedAt(s.calls, g.limit, k)
  }

  ghost predicate PhaseOk(g: Gates, s: State, id: nat, request: Request, phase: Phase) {
    match phase
    case Arrived => id !in s.owners
    case Identified(identity) => id !in s.owners && g.identify(request) == Ok(identity)
    case Routed(identity, found) =>
      id !in s.owners && g.identify(request) == Ok(identity) && g.route(request, identity) == Ok(found)
    case Authorized(t) => id !in s.owners && Passed(g, request, t)
    case Clocked(t, _) => id !in s.owners && Passed(g, request, t)
    case AwaitingBody(t, k) => Backed(g, s, id, t, k) && k !in s.forwards
    case BodyRead(t, k) => Backed(g, s, id, t, k) && k !in s.forwards
    case AwaitingUpstream(t, k) => Backed(g, s, id, t, k)
    case Closed(_) => true
  }

  ghost predicate Distinct(xs: seq<nat>) {
    forall i, j :: 0 <= i < j < |xs| ==> xs[i] != xs[j]
  }

  /** The history: one call per request at most, each by a request that passed all earlier gates and under its
      identity and route; the map is what these calls made of it; each forward has its own admitted call. */
  ghost predicate HistoryOk(g: Gates, s: State) {
    && |s.calls| == |s.owners| == |s.tickets|
    && Distinct(s.owners) && Distinct(s.forwards)
    && s.windows == Windows(s.calls, g.limit)
    && (forall k :: 0 <= k < |s.calls| ==> CallOk(g, s, k))
    && (forall i :: 0 <= i < |s.forwards| ==> AdmittedAt(s.calls, g.limit, s.forwards[i]))
    && |s.sent| == |s.forwards| && (forall i :: 0 <= i < |s.sent| ==> SentOk(g, s, i))
  }

  /** Forward `i` is what the request and the ticket of its call give. */
  ghost predicate SentOk(g: Gates, s: State, i: nat)
    requires i < |s.sent| == |s.forwards|
  {
    var k := s.forwards[i];
    && k < |s.owners| == |s.tickets| && s.owners[k] in s.requests
    && g.outgoing(s.requests[s.owners[k]], s.tickets[k]) == Ok(s.sent[i])
  }

  ghost predicate CallOk(g: Gates, s: State, k: nat)
    requires k < |s.calls| == |s.owners| == |s.tickets|
  {
    && s.owners[k] in s.requests && Passed(g, s.requests[s.owners[k]], s.tickets[k])
    && s.calls[k] == CallFor(s.tickets[k], s.calls[k].stamp)
  }

  ghost predicate Inv(g: Gates, s: State) {
    && s.requests.Keys == s.phases.Keys
    && HistoryOk(g, s)
    && forall id :: id in s.requests ==> PhaseOk(g, s, id, s.requests[id], s.phases[id])
  }

  // ---------------------------------------------------------------- every step keeps it

  /** A longer history, with at least the same requests. */
  ghost predicate Extends(s: State, s': State) {
    && (forall x :: x in s.requests ==> x in s'.requests && s'.requests[x] == s.requests[x])
    && |s.owners| <= |s'.owners| == |s'.tickets| && |s.owners| == |s.tickets|
    && (forall k :: 0 <= k < |s.owners| ==> s'.owners[k] == s.owners[k] && s'.tickets[k] == s.tickets[k])
    && s.forwards <= s'.forwards && s.sent <= s'.sent
  }

  lemma SentCarries(g: Gates, s: State, s': State, i: nat)
    requires i < |s.sent| == |s.forwards| && |s'.sent| == |s'.forwards| && SentOk(g, s, i) && Extends(s, s')
    ensures SentOk(g, s', i)
  {
  }

  lemma MoveKeeps(g: Gates, s: State, id: nat, phase: Phase)
    requires Inv(g, s) && id in s.requests && PhaseOk(g, s, id, s.requests[id], phase)
    ensures Inv(g, Move(s, id, phase))
  {
    var s' := Move(s, id, phase);
    assert HistoryOk(g, s') by {
      forall k | 0 <= k < |s.calls| ensures CallOk(g, s', k) { assert CallOk(g, s, k); }
      forall i | 0 <= i < |s.sent| ensures SentOk(g, s', i) { SentCarries(g, s, s', i); }
    }
    forall x | x in s'.requests ensures PhaseOk(g, s', x, s'.requests[x], s'.phases[x]) {
      SameHistory(g, s, s', x, s'.requests[x], s'.phases[x]);
    }
  }

  /** A phase is judged by the history alone. */
  lemma SameHistory(g: Gates, s: State, s': State, id: nat, request: Request, phase: Phase)
    requires PhaseOk(g, s, id, request, phase)
    requires s'.calls == s.calls && s'.owners == s.owners && s'.tickets == s.tickets && s'.forwards == s.forwards
    ensures PhaseOk(g, s', id, request, phase)
  {
  }

  lemma OwnersAreRequests(g: Gates, s: State, id: nat)
    requires Inv(g, s) && id in s.owners
    ensures id in s.requests
  {
    var k :| 0 <= k < |s.owners| && s.owners[k] == id;
    assert CallOk(g, s, k);
  }

  lemma ArriveKeeps(g: Gates, s: State, id: nat, request: Request)
    requires Inv(g, s) && id !in s.requests
    ensures Inv(g, s.(requests := s.requests[id := request], phases := s.phases[id := Arrived]))
  {
    var s' := s.(requests := s.requests[id := request], phases := s.phases[id := Arrived]);
    if id in s.owners { OwnersAreRequests(g, s, id); }
    assert HistoryOk(g, s') by {
      forall k | 0 <= k < |s.calls| ensures CallOk(g, s', k) { assert CallOk(g, s, k); }
      forall i | 0 <= i < |s.sent| ensures SentOk(g, s', i) { SentCarries(g, s, s', i); }
    }
    forall x | x in s'.requests ensures PhaseOk(g, s', x, s'.requests[x], s'.phases[x]) {
      if x != id { SameHistory(g, s, s', x, s'.requests[x], s'.phases[x]); }
    }
  }

  lemma EarlierVerdict(calls: seq<Call>, calls': seq<Call>, limit: u32, k: nat)
    requires k < |calls| <= |calls'| && calls == calls'[..|calls|]
    ensures AdmittedAt(calls', limit, k) == AdmittedAt(calls, limit, k)
  {
    assert calls'[..k + 1] == calls[..k + 1];
  }

  /** One more call leaves what was known about earlier calls, and about other requests, as it was. */
  lemma LongerHistory(g: Gates, s: State, s': State, id: nat, x: nat, request: Request, phase: Phase)
    requires |s.calls| == |s.owners| == |s.tickets| && PhaseOk(g, s, x, request, phase) && x != id
    requires |s'.calls| == |s.calls| + 1 && s.calls == s'.calls[..|s.calls|]
    requires s'.owners == s.owners + [id] && |s'.tickets| == |s.tickets| + 1 && s.tickets == s'.tickets[..|s.tickets|]
    requires s'.forwards == s.forwards
    ensures PhaseOk(g, s', x, request, phase)
  {
    if phase.AwaitingBody? || phase.BodyRead? || phase.AwaitingUpstream? {
      EarlierVerdict(s.calls, s'.calls, g.limit, phase.k);
      assert s'.owners[phase.k] == s.owners[phase.k] && s'.tickets[phase.k] == s.tickets[phase.k];
    }
  }

  /** The state right after the limiter call, before the request moves on. */
  function Called(g: Gates, s: State, id: nat, ticket: Ticket, stamp: Stamp): State {
    var call := CallFor(ticket, stamp);
    s.(windows := RateLimiter.Step(s.windows, KeyOf(call), stamp.now, g.limit).0, calls := s.calls + [call],
       owners := s.owners + [id], tickets := s.tickets + [ticket], phases := s.phases[id := Closed(None)])
  }

  lemma CalledHistory(g: Gates, s: State, id: nat, ticket: Ticket, stamp: Stamp)
    requires HistoryOk(g, s) && id in s.requests && id !in s.owners && Passed(g, s.requests[id], ticket)
    ensures HistoryOk(g, Called(g, s, id, ticket, stamp))
  {
    var s' := Called(g, s, id, ticket, stamp);
    CalledWindows(g, s, id, ticket, stamp);
    CalledCalls(g, s, s', id, ticket, stamp);
    CalledForwards(g, s, s');
  }

  lemma CalledCalls(g: Gates, s: State, s': State, id: nat, ticket: Ticket, stamp: Stamp)
    requires HistoryOk(g, s) && id in s.requests && Passed(g, s.requests[id], ticket)
    requires s'.requests == s.requests && s'.calls == s.calls + [CallFor(ticket, stamp)]
    requires s'.owners == s.owners + [id] && s'.tickets == s.tickets + [ticket]
    ensures forall k :: 0 <= k < |s'.calls| ==> CallOk(g, s', k)
  {
    forall k | 0 <= k < |s'.calls| ensures CallOk(g, s', k) {
      if k < |s.calls| { assert CallOk(g, s, k); }
    }
  }

  lemma CalledForwards(g: Gates, s: State, s': State)
    requires HistoryOk(g, s) && Extends(s, s') && s'.forwards == s.forwards && s'.sent == s.sent
    requires |s'.calls| == |s.calls| + 1 && s.calls == s'.calls[..|s.calls|]
    ensures forall i :: 0 <= i < |s'.forwards| ==> AdmittedAt(s'.calls, g.limit, s'.forwards[i])
    ensures forall i :: 0 <= i < |s'.sent| ==> SentOk(g, s', i)
  {
    forall i | 0 <= i < |s'.forwards| ensures AdmittedAt(s'.calls, g.limit, s'.forwards[i]) {
      EarlierVerdict(s.calls, s'.calls, g.limit, s.forwards[i]);
    }
    forall i | 0 <= i < |s.sent| ensures SentOk(g, s', i) { SentCarries(g, s, s', i); }
  }

  lemma CalledWindows(g: Gates, s: State, id: nat, ticket: Ticket, stamp: Stamp)
    requires s.windows == Windows(s.calls, g.limit)
    ensures Called(g, s, id, ticket, stamp).windows == Windows(Called(g, s, id, ticket, stamp).calls, g.limit)
  {
    var calls := Called(g, s, id, ticket, stamp).calls;
    assert calls[..|calls| - 1] == s.calls;
  }

  lemma CalledKeeps(g: Gates, s: State, id: nat, ticket: Ticket, stamp: Stamp)
    requires Inv(g, s) && id in s.requests && id !in s.owners && Passed(g, s.requests[id], ticket)
    ensures Inv(g, Called(g, s, id, ticket, stamp))
  {
    var s' := Called(g, s, id, ticket, stamp);
    CalledHistory(g, s, id, ticket, stamp);
    assert s'.calls[..|s.calls|] == s.calls && s'.tickets[..|s.tickets|] == s.tickets;
    forall x | x in s'.requests ensures PhaseOk(g, s', x, s'.requests[x], s'.phases[x]) {
      if x != id { LongerHistory(g, s, s', id, x, s'.requests[x], s'.phases[x]); }
    }
  }

  /** Whether the limiter admitted the call, and the phase that follows. */
  function CheckedPhase(g: Gates, s: State, ticket: Ticket, stamp: Stamp): Phase {
    if RateLimiter.Step(s.windows, KeyOf(CallFor(ticket, stamp)), stamp.now, g.limit).1
    then AwaitingBody(ticket, |s.calls|) else Closed(Some(RateLimited))
  }

  lemma CheckIsCallThenMove(g: Gates, s: State, id: nat, ticket: Ticket, stamp: Stamp)
    ensures CheckStep(g, s, id, ticket, stamp) ==
            Move(Called(g, s, id, ticket, stamp), id, CheckedPhase(g, s, ticket, stamp))
  {
  }

  lemma CheckedPhaseOk(g: Gates, s: State, id: nat, request: Request, ticket: Ticket, stamp: Stamp)
    requires HistoryOk(g, s)
    ensures PhaseOk(g, Called(g, s, id, ticket, stamp), id, request, CheckedPhase(g, s, ticket, stamp))
  {
    var n, s' := |s.calls|, Called(g, s, id, ticket, stamp);
    assert s'.calls[..n + 1] == s'.calls && s'.calls[..|s'.calls| - 1] == s.calls;
    NewPositionIsUnsent(g, s);
  }

  lemma CheckKeeps(g: Gates, s: State, id: nat, stamp: Stamp)
    requires Inv(g, s) && id in s.requests && s.phases[id].Clocked?
    ensures Inv(g, CheckStep(g, s, id, s.phases[id].ticket, stamp))
  {
    var ticket := s.phases[id].ticket;
    assert PhaseOk(g, s, id, s.requests[id], s.phases[id]);
    CalledKeeps(g, s, id, ticket, stamp);
    CheckedPhaseOk(g, s, id, s.requests[id], ticket, stamp);
    CheckIsCallThenMove(g, s, id, ticket, stamp);
    MoveKeeps(g, Called(g, s, id, ticket, stamp), id, CheckedPhase(g, s, ticket, stamp));
  }

  lemma NewPositionIsUnsent(g: Gates, s: State)
    requires HistoryOk(g, s)
    ensures |s.calls| !in s.forwards
  {
  }

  lemma SendKeeps(g: Gates, s: State, id: nat)
    requires Inv(g, s) && id in s.requests && s.phases[id].BodyRead?
    ensures Inv(g, SendStep(g, s, id, s.requests[id], s.phases[id].ticket, s.phases[id].k))
  {
    var t, k := s.phases[id].ticket, s.phases[id].k;
    var outgoing := g.outgoing(s.requests[id], t);
    if outgoing.Err? {
      MoveKeeps(g, s, id, Closed(Some(outgoing.error)));
    } else {
      GoneOutKeeps(g, s, id, outgoing.value);
    }
  }

  /** The state after the request has gone out. */
  function GoneOut(s: State, id: nat, t: Ticket, k: nat, outgoing: Outgoing): State {
    Move(s.(forwards := s.forwards + [k], sent := s.sent + [outgoing]), id, AwaitingUpstream(t, k))
  }

  lemma GoneOutKeeps(g: Gates, s: State, id: nat, outgoing: Outgoing)
    requires Inv(g, s) && id in s.requests && s.phases[id].BodyRead?
    requires g.outgoing(s.requests[id], s.phases[id].ticket) == Ok(outgoing)
    ensures Inv(g, GoneOut(s, id, s.phases[id].ticket, s.phases[id].k, outgoing))
  {
    var t, k := s.phases[id].ticket, s.phases[id].k;
    var s' := GoneOut(s, id, t, k, outgoing);
    assert PhaseOk(g, s, id, s.requests[id], s.phases[id]);
    SentHistory(g, s, s', k, outgoing);
    forall x | x in s'.requests ensures PhaseOk(g, s', x, s'.requests[x], s'.phases[x]) {
      assert PhaseOk(g, s, x, s.requests[x], s.phases[x]);
      if x != id { OtherUnsent(g, s, s', id, k, x); }
    }
  }

  lemma SentHistory(g: Gates, s: State, s': State, k: nat, outgoing: Outgoing)
    requires HistoryOk(g, s) && AdmittedAt(s.calls, g.limit, k) && k !in s.forwards
    requires s.owners[k] in s.requests && g.outgoing(s.requests[s.owners[k]], s.tickets[k]) == Ok(outgoing)
    requires s' == s.(phases := s'.phases, forwards := s.forwards + [k], sent := s.sent + [outgoing])
    ensures HistoryOk(g, s')
  {
    forall j | 0 <= j < |s.calls| ensures CallOk(g, s', j) { assert CallOk(g, s, j); }
    forall i | 0 <= i < |s'.sent| ensures SentOk(g, s', i) {
      if i < |s.sent| { SentCarries(g, s, s', i); }
    }
  }

  lemma OtherUnsent(g: Gates, s: State, s': State, id: nat, k: nat, x: nat)
    requires x in s.requests && x in s.phases && PhaseOk(g, s, x, s.requests[x], s.phases[x]) && x != id
    requires k < |s.owners| && s.owners[k] == id
    requires s'.calls == s.calls && s'.owners == s.owners && s'.tickets == s.tickets && s'.forwards == s.forwards + [k]
    ensures PhaseOk(g, s', x, s.requests[x], s.phases[x])
  {
  }

  lemma IdentifyKeeps(g: Gates, s: State, id: nat)
    requires Inv(g, s) && id in s.requests && s.phases[id] == Arrived
    ensures Inv(g, IdentifyStep(g, s, id, s.requests[id]))
  {
    assert PhaseOk(g, s, id, s.requests[id], s.phases[id]);
    var s' := IdentifyStep(g, s, id, s.requests[id]);
    assert s' == Move(s, id, s'.phases[id]);
    MoveKeeps(g, s, id, s'.phases[id]);
  }

  lemma RouteKeeps(g: Gates, s: State, id: nat)
    requires Inv(g, s) && id in s.requests && s.phases[id].Identified?
    ensures Inv(g, RouteStep(g, s, id, s.requests[id], s.phases[id].identity))
  {
    assert PhaseOk(g, s, id, s.requests[id], s.phases[id]);
    var s' := RouteStep(g, s, id, s.requests[id], s.phases[id].identity);
    assert s' == Move(s, id, s'.phases[id]);
    MoveKeeps(g, s, id, s'.phases[id]);
  }

  lemma AuthorizeKeeps(g: Gates, s: State, id: nat, clockAt: Option<nat>, clockAge: Option<nat>)
    requires Inv(g, s) && id in s.requests && s.phases[id].Routed?
    ensures Inv(g, AuthorizeStep(g, s, id, s.requests[id], s.phases[id].identity, s.phases[id].found, clockAt, clockAge))
  {
    assert PhaseOk(g, s, id, s.requests[id], s.phases[id]);
    var s' := AuthorizeStep(g, s, id, s.requests[id], s.phases[id].identity, s.phases[id].found, clockAt, clockAge);
    assert s' == Move(s, id, s'.phases[id]);
    MoveKeeps(g, s, id, s'.phases[id]);
  }

  /** The steps that only move a request on, without touching the history. */
  lemma PlainStepsKeep(g: Gates, s: State, step: Step)
    requires Inv(g, s) && step.id in s.requests
    requires step.ReadClock? || step.ReadBody? || step.Finish? || step.Timeout?
    ensures Inv(g, Next(g, s, step))
  {
    var id := step.id;
    assert PhaseOk(g, s, id, s.requests[id], s.phases[id]);
    if Next(g, s, step) != s {
      MoveKeeps(g, s, id, Next(g, s, step).phases[id]);
    }
  }

  lemma SendStepsKeep(g: Gates, s: State, step: Step)
    requires Inv(g, s) && step.id in s.requests && step.Send?
    ensures Inv(g, Next(g, s, step))
  {
    var id := step.id;
    if s.phases[id].BodyRead? {
      if step.obstacle.Some? {
        MoveKeeps(g, s, id, Closed(Some(step.obstacle.value)));
      } else {
        SendKeeps(g, s, id);
      }
    }
  }

  lemma NextKeeps(g: Gates, s: State, step: Step)
    requires Inv(g, s)
    ensures Inv(g, Next(g, s, step))
  {
    var id := step.id;
    if id !in s.requests {
      if step.Arrive? { ArriveKeeps(g, s, id, step.request); }
    } else {
      match step
      case Identify(_) => if s.phases[id] == Arrived { IdentifyKeeps(g, s, id); }
      case FindRoute(_) => if s.phases[id].Identified? { RouteKeeps(g, s, id); }
      case AuthorizePurpose(_, clockAt, clockAge) => if s.phases[id].Routed? { AuthorizeKeeps(g, s, id, clockAt, clockAge); }
      case CheckRate(_, locked) => if s.phases[id].Clocked? { CheckKeeps(g, s, id, Stamp(s.phases[id].now, locked)); }
      case Send(_, _) => SendStepsKeep(g, s, step);
      case Arrive(_, _) =>
      case _ => PlainStepsKeep(g, s, step);
    }
  }

  lemma {:induction false} RunKeeps(g: Gates, steps: seq<Step>)
    ensures Inv(g, Run(g, steps))
  {
    if steps == [] {
    } else {
      RunKeeps(g, steps[..|steps| - 1]);
      NextKeeps(g, Run(g, steps[..|steps| - 1]), steps[|steps| - 1]);
    }
  }

  // ---------------------------------------------------------------- what holds of every run

  /** Counters move only for requests that passed every earlier gate, once each, under their own identity and route. */
  lemma CallsPassed(g: Gates, steps: seq<Step>, k: nat)
    requires k < |Run(g, steps).calls|
    ensures var s := Run(g, steps);
            && |s.calls| == |s.owners| == |s.tickets| && s.owners[k] in s.requests
            && Passed(g, s.requests[s.owners[k]], s.tickets[k])
            && s.calls[k].identity == s.tickets[k].identity.value
            && s.calls[k].routeId == s.tickets[k].found.route.id
            && (forall j :: 0 <= j < |s.calls| && j != k ==> s.owners[j] != s.owners[k])
            && s.windows == Windows(s.calls, g.limit)
  {
    RunKeeps(g, steps);
    assert CallOk(g, Run(g, steps), k);
  }

  /** Every forward is backed by an admission of its own and is what its own request and ticket give, in every
      interleaving; no two forwards share an admission or a request. */
  lemma ForwardsBacked(g: Gates, steps: seq<Step>, i: nat)
    requires i < |Run(g, steps).forwards|
    ensures var s := Run(g, steps);
            var k := s.forwards[i];
            && k < |s.calls| == |s.owners| == |s.tickets| && AdmittedAt(s.calls, g.limit, k)
            && s.owners[k] in s.requests && |s.sent| == |s.forwards|
            && g.outgoing(s.requests[s.owners[k]], s.tickets[k]) == Ok(s.sent[i])
    ensures var s := Run(g, steps);
            forall j :: 0 <= j < |s.forwards| && j != i ==>
              s.forwards[j] != s.forwards[i] && s.forwards[j] < |s.owners| && s.owners[s.forwards[j]] != s.owners[s.forwards[i]]
  {
    RunKeeps(g, steps);
    assert SentOk(g, Run(g, steps), i);
  }

  /** Forwards of one identity and route whose admission lies in [lo, hi). */
  function Sent(calls: seq<Call>, forwards: seq<nat>, identity: string, routeId: string, clock: Clock, lo: int, hi: int): nat {
    if forwards == [] then 0
    else
      var k := forwards[|forwards| - 1];
      Sent(calls, forwards[..|forwards| - 1], identity, routeId, clock, lo, hi) +
      if k < |calls| && OfPair(calls[k], identity, routeId, clock, lo, hi) then 1 else 0
  }

  lemma {:induction false} SentAreDistinctPositions(
    calls: seq<Call>, forwards: seq<nat>, identity: string, routeId: string, clock: Clock, lo: int, hi: int)
    returns (positions: set<nat>)
    requires Distinct(forwards) && forall i :: 0 <= i < |forwards| ==> forwards[i] < |calls|
    ensures forall k :: k in positions ==> k in forwards && k < |calls| && OfPair(calls[k], identity, routeId, clock, lo, hi)
    ensures |positions| == Sent(calls, forwards, identity, routeId, clock, lo, hi)
  {
    if forwards == [] {
      positions := {};
    } else {
      var n := |forwards| - 1;
      var k := forwards[n];
      positions := SentAreDistinctPositions(calls, forwards[..n], identity, routeId, clock, lo, hi);
      assert k !in forwards[..n];
      if OfPair(calls[k], identity, routeId, clock, lo, hi) {
        positions := positions + {k};
      }
    }
  }

  lemma SubsetIsSmaller(a: set<nat>, b: set<nat>)
    requires a <= b
    ensures |a| <= |b|
  {
    assert b == a + (b - a);
  }

  lemma SentAreAdmitted(g: Gates, s: State, identity: string, routeId: string, clock: Clock, lo: int, hi: int)
    requires HistoryOk(g, s)
    ensures Sent(s.calls, s.forwards, identity, routeId, clock, lo, hi) <=
            PairAdmissions(s.calls, g.limit, identity, routeId, clock, lo, hi)
  {
    var positions := SentAreDistinctPositions(s.calls, s.forwards, identity, routeId, clock, lo, hi);
    var all := AdmittedPositions(s.calls, g.limit, identity, routeId, clock, lo, hi);
    forall k | k in positions ensures k in all {
      var i :| 0 <= i < |s.forwards| && s.forwards[i] == k;
      assert AdmittedAt(s.calls, g.limit, k);
    }
    SubsetIsSmaller(positions, all);
    PositionsAreAdmissions(s.calls, g.limit, identity, routeId, clock, lo, hi);
  }

  /** The limiter's bound carries over to what leaves the server: of the requests admitted in any span of m
      minutes, fewer than (m + j + 1) * limit per identity and route are ever forwarded, where a clock reading is
      at most j minutes old when the limiter uses it. */
  lemma ForwardBound(g: Gates, steps: seq<Step>, identity: string, routeId: string, clock: Clock, lo: int, m: nat, j: nat)
    requires TimelyCalls(Run(g, steps).calls, clock, j * WINDOW)
    ensures var s := Run(g, steps);
            Sent(s.calls, s.forwards, identity, routeId, clock, lo, lo + m * WINDOW) <= Most(m + j + 1, g.limit)
  {
    var s := Run(g, steps);
    SentInRun(g, steps, identity, routeId, clock, lo, lo + m * WINDOW);
    SentBound(s.calls, s.forwards, g.limit, identity, routeId, clock, lo, m, j);
  }

  lemma SentInRun(g: Gates, steps: seq<Step>, identity: string, routeId: string, clock: Clock, lo: int, hi: int)
    ensures var s := Run(g, steps);
            Sent(s.calls, s.forwards, identity, routeId, clock, lo, hi) <=
            PairAdmissions(s.calls, g.limit, identity, routeId, clock, lo, hi)
  {
    RunKeeps(g, steps);
    SentAreAdmitted(g, Run(g, steps), identity, routeId, clock, lo, hi);
  }

  lemma SentBound(calls: seq<Call>, forwards: seq<nat>, limit: u32, identity: string, routeId: string,
                  clock: Clock, lo: int, m: nat, j: nat)
    requires TimelyCalls(calls, clock, j * WINDOW)
    requires Sent(calls, forwards, identity, routeId, clock, lo, lo + m * WINDOW) <=
             PairAdmissions(calls, limit, identity, routeId, clock, lo, lo + m * WINDOW)
    ensures Sent(calls, forwards, identity, routeId, clock, lo, lo + m * WINDOW) <= Most(m + j + 1, limit)
  {
    AdmissionBound(calls, limit, identity, routeId, clock, lo, m, j);
  }
}
