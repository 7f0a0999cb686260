/**
 How requests end in the pipeline: each by itself as a straight line says, and in every interleaving for a reason
 (src/proxy.rs, `handle_server` and `proxy_handler`).
 */
module Outcomes {
  import opened Basics
  import opened Config
  import opened Problems
  import opened RateLimiter
  import opened Pipeline

  // ---------------------------------------------------------------- one request by itself

  /** The state with the request added, in the given phase. */
  function At(s: State, id: nat, request: Request, phase: Phase): State {
    s.(requests := s.requests[id := request], phases := s.phases[id := phase])
  }

  lemma RunOn(g: Gates, steps: seq<Step>, step: Step, s: State, s': State)
    requires Run(g, steps) == s && Next(g, s, step) == s'
    ensures Run(g, steps + [step]) == s'
  {
    assert (steps + [step])[..|steps|] == steps;
  }

  type Outcome = Result<(Ticket, Outgoing), Problem>

  // What happens to a request that runs by itself, as one straight line: the stages in their order, the first
  // problem wins.
  function Straight(g: Gates, windows: map<string, Window>, request: Request, clockAt: Option<nat>, clockAge: Option<nat>,
                    stamp: Stamp, withinLimit: bool): Outcome
  {
    match g.identify(request)
    case Err(problem) => Err(problem)
    case Ok(identity) => StraightFrom(g, windows, request, identity, clockAt, clockAge, stamp, withinLimit)
  }

  function StraightFrom(g: Gates, windows: map<string, Window>, request: Request, identity: PeerIdentity,
                        clockAt: Option<nat>, clockAge: Option<nat>, stamp: Stamp, withinLimit: bool): Outcome
  {
    match g.route(request, identity)
    case Err(problem) => Err(problem)
    case Ok(found) =>
      match g.authorize(request, identity, found, clockAt, clockAge)
      case Err(problem) => Err(problem)
      case Ok(purpose) =>
        Limited(g, windows, request, Ticket(identity, found, purpose, clockAt, clockAge), stamp, withinLimit)
  }

  function Limited(g: Gates, windows: map<string, Window>, request: Request, t: Ticket, stamp: Stamp, withinLimit: bool): Outcome {
    if !RateLimiter.Step(windows, JoinKey(t.identity.value, t.found.route.id), stamp.now, g.limit).1 then Err(RateLimited)
    else if !withinLimit then Err(BodyTooLarge)
    else match g.outgoing(request, t)
      case Err(problem) => Err(problem)
      case Ok(outgoing) => Ok((t, outgoing))
  }

  function Then(g: Gates, s: State, steps: seq<Step>): State
    decreases |steps|
  {
    if steps == [] then s else Then(g, Next(g, s, steps[0]), steps[1..])
  }

  lemma ThenFirst(g: Gates, s: State, step: Step, rest: seq<Step>)
    ensures Then(g, s, [step] + rest) == Then(g, Next(g, s, step), rest)
  {
    assert ([step] + rest)[1..] == rest;
  }

  lemma {:induction false} RunThen(g: Gates, steps: seq<Step>, more: seq<Step>)
    ensures Run(g, steps + more) == Then(g, Run(g, steps), more)
    decreases |more|
  {
    if more == [] {
      assert steps + more == steps;
    } else {
      var next := steps + [more[0]];
      assert next[..|next| - 1] == steps;
      assert steps + more == next + more[1..];
      RunThen(g, next, more[1..]);
    }
  }

  /** A closed request takes no further step. */
  lemma {:induction false} ClosedStays(g: Gates, s: State, id: nat, steps: seq<Step>)
    requires id in s.requests && id in s.phases && s.phases[id].Closed? && forall i :: 0 <= i < |steps| ==> steps[i].id == id
    ensures Then(g, s, steps) == s
  {
    if steps == [] {
    } else {
      ClosedStays(g, s, id, steps[1..]);
    }
  }

  /** How the state shows the outcome of a request whose limiter call is at `k`: a problem closes it and sends
      nothing; otherwise it goes out. */
  predicate Sends(s: State, s': State, id: nat, k: nat, outcome: Outcome) {
    && id in s'.phases
    && match outcome
       case Err(problem) => s'.phases[id] == Closed(Some(problem)) && s'.forwards == s.forwards && s'.sent == s.sent
       case Ok(pair) =>
         && s'.phases[id] == AwaitingUpstream(pair.0, k)
         && s'.forwards == s.forwards + [k] && s'.sent == s.sent + [pair.1]
         && s'.calls == s.calls && s'.owners == s.owners && s'.tickets == s.tickets
  }

  /** The same for a request that has yet to call the limiter: what goes out goes out under its own call. */
  predicate Ended(s: State, s': State, id: nat, stamp: Stamp, outcome: Outcome) {
    && id in s'.phases
    && match outcome
       case Err(problem) => s'.phases[id] == Closed(Some(problem)) && s'.forwards == s.forwards && s'.sent == s.sent
       case Ok(pair) =>
         && s'.phases[id] == AwaitingUpstream(pair.0, |s.calls|)
         && s'.forwards == s.forwards + [|s.calls|] && s'.sent == s.sent + [pair.1]
         && s'.calls == s.calls + [CallFor(pair.0, stamp)] && s'.owners == s.owners + [id] && s'.tickets == s.tickets + [pair.0]
  }

  /** The steps from the limiter on. */
  function LastSteps(id: nat, stamp: Stamp, withinLimit: bool): seq<Step> {
    [CheckRate(id, stamp.locked)] + ([ReadBody(id, withinLimit)] + ([Send(id, None)] + []))
  }

  lemma EndSend(g: Gates, s: State, id: nat, t: Ticket, k: nat)
    requires id in s.requests && id in s.phases && s.phases[id] == BodyRead(t, k)
    ensures Sends(s, Then(g, s, [Send(id, None)] + []), id, k,
                  match g.outgoing(s.requests[id], t) case Err(p) => Err(p) case Ok(o) => Ok((t, o)))
  {
    ThenFirst(g, s, Send(id, None), []);
  }

  lemma EndLimited(g: Gates, s: State, id: nat, t: Ticket, stamp: Stamp, withinLimit: bool)
    requires id in s.requests && id in s.phases && s.phases[id] == Clocked(t, stamp.now)
    ensures Ended(s, Then(g, s, LastSteps(id, stamp, withinLimit)), id, stamp,
                  Limited(g, s.windows, s.requests[id], t, stamp, withinLimit))
  {
    var tail := [ReadBody(id, withinLimit)] + ([Send(id, None)] + []);
    var s1 := Next(g, s, CheckRate(id, stamp.locked));
    ThenFirst(g, s, CheckRate(id, stamp.locked), tail);
    assert s1 == CheckStep(g, s, id, t, stamp);
    if s1.phases[id].Closed? {
      ClosedStays(g, s1, id, tail);
    } else {
      EndBody(g, s1, id, t, |s.calls|, withinLimit);
    }
  }

  lemma EndBody(g: Gates, s: State, id: nat, t: Ticket, k: nat, withinLimit: bool)
    requires id in s.requests && id in s.phases && s.phases[id] == AwaitingBody(t, k)
    ensures Sends(s, Then(g, s, [ReadBody(id, withinLimit)] + ([Send(id, None)] + [])), id, k,
                  if !withinLimit then Err(BodyTooLarge)
                  else match g.outgoing(s.requests[id], t) case Err(p) => Err(p) case Ok(o) => Ok((t, o)))
  {
    var s1 := Next(g, s, ReadBody(id, withinLimit));
    ThenFirst(g, s, ReadBody(id, withinLimit), [Send(id, None)] + []);
    if withinLimit {
      assert s1 == Move(s, id, BodyRead(t, k));
      EndSend(g, s1, id, t, k);
    } else {
      ClosedStays(g, s1, id, [Send(id, None)] + []);
    }
  }

  /** The steps from the purpose on, and from the route on. */
  function PurposeSteps(id: nat, clockAt: Option<nat>, clockAge: Option<nat>, stamp: Stamp, withinLimit: bool): seq<Step> {
    [AuthorizePurpose(id, clockAt, clockAge)] + ([ReadClock(id, stamp.now)] + LastSteps(id, stamp, withinLimit))
  }

  lemma EndAuthorized(g: Gates, s: State, id: nat, t: Ticket, stamp: Stamp, withinLimit: bool)
    requires id in s.requests && id in s.phases && s.phases[id] == Authorized(t)
    ensures Ended(s, Then(g, s, [ReadClock(id, stamp.now)] + LastSteps(id, stamp, withinLimit)), id, stamp,
                  Limited(g, s.windows, s.requests[id], t, stamp, withinLimit))
  {
    var s1 := Move(s, id, Clocked(t, stamp.now));
    assert Next(g, s, ReadClock(id, stamp.now)) == s1;
    ThenFirst(g, s, ReadClock(id, stamp.now), LastSteps(id, stamp, withinLimit));
    EndLimited(g, s1, id, t, stamp, withinLimit);
  }

  lemma EndRouted(g: Gates, s: State, id: nat, identity: PeerIdentity, found: RouteMatch,
                  clockAt: Option<nat>, clockAge: Option<nat>, stamp: Stamp, withinLimit: bool)
    requires id in s.requests && id in s.phases && s.phases[id] == Routed(identity, found)
    ensures Ended(s, Then(g, s, PurposeSteps(id, clockAt, clockAge, stamp, withinLimit)), id, stamp,
                  match g.authorize(s.requests[id], identity, found, clockAt, clockAge)
                  case Err(p) => Err(p)
                  case Ok(purpose) =>
                    Limited(g, s.windows, s.requests[id], Ticket(identity, found, purpose, clockAt, clockAge), stamp, withinLimit))
  {
    var tail := [ReadClock(id, stamp.now)] + LastSteps(id, stamp, withinLimit);
    var s1 := Next(g, s, AuthorizePurpose(id, clockAt, clockAge));
    ThenFirst(g, s, AuthorizePurpose(id, clockAt, clockAge), tail);
    assert s1 == AuthorizeStep(g, s, id, s.requests[id], identity, found, clockAt, clockAge);
    if s1.phases[id].Closed? {
      ClosedStays(g, s1, id, tail);
    } else {
      EndAuthorized(g, s1, id, s1.phases[id].ticket, stamp, withinLimit);
    }
  }

  lemma EndIdentified(g: Gates, s: State, id: nat, identity: PeerIdentity, clockAt: Option<nat>, clockAge: Option<nat>,
                      stamp: Stamp, withinLimit: bool)
    requires id in s.requests && id in s.phases && s.phases[id] == Identified(identity)
    ensures Ended(s, Then(g, s, [FindRoute(id)] + PurposeSteps(id, clockAt, clockAge, stamp, withinLimit)), id, stamp,
                  StraightFrom(g, s.windows, s.requests[id], identity, clockAt, clockAge, stamp, withinLimit))
  {
    var tail := PurposeSteps(id, clockAt, clockAge, stamp, withinLimit);
    var s1 := Next(g, s, FindRoute(id));
    ThenFirst(g, s, FindRoute(id), tail);
    assert s1 == RouteStep(g, s, id, s.requests[id], identity);
    if s1.phases[id].Closed? {
      ClosedStays(g, s1, id, tail);
    } else {
      EndRouted(g, s1, id, identity, s1.phases[id].found, clockAt, clockAge, stamp, withinLimit);
    }
  }

  /** The steps of one request, from its arrival until it is sent. */
  function StraightSteps(id: nat, request: Request, clockAt: Option<nat>, clockAge: Option<nat>, stamp: Stamp,
                         withinLimit: bool): seq<Step> {
    [Arrive(id, request)] + ([Identify(id)] + ([FindRoute(id)] + PurposeSteps(id, clockAt, clockAge, stamp, withinLimit)))
  }

  lemma EndArrived(g: Gates, s: State, id: nat, clockAt: Option<nat>, clockAge: Option<nat>, stamp: Stamp, withinLimit: bool)
    requires id in s.requests && id in s.phases && s.phases[id] == Arrived
    ensures Ended(s, Then(g, s, [Identify(id)] + ([FindRoute(id)] + PurposeSteps(id, clockAt, clockAge, stamp, withinLimit))),
                  id, stamp, Straight(g, s.windows, s.requests[id], clockAt, clockAge, stamp, withinLimit))
  {
    var tail := [FindRoute(id)] + PurposeSteps(id, clockAt, clockAge, stamp, withinLimit);
    ThenFirst(g, s, Identify(id), tail);
    var s1 := Next(g, s, Identify(id));
    assert s1 == IdentifyStep(g, s, id, s.requests[id]);
    if s1.phases[id].Closed? {
      ClosedStays(g, s1, id, tail);
    } else {
      EndIdentified(g, s1, id, s1.phases[id].identity, clockAt, clockAge, stamp, withinLimit);
    }
  }

  /** After any run, a new request that then runs by itself ends as the straight line says: with the problem of the
      first stage that refuses it, or on its way upstream with what its own ticket gives. */
  lemma RunsStraight(g: Gates, steps: seq<Step>, id: nat, request: Request, clockAt: Option<nat>, clockAge: Option<nat>,
                     stamp: Stamp, withinLimit: bool)
    requires id !in Run(g, steps).requests
    ensures var s := Run(g, steps);
            Ended(s, Run(g, steps + StraightSteps(id, request, clockAt, clockAge, stamp, withinLimit)), id, stamp,
                  Straight(g, s.windows, request, clockAt, clockAge, stamp, withinLimit))
  {
    var s := Run(g, steps);
    RunThen(g, steps, StraightSteps(id, request, clockAt, clockAge, stamp, withinLimit));
    var s0 := At(s, id, request, Arrived);
    assert Next(g, s, Arrive(id, request)) == s0;
    ThenFirst(g, s, Arrive(id, request),
              [Identify(id)] + ([FindRoute(id)] + PurposeSteps(id, clockAt, clockAge, stamp, withinLimit)));
    EndArrived(g, s0, id, clockAt, clockAge, stamp, withinLimit);
  }

  /** The gates are all there is: after any run, a new request that passes them and whose call the limiter admits
      can go out at once, under its own admission. */
  lemma PassedIsForwarded(g: Gates, steps: seq<Step>, id: nat, request: Request, t: Ticket, stamp: Stamp)
    requires Passed(g, request, t) && id !in Run(g, steps).requests
    requires Admitted(Run(g, steps).calls + [CallFor(t, stamp)], g.limit) && g.outgoing(request, t).Ok?
    ensures var s, s' := Run(g, steps), Run(g, steps + StraightSteps(id, request, t.clockAt, t.clockAge, stamp, true));
            && s'.forwards == s.forwards + [|s.calls|] && s'.calls == s.calls + [CallFor(t, stamp)]
            && s'.owners == s.owners + [id] && s'.tickets == s.tickets + [t]
            && s'.sent == s.sent + [g.outgoing(request, t).value]
  {
    var s := Run(g, steps);
    RunKeeps(g, steps);
    assert (s.calls + [CallFor(t, stamp)])[..|s.calls|] == s.calls;
    PassedIsStraight(g, s.windows, request, t, stamp);
    RunsStraight(g, steps, id, request, t.clockAt, t.clockAge, stamp, true);
  }

  lemma PassedIsStraight(g: Gates, windows: map<string, Window>, request: Request, t: Ticket, stamp: Stamp)
    requires Passed(g, request, t) && g.outgoing(request, t).Ok?
    requires RateLimiter.Step(windows, KeyOf(CallFor(t, stamp)), stamp.now, g.limit).1
    ensures Straight(g, windows, request, t.clockAt, t.clockAge, stamp, true) == Ok((t, g.outgoing(request, t).value))
  {
  }

  // ---------------------------------------------------------------- interruptions

  /** A timeout closes any open request at once, and touches nothing else. */
  lemma TimeoutCloses(g: Gates, steps: seq<Step>, id: nat)
    ensures var s, s' := Run(g, steps), Run(g, steps + [Timeout(id)]);
            s' == if id in s.requests && id in s.phases && !s.phases[id].Closed?
                  then s.(phases := s.phases[id := Closed(Some(RequestTimeout))]) else s
  {
    RunOn(g, steps, Timeout(id), Run(g, steps), Next(g, Run(g, steps), Timeout(id)));
  }

  /** What is closed stays closed, whatever the others do, and is never sent again. */
  lemma {:induction false} ClosedIsFinal(g: Gates, steps: seq<Step>, more: seq<Step>, id: nat)
    requires id in Run(g, steps).requests && id in Run(g, steps).phases && Run(g, steps).phases[id].Closed?
    ensures var s, s' := Run(g, steps), Run(g, steps + more);
            && id in s'.requests && id in s'.phases && s'.phases[id] == s.phases[id] && |s.forwards| <= |s'.forwards|
            && forall i :: |s.forwards| <= i < |s'.forwards| ==> s'.forwards[i] < |s'.owners| && s'.owners[s'.forwards[i]] != id
    decreases |more|
  {
    if more == [] {
      assert steps + more == steps;
    } else {
      var n := |more| - 1;
      ClosedIsFinal(g, steps, more[..n], id);
      var before := steps + more[..n];
      assert steps + more == before + [more[n]];
      RunOn(g, before, more[n], Run(g, before), Next(g, Run(g, before), more[n]));
      RunKeeps(g, before);
      ClosedStep(g, Run(g, before), more[n], id);
    }
  }

  lemma ClosedStep(g: Gates, s: State, step: Step, id: nat)
    requires Inv(g, s) && id in s.requests && id in s.phases && s.phases[id].Closed?
    ensures var s' := Next(g, s, step);
            && id in s'.requests && id in s'.phases && s'.phases[id] == s.phases[id]
            && s.owners <= s'.owners && s.forwards <= s'.forwards
            && forall i :: |s.forwards| <= i < |s'.forwards| ==> s'.forwards[i] < |s'.owners| && s'.owners[s'.forwards[i]] != id
  {
    if step.Send? {
      SendOfAnother(g, s, step, id);
    } else {
      NoSendNoForward(g, s, step, id);
    }
  }

  lemma NoSendNoForward(g: Gates, s: State, step: Step, id: nat)
    requires !step.Send? && id in s.requests && id in s.phases && s.phases[id].Closed?
    ensures var s' := Next(g, s, step);
            && id in s'.requests && id in s'.phases && s'.phases[id] == s.phases[id]
            && s.owners <= s'.owners && s.forwards == s'.forwards
  {
  }

  lemma SendOfAnother(g: Gates, s: State, step: Step, id: nat)
    requires Inv(g, s) && step.Send? && id in s.requests && id in s.phases && s.phases[id].Closed?
    ensures var s' := Next(g, s, step);
            && id in s'.requests && id in s'.phases && s'.phases[id] == s.phases[id]
            && s.owners == s'.owners && s.forwards <= s'.forwards
            && forall i :: |s.forwards| <= i < |s'.forwards| ==> s'.forwards[i] < |s'.owners| && s'.owners[s'.forwards[i]] != id
  {
    if step.id in s.requests {
      assert PhaseOk(g, s, step.id, s.requests[step.id], s.phases[step.id]);
    }
  }

  // ---------------------------------------------------------------- every end has its reason

  /** A gate before the limiter refuses the request with this problem. */
  ghost predicate GateRefuses(g: Gates, request: Request, steps: seq<Step>, id: nat, problem: Problem) {
    || g.identify(request) == Err(problem)
    || (g.identify(request).Ok? && g.route(request, g.identify(request).value) == Err(problem))
    || exists clockAt, clockAge :: AuthorizePurpose(id, clockAt, clockAge) in steps &&
         PurposeRefuses(g, request, clockAt, clockAge, problem)
  }

  ghost predicate PurposeRefuses(g: Gates, request: Request, clockAt: Option<nat>, clockAge: Option<nat>, problem: Problem) {
    && g.identify(request).Ok? && g.route(request, g.identify(request).value).Ok?
    && g.authorize(request, g.identify(request).value, g.route(request, g.identify(request).value).value, clockAt, clockAge)
       == Err(problem)
  }

  /** The limiter refuses its call. */
  ghost predicate LimiterRefuses(g: Gates, s: State, id: nat) {
    exists k :: 0 <= k < |s.owners| && s.owners[k] == id && !AdmittedAt(s.calls, g.limit, k)
  }

  /** The request was admitted, and then its body was too large, or building or sending the forward met a problem. */
  ghost predicate SendRefuses(g: Gates, s: State, request: Request, steps: seq<Step>, id: nat, problem: Problem) {
    exists t, k :: Backed(g, s, id, t, k) && BlockedAfter(g, request, steps, id, t, problem)
  }

  ghost predicate BlockedAfter(g: Gates, request: Request, steps: seq<Step>, id: nat, t: Ticket, problem: Problem) {
    || (ReadBody(id, false) in steps && problem == BodyTooLarge)
    || (ReadBody(id, true) in steps && Send(id, Some(problem)) in steps)
    || (ReadBody(id, true) in steps && Send(id, None) in steps && g.outgoing(request, t) == Err(problem))
  }

  /** It was sent, and the upstream's answer ended it. */
  ghost predicate Answered(g: Gates, s: State, steps: seq<Step>, id: nat, problem: Option<Problem>) {
    Finish(id, problem) in steps && exists t, k :: Backed(g, s, id, t, k) && k in s.forwards
  }

  ghost predicate Reason(g: Gates, s: State, request: Request, steps: seq<Step>, id: nat, problem: Option<Problem>) {
    || (problem == Some(RequestTimeout) && Timeout(id) in steps)
    || (problem.Some? && GateRefuses(g, request, steps, id, problem.value))
    || (problem == Some(RateLimited) && LimiterRefuses(g, s, id))
    || (problem.Some? && SendRefuses(g, s, request, steps, id, problem.value))
    || Answered(g, s, steps, id, problem)
  }

  ghost predicate PhaseExplained(g: Gates, s: State, request: Request, steps: seq<Step>, id: nat, phase: Phase) {
    match phase
    case Closed(problem) => Reason(g, s, request, steps, id, problem)
    case BodyRead(_, _) => ReadBody(id, true) in steps
    case AwaitingUpstream(_, k) => ReadBody(id, true) in steps && k in s.forwards
    case _ => true
  }

  ghost predicate Explained(g: Gates, s: State, steps: seq<Step>) {
    && (forall id :: id in s.requests && id in s.phases ==> PhaseExplained(g, s, s.requests[id], steps, id, s.phases[id]))
    && (forall i :: 0 <= i < |s.forwards| && s.forwards[i] < |s.owners| ==> ReadBody(s.owners[s.forwards[i]], true) in steps)
  }

  /** Reasons outlast further steps of the run. */
  lemma ReasonCarries(g: Gates, s: State, s': State, request: Request, steps: seq<Step>, step: Step, id: nat, phase: Phase)
    requires PhaseExplained(g, s, request, steps, id, phase) && Extends(s, s') && s.calls <= s'.calls
    requires |s.calls| == |s.owners| && |s'.calls| == |s'.owners|
    ensures PhaseExplained(g, s', request, steps + [step], id, phase)
  {
    if phase.Closed? {
      LimiterCarries(g, s, s', id);
      BackedCarries(g, s, s', id);
    }
  }

  lemma LimiterCarries(g: Gates, s: State, s': State, id: nat)
    requires Extends(s, s') && s.calls <= s'.calls && |s.calls| == |s.owners| && |s'.calls| == |s'.owners|
    ensures LimiterRefuses(g, s, id) ==> LimiterRefuses(g, s', id)
  {
    if k :| 0 <= k < |s.owners| && s.owners[k] == id && !AdmittedAt(s.calls, g.limit, k) {
      EarlierVerdict(s.calls, s'.calls, g.limit, k);
      assert s'.owners[k] == id;
    }
  }

  lemma BackedCarries(g: Gates, s: State, s': State, id: nat)
    requires Extends(s, s') && s.calls <= s'.calls && |s.calls| == |s.owners| && |s'.calls| == |s'.owners|
    ensures forall t, k :: Backed(g, s, id, t, k) ==> Backed(g, s', id, t, k)
  {
    forall t, k | Backed(g, s, id, t, k) ensures Backed(g, s', id, t, k) {
      EarlierVerdict(s.calls, s'.calls, g.limit, k);
    }
  }

  /** Every step leaves a longer history. */
  lemma NextExtends(g: Gates, s: State, step: Step)
    requires Inv(g, s)
    ensures var s' := Next(g, s, step);
            && Extends(s, s') && s.calls <= s'.calls && |s.calls| == |s.owners| && |s'.calls| == |s'.owners|
            && forall x :: x in s.phases && x != step.id ==> x in s'.phases && s'.phases[x] == s.phases[x]
  {
    if step.Arrive? || step.id !in s.requests {
      ArrivalExtends(g, s, step);
    } else if step.CheckRate? {
      CheckExtends(g, s, step);
    } else {
      PlainExtends(g, s, step);
    }
  }

  lemma ArrivalExtends(g: Gates, s: State, step: Step)
    requires Inv(g, s) && (step.Arrive? || step.id !in s.requests)
    ensures var s' := Next(g, s, step);
            && Extends(s, s') && s.calls == s'.calls && s.owners == s'.owners
            && forall x :: x in s.phases && x != step.id ==> x in s'.phases && s'.phases[x] == s.phases[x]
  {
  }

  lemma CheckExtends(g: Gates, s: State, step: Step)
    requires Inv(g, s) && step.id in s.requests && step.CheckRate?
    ensures var s' := Next(g, s, step);
            && Extends(s, s') && s.calls <= s'.calls && |s'.calls| == |s'.owners|
            && forall x :: x in s.phases && x != step.id ==> x in s'.phases && s'.phases[x] == s.phases[x]
  {
    if s.phases[step.id].Clocked? {
      var t, stamp := s.phases[step.id].ticket, Stamp(s.phases[step.id].now, step.locked);
      assert Next(g, s, step) == CheckStep(g, s, step.id, t, stamp);
    }
  }

  /** The other steps leave requests and limiter calls alone. */
  lemma PlainExtends(g: Gates, s: State, step: Step)
    requires !step.Arrive? && !step.CheckRate?
    ensures var s' := Next(g, s, step);
            && s'.requests == s.requests && s'.calls == s.calls && s'.owners == s.owners && s'.tickets == s.tickets
            && s.forwards <= s'.forwards && s.sent <= s'.sent
            && forall x :: x in s.phases && x != step.id ==> x in s'.phases && s'.phases[x] == s.phases[x]
  {
  }

  lemma GateStepExplained(g: Gates, s: State, steps: seq<Step>, step: Step)
    requires Inv(g, s) && step.id in s.requests && PhaseExplained(g, s, s.requests[step.id], steps, step.id, s.phases[step.id])
    requires step.Identify? || step.FindRoute? || step.AuthorizePurpose? || step.ReadClock?
    ensures var s' := Next(g, s, step);
            PhaseExplained(g, s', s.requests[step.id], steps + [step], step.id, s'.phases[step.id])
  {
    NextExtends(g, s, step);
    assert PhaseOk(g, s, step.id, s.requests[step.id], s.phases[step.id]);
    assert step in steps + [step];
    if Next(g, s, step).phases[step.id] == s.phases[step.id] {
      ReasonCarries(g, s, Next(g, s, step), s.requests[step.id], steps, step, step.id, s.phases[step.id]);
    }
  }

  lemma CheckStepExplained(g: Gates, s: State, steps: seq<Step>, step: Step)
    requires Inv(g, s) && step.id in s.requests && PhaseExplained(g, s, s.requests[step.id], steps, step.id, s.phases[step.id])
    requires step.CheckRate?
    ensures var s' := Next(g, s, step);
            PhaseExplained(g, s', s.requests[step.id], steps + [step], step.id, s'.phases[step.id])
  {
    var s' := Next(g, s, step);
    NextExtends(g, s, step);
    if s.phases[step.id].Clocked? {
      var n := |s.calls|;
      assert s'.calls[..n + 1] == s'.calls && s'.calls[..n] == s.calls;
      assert s'.owners[n] == step.id;
    } else {
      ReasonCarries(g, s, s', s.requests[step.id], steps, step, step.id, s.phases[step.id]);
    }
  }

  lemma LaterStepExplained(g: Gates, s: State, steps: seq<Step>, step: Step)
    requires Inv(g, s) && step.id in s.requests && PhaseExplained(g, s, s.requests[step.id], steps, step.id, s.phases[step.id])
    requires step.ReadBody? || step.Finish? || step.Timeout?
    ensures var s' := Next(g, s, step);
            PhaseExplained(g, s', s.requests[step.id], steps + [step], step.id, s'.phases[step.id])
  {
    var s' := Next(g, s, step);
    NextExtends(g, s, step);
    assert PhaseOk(g, s, step.id, s.requests[step.id], s.phases[step.id]);
    assert step in steps + [step];
    BackedCarries(g, s, s', step.id);
    if s'.phases[step.id] == s.phases[step.id] {
      ReasonCarries(g, s, s', s.requests[step.id], steps, step, step.id, s.phases[step.id]);
    }
  }

  lemma SendStepExplained(g: Gates, s: State, steps: seq<Step>, step: Step)
    requires Inv(g, s) && step.id in s.requests && PhaseExplained(g, s, s.requests[step.id], steps, step.id, s.phases[step.id])
    requires step.Send?
    ensures var s' := Next(g, s, step);
            PhaseExplained(g, s', s.requests[step.id], steps + [step], step.id, s'.phases[step.id])
  {
    var s' := Next(g, s, step);
    NextExtends(g, s, step);
    if s.phases[step.id].BodyRead? {
      SentExplained(g, s, s', steps, step);
    } else {
      ReasonCarries(g, s, s', s.requests[step.id], steps, step, step.id, s.phases[step.id]);
    }
  }

  lemma SentExplained(g: Gates, s: State, s': State, steps: seq<Step>, step: Step)
    requires Inv(g, s) && step.id in s.requests && s.phases[step.id].BodyRead? && ReadBody(step.id, true) in steps
    requires step.Send? && s' == Next(g, s, step) && Extends(s, s') && s.calls <= s'.calls
    requires |s.calls| == |s.owners| && |s'.calls| == |s'.owners|
    ensures PhaseExplained(g, s', s.requests[step.id], steps + [step], step.id, s'.phases[step.id])
  {
    var id, t, k := step.id, s.phases[step.id].ticket, s.phases[step.id].k;
    assert PhaseOk(g, s, id, s.requests[id], s.phases[id]);
    assert step in steps + [step] && ReadBody(id, true) in steps + [step];
    BackedCarries(g, s, s', id);
    var outgoing := g.outgoing(s.requests[id], t);
    if step.obstacle.Some? {
      BlockedIsReason(g, s', s.requests[id], steps + [step], id, t, k, step.obstacle.value);
    } else if outgoing.Err? {
      BlockedIsReason(g, s', s.requests[id], steps + [step], id, t, k, outgoing.error);
    } else {
      assert s'.forwards == s.forwards + [k];
    }
  }

  lemma BlockedIsReason(g: Gates, s: State, request: Request, steps: seq<Step>, id: nat, t: Ticket, k: nat, problem: Problem)
    requires Backed(g, s, id, t, k) && BlockedAfter(g, request, steps, id, t, problem)
    ensures PhaseExplained(g, s, request, steps, id, Closed(Some(problem)))
  {
    assert SendRefuses(g, s, request, steps, id, problem);
  }

  lemma StepExplained(g: Gates, s: State, steps: seq<Step>, step: Step)
    requires Inv(g, s) && step.id in s.requests && PhaseExplained(g, s, s.requests[step.id], steps, step.id, s.phases[step.id])
    ensures var s' := Next(g, s, step);
            PhaseExplained(g, s', s.requests[step.id], steps + [step], step.id, s'.phases[step.id])
  {
    match step
    case Arrive(_, _) => ReasonCarries(g, s, s, s.requests[step.id], steps, step, step.id, s.phases[step.id]);
    case CheckRate(_, _) => CheckStepExplained(g, s, steps, step);
    case Send(_, _) => SendStepExplained(g, s, steps, step);
    case ReadBody(_, _) => LaterStepExplained(g, s, steps, step);
    case Finish(_, _) => LaterStepExplained(g, s, steps, step);
    case Timeout(_) => LaterStepExplained(g, s, steps, step);
    case _ => GateStepExplained(g, s, steps, step);
  }

  lemma ForwardsExplained(g: Gates, s: State, steps: seq<Step>, step: Step)
    requires Inv(g, s) && Explained(g, s, steps)
    ensures var s' := Next(g, s, step);
            forall i :: 0 <= i < |s'.forwards| && s'.forwards[i] < |s'.owners| ==>
              ReadBody(s'.owners[s'.forwards[i]], true) in steps + [step]
  {
    var s' := Next(g, s, step);
    NextExtends(g, s, step);
    forall i | 0 <= i < |s'.forwards| && s'.forwards[i] < |s'.owners|
      ensures ReadBody(s'.owners[s'.forwards[i]], true) in steps + [step]
    {
      if i < |s.forwards| {
        assert AdmittedAt(s.calls, g.limit, s.forwards[i]);
      } else {
        NewForward(g, s, step);
        assert PhaseExplained(g, s, s.requests[step.id], steps, step.id, s.phases[step.id]);
      }
    }
  }

  /** A forward is added only by a send of a request whose body was read, and under that request's own call. */
  lemma NewForward(g: Gates, s: State, step: Step)
    requires Inv(g, s) && Next(g, s, step).forwards != s.forwards
    ensures step.id in s.requests && step.id in s.phases && s.phases[step.id].BodyRead?
    ensures var s' := Next(g, s, step);
            var k := s.phases[step.id].k;
            s'.forwards == s.forwards + [k] && s'.owners == s.owners && k < |s.owners| && s.owners[k] == step.id
  {
    SendsOnly(g, s, step);
    assert PhaseOk(g, s, step.id, s.requests[step.id], s.phases[step.id]);
  }

  lemma SendsOnly(g: Gates, s: State, step: Step)
    requires Next(g, s, step).forwards != s.forwards
    ensures step.Send? && step.id in s.requests && step.id in s.phases && s.phases[step.id].BodyRead?
    ensures Next(g, s, step).forwards == s.forwards + [s.phases[step.id].k] && Next(g, s, step).owners == s.owners
  {
  }

  lemma EachExplained(g: Gates, s: State, steps: seq<Step>, step: Step, x: nat)
    requires Inv(g, s) && Explained(g, s, steps) && x in Next(g, s, step).requests && x in Next(g, s, step).phases
    ensures var s' := Next(g, s, step);
            PhaseExplained(g, s', s'.requests[x], steps + [step], x, s'.phases[x])
  {
    var s' := Next(g, s, step);
    NextExtends(g, s, step);
    if x !in s.requests {
      NewIsArrived(g, s, step, x);
    } else if x == step.id {
      StepExplained(g, s, steps, step);
    } else {
      ReasonCarries(g, s, s', s.requests[x], steps, step, x, s.phases[x]);
    }
  }

  lemma NewIsArrived(g: Gates, s: State, step: Step, x: nat)
    requires x !in s.requests && x in Next(g, s, step).requests
    ensures x in Next(g, s, step).phases && Next(g, s, step).phases[x] == Arrived
  {
  }

  lemma NextExplained(g: Gates, s: State, steps: seq<Step>, step: Step)
    requires Inv(g, s) && Explained(g, s, steps)
    ensures Explained(g, Next(g, s, step), steps + [step])
  {
    var s' := Next(g, s, step);
    ForwardsExplained(g, s, steps, step);
    forall x | x in s'.requests && x in s'.phases
      ensures PhaseExplained(g, s', s'.requests[x], steps + [step], x, s'.phases[x])
    {
      EachExplained(g, s, steps, step, x);
    }
  }

  /** In every interleaving every request that is closed was closed for a reason: its own timeout, a refusal of a gate,
      of the limiter, of its body or of its forward, or the upstream's answer; and every request that went out had its
      whole body read within the limit. */
  lemma {:induction false} RunExplained(g: Gates, steps: seq<Step>)
    ensures Explained(g, Run(g, steps), steps)
  {
    if steps == [] {
    } else {
      var n := |steps| - 1;
      RunExplained(g, steps[..n]);
      RunKeeps(g, steps[..n]);
      NextExplained(g, Run(g, steps[..n]), steps[..n], steps[n]);
      assert steps == steps[..n] + [steps[n]];
    }
  }
}
