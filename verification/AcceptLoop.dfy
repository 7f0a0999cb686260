/** The permit-taking accept loop of the server (src/main.rs), as a step system over every interleaving. */
module AcceptLoop {
  import opened Basics

  /** Where the loop stands: awaiting a permit, awaiting a connection with a permit in hand, or sleeping. */
  datatype LoopPhase = Waiting | Holding | BackingOff

  datatype TaskPhase = Handshaking | Serving

  /** Free permits of the semaphore, the loop, and the spawned tasks, each of which owns one permit. */
  datatype State = State(free: nat, phase: LoopPhase, tasks: map<nat, TaskPhase>)

  datatype Step =
    | Acquire
    | AcceptOk(id: nat)
    | AcceptError
    | BackoffOver
    | HandshakeOk(id: nat)
    | HandshakeError(id: nat)
    | HandshakeTimeout(id: nat)
    | ConnectionDone(id: nat)
    | ConnectionError(id: nat)
    | TaskPanic(id: nat)

  function Init(max: nat): State {
    State(max, Waiting, map[])
  }

  predicate Enabled(s: State, step: Step) {
    match step
    case Acquire => s.phase == Waiting && s.free > 0
    case AcceptOk(id) => s.phase == Holding && id !in s.tasks
    case AcceptError => s.phase == Holding
    case BackoffOver => s.phase == BackingOff
    case HandshakeOk(id) => id in s.tasks && s.tasks[id] == Handshaking
    case HandshakeError(id) => id in s.tasks && s.tasks[id] == Handshaking
    case HandshakeTimeout(id) => id in s.tasks && s.tasks[id] == Handshaking
    case ConnectionDone(id) => id in s.tasks && s.tasks[id] == Serving
    case ConnectionError(id) => id in s.tasks && s.tasks[id] == Serving
    case TaskPanic(id) => id in s.tasks
  }

  /** A task that ends in any way drops the permit it owns. */
  function EndTask(s: State, id: nat): State {
    State(s.free + 1, s.phase, s.tasks - {id})
  }

  function Apply(s: State, step: Step): State
    requires Enabled(s, step)
  {
    match step
    case Acquire => State(s.free - 1, Holding, s.tasks)
    case AcceptOk(id) => State(s.free, Waiting, s.tasks[id := Handshaking])
    case AcceptError => State(s.free + 1, BackingOff, s.tasks)
    case BackoffOver => State(s.free, Waiting, s.tasks)
    case HandshakeOk(id) => State(s.free, s.phase, s.tasks[id := Serving])
    case HandshakeError(id) => EndTask(s, id)
    case HandshakeTimeout(id) => EndTask(s, id)
    case ConnectionDone(id) => EndTask(s, id)
    case ConnectionError(id) => EndTask(s, id)
    case TaskPanic(id) => EndTask(s, id)
  }

  function Held(s: State): nat {
    if s.phase == Holding then 1 else 0
  }

  /** Every permit is free, in the loop's hand, or owned by one task. */
  predicate Conserved(s: State, max: nat) {
    s.free + Held(s) + |s.tasks| == max
  }

  /** The state after a run from the start; none if a step was not enabled. */
  function Run(max: nat, steps: seq<Step>): Option<State> {
    if steps == [] then Some(Init(max))
    else match Run(max, steps[..|steps| - 1])
      case None => None
      case Some(s) => if Enabled(s, steps[|steps| - 1]) then Some(Apply(s, steps[|steps| - 1])) else None
  }

  lemma StepConserves(s: State, step: Step, max: nat)
    requires Conserved(s, max) && Enabled(s, step)
    ensures Conserved(Apply(s, step), max)
  {
  }

  /** Over every run: permits are conserved, so live connections never exceed the maximum, and none is lost
      once the tasks have ended and the loop holds none. */
  lemma {:induction false} PermitsConserved(max: nat, steps: seq<Step>, s: State)
    requires Run(max, steps) == Some(s)
    ensures Conserved(s, max)
    ensures |s.tasks| <= max
    ensures s.tasks == map[] && s.phase != Holding ==> s.free == max
  {
    if steps == [] {
    } else {
      var before := Run(max, steps[..|steps| - 1]).value;
      PermitsConserved(max, steps[..|steps| - 1], before);
      StepConserves(before, steps[|steps| - 1], max);
    }
  }

  // ---------------------------------------------------------------- exits

  predicate IsExit(step: Step) {
    step.HandshakeError? || step.HandshakeTimeout? || step.ConnectionDone? || step.ConnectionError? || step.TaskPanic?
  }

  /** The exits of a task: a handshake may fail or time out, a connection may end or fail, and either may panic. */
  predicate MayExit(phase: TaskPhase, step: Step) {
    || (phase == Handshaking && (step.HandshakeError? || step.HandshakeTimeout?))
    || (phase == Serving && (step.ConnectionDone? || step.ConnectionError?))
    || step.TaskPanic?
  }

  /** `s'` is `s` without connection `id`, whose permit is free again. */
  ghost predicate Released(s: State, id: nat, s': State) {
    && s'.free == s.free + 1 && s'.phase == s.phase && id !in s'.tasks
    && forall x :: x != id ==> (x in s'.tasks <==> x in s.tasks) && (x in s.tasks ==> s'.tasks[x] == s.tasks[x])
  }

  /** On every exit path, in every run: a live task may leave by each exit of its phase and by no other, and then it
      is gone, exactly its permit is free again, and nothing else has changed. */
  lemma ExitReleases(max: nat, steps: seq<Step>, s: State, exit: Step)
    requires Run(max, steps) == Some(s) && IsExit(exit)
    ensures Run(max, steps + [exit]).Some? <==> exit.id in s.tasks && MayExit(s.tasks[exit.id], exit)
    ensures Run(max, steps + [exit]).Some? ==> Released(s, exit.id, Run(max, steps + [exit]).value)
  {
    assert (steps + [exit])[..|steps|] == steps;
  }

  // ---------------------------------------------------------------- the state, from the run

  predicate OfTask(step: Step, id: nat) {
    (IsExit(step) || step.AcceptOk? || step.HandshakeOk?) && step.id == id
  }

  predicate OfLoop(step: Step) {
    step.Acquire? || step.AcceptOk? || step.AcceptError? || step.BackoffOver?
  }

  /** The last step of the connection, and of the loop, if any. */
  function LastOfTask(steps: seq<Step>, id: nat): Option<Step> {
    if steps == [] then None
    else if OfTask(steps[|steps| - 1], id) then Some(steps[|steps| - 1])
    else LastOfTask(steps[..|steps| - 1], id)
  }

  function LastOfLoop(steps: seq<Step>): Option<Step> {
    if steps == [] then None
    else if OfLoop(steps[|steps| - 1]) then Some(steps[|steps| - 1])
    else LastOfLoop(steps[..|steps| - 1])
  }

  /** A task lives exactly from its acceptance to its exit, and is served exactly from the end of its handshake. */
  lemma {:induction false} TasksFromRun(max: nat, steps: seq<Step>, s: State, id: nat)
    requires Run(max, steps) == Some(s)
    ensures id in s.tasks && s.tasks[id] == Handshaking <==> LastOfTask(steps, id) == Some(AcceptOk(id))
    ensures id in s.tasks && s.tasks[id] == Serving <==> LastOfTask(steps, id) == Some(HandshakeOk(id))
  {
    if steps == [] {
    } else {
      TasksFromRun(max, steps[..|steps| - 1], Run(max, steps[..|steps| - 1]).value, id);
    }
  }

  /** The loop holds a permit exactly between taking one and accepting, and backs off exactly after a failure. */
  lemma {:induction false} LoopFromRun(max: nat, steps: seq<Step>, s: State)
    requires Run(max, steps) == Some(s)
    ensures s.phase == Holding <==> LastOfLoop(steps) == Some(Acquire)
    ensures s.phase == BackingOff <==> LastOfLoop(steps) == Some(AcceptError)
  {
    if steps == [] {
    } else {
      LoopFromRun(max, steps[..|steps| - 1], Run(max, steps[..|steps| - 1]).value);
    }
  }

  /** No step of the connection strictly between the positions. */
  ghost predicate QuietBetween(steps: seq<Step>, id: nat, i: int, j: int) {
    forall k :: 0 <= i < k < j <= |steps| ==> !OfTask(steps[k], id)
  }

  /** A task is served only after its handshake, and that only after its acceptance, with nothing of it between. */
  lemma {:induction false} ServedAfterHandshake(max: nat, steps: seq<Step>, s: State, id: nat) returns (i: nat, j: nat)
    requires Run(max, steps) == Some(s) && id in s.tasks && s.tasks[id] == Serving
    ensures i < j < |steps| && steps[i] == AcceptOk(id) && steps[j] == HandshakeOk(id)
    ensures QuietBetween(steps, id, i, j) && QuietBetween(steps, id, j, |steps|)
  {
    var n := |steps| - 1;
    var before := Run(max, steps[..n]).value;
    if steps[n] == HandshakeOk(id) {
      i := AcceptedBefore(max, steps[..n], before, id);
      j := n;
    } else {
      i, j := ServedAfterHandshake(max, steps[..n], before, id);
    }
  }

  lemma {:induction false} AcceptedBefore(max: nat, steps: seq<Step>, s: State, id: nat) returns (i: nat)
    requires Run(max, steps) == Some(s) && id in s.tasks && s.tasks[id] == Handshaking
    ensures i < |steps| && steps[i] == AcceptOk(id) && QuietBetween(steps, id, i, |steps|)
  {
    var n := |steps| - 1;
    if steps[n] == AcceptOk(id) {
      i := n;
    } else {
      i := AcceptedBefore(max, steps[..n], Run(max, steps[..n]).value, id);
    }
  }

  /** The loop is held up only by its connections: in every run it can take its next step, but for a failed accept
      or the end of a pause, exactly when fewer than the maximum are open or it holds a permit already. */
  lemma HeldUpOnlyWhenFull(max: nat, steps: seq<Step>, s: State, id: nat)
    requires Run(max, steps) == Some(s) && id !in s.tasks
    ensures s.phase == Waiting ==> (Run(max, steps + [Acquire]).Some? <==> |s.tasks| < max)
    ensures s.phase == Holding ==> Run(max, steps + [AcceptOk(id)]).Some? && Run(max, steps + [AcceptError]).Some?
    ensures s.phase == BackingOff <==> Run(max, steps + [BackoffOver]).Some?
  {
    PermitsConserved(max, steps, s);
    assert (steps + [Acquire])[..|steps|] == steps && (steps + [AcceptOk(id)])[..|steps|] == steps;
    assert (steps + [AcceptError])[..|steps|] == steps && (steps + [BackoffOver])[..|steps|] == steps;
  }

  /** The maximum is reached: for every number up to it some run has that many connections served at once. */
  lemma {:induction false} Fills(max: nat, n: nat) returns (steps: seq<Step>, s: State)
    requires n <= max
    ensures Run(max, steps) == Some(s) && s.phase == Waiting && |s.tasks| == n
    ensures forall id :: id in s.tasks ==> id < n && s.tasks[id] == Serving
  {
    if n == 0 {
      steps, s := [], Init(max);
    } else {
      var before, r := Fills(max, n - 1);
      PermitsConserved(max, before, r);
      steps, s := OneMore(max, before, r, n - 1);
    }
  }

  lemma OneMore(max: nat, before: seq<Step>, r: State, id: nat) returns (steps: seq<Step>, s: State)
    requires Run(max, before) == Some(r) && r.phase == Waiting && r.free > 0 && id !in r.tasks
    ensures Run(max, steps) == Some(s) && s == State(r.free - 1, Waiting, r.tasks[id := Serving])
  {
    var r1 := RunOn(max, before, r, Acquire);
    var r2 := RunOn(max, before + [Acquire], r1, AcceptOk(id));
    steps := before + [Acquire] + [AcceptOk(id)];
    assert r2 == State(r.free - 1, Waiting, r.tasks[id := Handshaking]);
    s := RunOn(max, steps, r2, HandshakeOk(id));
    steps := steps + [HandshakeOk(id)];
    assert r.tasks[id := Handshaking][id := Serving] == r.tasks[id := Serving];
  }

  lemma RunOn(max: nat, steps: seq<Step>, s: State, step: Step) returns (s': State)
    requires Run(max, steps) == Some(s) && Enabled(s, step)
    ensures Run(max, steps + [step]) == Some(s') && s' == Apply(s, step)
  {
    assert (steps + [step])[..|steps|] == steps;
    s' := Apply(s, step);
  }

  // ---------------------------------------------------------------- draining

  /** One exit for each live task, in some order. */
  ghost predicate EndsAll(s: State, exits: seq<Step>) {
    && (forall i :: 0 <= i < |exits| ==>
          IsExit(exits[i]) && exits[i].id in s.tasks && MayExit(s.tasks[exits[i].id], exits[i]))
    && (forall i, j :: 0 <= i < j < |exits| ==> exits[i].id != exits[j].id)
    && (forall id :: id in s.tasks ==> exists i :: 0 <= i < |exits| && exits[i].id == id)
  }

  /** From every reachable state the open connections can end in any order, each by any of its exits, and then every
      permit is back. */
  lemma Drains(max: nat, steps: seq<Step>, s: State, exits: seq<Step>) returns (s': State)
    requires Run(max, steps) == Some(s) && EndsAll(s, exits)
    ensures Run(max, steps + exits) == Some(s')
    ensures s'.tasks == map[] && s'.phase == s.phase && s'.free + Held(s') == max
  {
    s' := DrainTo(max, steps, s, exits, steps + exits);
  }

  lemma {:induction false} DrainTo(max: nat, steps: seq<Step>, s: State, exits: seq<Step>, all: seq<Step>) returns (s': State)
    requires Run(max, steps) == Some(s) && EndsAll(s, exits) && all == steps + exits
    ensures Run(max, all) == Some(s')
    ensures s'.tasks == map[] && s'.phase == s.phase && s'.free + Held(s') == max
    decreases |exits|
  {
    if exits == [] {
      NothingLeft(max, steps, s);
      assert all == steps;
      s' := s;
    } else {
      var s1 := FirstExit(max, steps, s, exits);
      Shift(steps, exits, all);
      s' := DrainTo(max, steps + [exits[0]], s1, exits[1..], all);
    }
  }

  lemma Shift(steps: seq<Step>, exits: seq<Step>, all: seq<Step>)
    requires exits != [] && all == steps + exits
    ensures all == steps + [exits[0]] + exits[1..]
  {
  }

  lemma NothingLeft(max: nat, steps: seq<Step>, s: State)
    requires Run(max, steps) == Some(s) && EndsAll(s, [])
    ensures s.tasks == map[] && s.free + Held(s) == max
  {
    PermitsConserved(max, steps, s);
    assert forall id :: id !in s.tasks;
  }

  lemma FirstExit(max: nat, steps: seq<Step>, s: State, exits: seq<Step>) returns (s1: State)
    requires Run(max, steps) == Some(s) && EndsAll(s, exits) && exits != []
    ensures Run(max, steps + [exits[0]]) == Some(s1) && s1.phase == s.phase && EndsAll(s1, exits[1..])
  {
    ExitReleases(max, steps, s, exits[0]);
    s1 := Run(max, steps + [exits[0]]).value;
    EndsRest(s, s1, exits);
  }

  lemma EndsRest(s: State, s1: State, exits: seq<Step>)
    requires exits != [] && EndsAll(s, exits) && Released(s, exits[0].id, s1)
    ensures EndsAll(s1, exits[1..])
  {
    forall id | id in s1.tasks ensures exists i :: 0 <= i < |exits[1..]| && exits[1..][i].id == id {
      var i :| 0 <= i < |exits| && exits[i].id == id;
      assert exits[1..][i - 1].id == id;
    }
  }
}
