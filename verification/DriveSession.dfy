/** `drive_session` in its own form: nested loops over a transcript, a seen map and a meter,
    proved to perform a run of the machine of `AgentLoop`, event for event. */
module DriveSession {
  import opened Wrappers
  import opened Transcript
  import opened AgentLoop
  import Budget

  /** The plane and the stop flag. Every use of either is an event. */
  class Plane {
    const world: World
    var trace: seq<Event>

    constructor (world: World)
      ensures this.world == world && trace == []
    {
      this.world := world;
      trace := [];
    }

    method LoadStop() returns (stop: bool)
      modifies this
      ensures stop == world.Raised(|old(trace)|) && trace == old(trace) + [Load(stop)]
    {
      stop := world.Raised(|trace|);
      trace := trace + [Load(stop)];
    }

    method Note(es: seq<Event>)
      modifies this
      ensures trace == old(trace) + es
    {
      trace := trace + es;
    }

    method Prompt(turns: seq<Turn>, meter: Budget.MeterState) returns (r: Result<Reply, PlaneError>)
      modifies this
      ensures trace == old(trace) + [StartPrompt(turns, meter)] + [PromptDone(r)]
      ensures r == world.prompt(|old(trace)| + 1)
    {
      trace := trace + [StartPrompt(turns, meter)];
      r := world.prompt(|trace|);
      trace := trace + [PromptDone(r)];
    }
  }

  function At(pc: Pc, steps: nat, transcript: seq<Turn>, seen: Seen, meter: Budget.MeterState, trace: seq<Event>): Config {
    Config(pc, steps, transcript, seen, meter, trace)
  }

  /** The configurations of a run so far, one a step. */
  ghost predicate Follows(w: World, path: seq<Config>) {
    && path != []
    && (forall i | 0 <= i < |path| :: Wf(w, path[i]))
    && (forall i | 0 < i < |path| :: path[i] == Step(w, path[i - 1]))
  }

  ghost function Last(path: seq<Config>): Config
    requires path != []
  {
    path[|path| - 1]
  }

  lemma Extend(w: World, path: seq<Config>) returns (longer: seq<Config>)
    requires Follows(w, path)
    ensures Wf(w, Last(path)) && Follows(w, longer) && path <= longer && longer != []
    ensures Last(longer) == Step(w, Last(path)) && |longer| == |path| + 1
  {
    hide Step, Wf;
    longer := path + [Step(w, Last(path))];
  }

  /** A path is the machine's own run. */
  lemma {:induction false} FollowsIsRun(w: World, path: seq<Config>, k: nat)
    requires Follows(w, path) && k < |path|
    ensures path[k] == Run(w, path[0], k)
  {
    if k > 0 {
      FollowsIsRun(w, path, k - 1);
    }
  }

  /** The inner loop: prompt, and on an over-long frame shed the oldest reasoning and retry.
      `Err` carries the outcome that ends the run. */
  method SendUntilItFits(plane: Plane, transcript0: seq<Turn>, steps: nat, seen: Seen, meter: Budget.MeterState,
                         ghost path0: seq<Config>)
    returns (sent: Result<Reply, Outcome>, transcript: seq<Turn>, ghost path: seq<Config>)
    requires path0 != [] && Follows(plane.world, path0) && Last(path0) == At(Sending, steps, transcript0, seen, meter, plane.trace)
    modifies plane
    ensures Follows(plane.world, path) && path0 <= path
    ensures match sent
      case Err(o) => Last(path) == At(Done(o), steps, transcript, seen, meter, plane.trace)
      case Ok(r) =>
        var sentAt := Last(path).trace;
        && Last(path) == At(AwaitPrompt, steps, transcript, seen, meter, sentAt)
        && plane.world.prompt(|sentAt|) == Ok(r)
        && plane.trace == sentAt + [PromptDone(Ok(r))]
  {
    hide Follows, Bytes, Shed, Reasonings;
    var w := plane.world;
    transcript := transcript0;
    path := path0;
    while true
      invariant path != [] && Follows(w, path) && path0 <= path
      invariant Last(path) == At(Sending, steps, transcript, seen, meter, plane.trace)
      decreases Reasonings(transcript)
    {
      path := Extend(w, path);
      var r := plane.Prompt(transcript, meter);
      if r.Ok? {
        return Ok(r.value), transcript, path;
      }
      path := Extend(w, path);
      if r.error != FrameTooLarge {
        return Err(Halted(Failure(r.error))), transcript, path;
      }
      var stop := plane.LoadStop();
      path := Extend(w, path);
      if stop {
        return Err(Halted(Stopped)), transcript, path;
      }
      ShedSpendsOneReasoning(transcript);
      match Shed(transcript)
      case None => return Err(Halted(FrameBound)), transcript, path;
      case Some(lighter) => transcript := lighter;
    }
  }

  method ReadCall(plane: Plane, calls: seq<Call>, k: nat, file: Text, page: Text, steps: nat, transcript: seq<Turn>, seen0: Seen,
                  meter: Budget.MeterState, ghost path0: seq<Config>)
    returns (outcome: ToolOutcome, seen: Seen, ghost path: seq<Config>)
    requires path0 != [] && Follows(plane.world, path0) && k < |calls|
    requires Last(path0) == At(Routing(calls, k), steps, transcript, seen0, meter, plane.trace)
    requires plane.world.route(calls[k]) == Ok(ReadFile(file, page))
    modifies plane
    ensures Follows(plane.world, path) && path0 <= path
    ensures Last(path) == AnswerWith(plane.world, calls, k, steps, transcript, seen, meter, plane.trace, outcome)
  {
    hide Follows, Bytes;
    var w := plane.world;
    plane.Note([StartRead(steps, k, file, page)]);
    path := Extend(w, path0);
    var r := w.read(|plane.trace|);
    outcome := ReadResult(seen0, file, r);
    plane.Note([ReadDone(file, r, r.Content? && ChangedSince(seen0, file, r.version))]);
    path := Extend(w, path);
    seen := if r.Content? then seen0[file := r.version] else seen0;
  }

  method WriteCall(plane: Plane, calls: seq<Call>, k: nat, file: Text, content: Text, steps: nat, transcript: seq<Turn>, seen0: Seen,
                   meter: Budget.MeterState, ghost path0: seq<Config>)
    returns (outcome: ToolOutcome, seen: Seen, ghost path: seq<Config>)
    requires path0 != [] && Follows(plane.world, path0) && k < |calls|
    requires Last(path0) == At(Routing(calls, k), steps, transcript, seen0, meter, plane.trace)
    requires plane.world.route(calls[k]) == Ok(WriteFile(file, content))
    modifies plane
    ensures Follows(plane.world, path) && path0 <= path
    ensures Last(path) == AnswerWith(plane.world, calls, k, steps, transcript, seen, meter, plane.trace, outcome)
  {
    hide Follows, Bytes;
    var w := plane.world;
    var basis := BasisFor(seen0, file);
    plane.Note([StartWrite(steps, k, file, content, basis)]);
    path := Extend(w, path0);
    var r := w.write(|plane.trace|);
    outcome := WriteResult(basis, r);
    plane.Note([WriteDone(file, r)]);
    path := Extend(w, path);
    seen := seen0;
    match r
    case Applied(Some(v)) => seen := seen0[file := v];
    case Applied(None) => seen := seen0 - {file};
    case Stale => seen := seen0 - {file};
    case Unknown =>
    case NotSent =>
  }

  /** Where the machine stands once call `k` is answered. */
  ghost function AnswerWith(w: World, calls: seq<Call>, k: nat, steps: nat, transcript: seq<Turn>, seen: Seen,
                            meter: Budget.MeterState, trace: seq<Event>, outcome: ToolOutcome): Config
    requires k < |calls| && steps <= w.budget.maxSteps
  {
    At(NextCall(calls, k + 1), steps,
       transcript + [Tool(calls[k].id, w.render(outcome, w.budget.maxSteps - steps))],
       seen, meter, trace + [Answer(calls[k].id, outcome, steps)])
  }

  method OneCall(plane: Plane, calls: seq<Call>, k: nat, steps: nat, transcript: seq<Turn>, seen0: Seen,
                 meter: Budget.MeterState, ghost path0: seq<Config>)
    returns (outcome: ToolOutcome, seen: Seen, ghost path: seq<Config>)
    requires path0 != [] && Follows(plane.world, path0) && k < |calls|
    requires Last(path0) == At(NextCall(calls, k), steps, transcript, seen0, meter, plane.trace)
    modifies plane
    ensures Follows(plane.world, path) && path0 <= path
    ensures Last(path) == AnswerWith(plane.world, calls, k, steps, transcript, seen, meter, plane.trace, outcome)
  {
    hide Follows, Bytes;
    var w := plane.world;
    var stop := plane.LoadStop();
    path := Extend(w, path0);
    if stop {
      return NotRun, seen0, path;
    }
    match w.route(calls[k])
    case Err(why) =>
      path := Extend(w, path);
      outcome, seen := BadCall(why), seen0;
    case Ok(ReadFile(file, page)) =>
      outcome, seen, path := ReadCall(plane, calls, k, file, page, steps, transcript, seen0, meter, path);
    case Ok(WriteFile(file, content)) =>
      outcome, seen, path := WriteCall(plane, calls, k, file, content, steps, transcript, seen0, meter, path);
  }

  /** The loop over one step's calls: skipped once stopped, otherwise routed and run. */
  method RunCalls(plane: Plane, calls: seq<Call>, steps: nat, transcript0: seq<Turn>, seen0: Seen,
                  meter: Budget.MeterState, ghost path0: seq<Config>)
    returns (transcript: seq<Turn>, seen: Seen, ghost path: seq<Config>)
    requires path0 != [] && Follows(plane.world, path0)
    requires Last(path0) == At(NextCall(calls, 0), steps, transcript0, seen0, meter, plane.trace)
    modifies plane
    ensures Follows(plane.world, path) && path0 <= path
    ensures Last(path) == At(Top, steps, transcript, seen, meter, plane.trace)
  {
    var w := plane.world;
    transcript, seen, path := transcript0, seen0, path0;
    for k := 0 to |calls|
      invariant path != [] && Follows(w, path) && path0 <= path
      invariant Last(path) == At(NextCall(calls, k), steps, transcript, seen, meter, plane.trace)
    {
      var outcome;
      outcome, seen, path := OneCall(plane, calls, k, steps, transcript, seen, meter, path);
      transcript := transcript + [Tool(calls[k].id, w.render(outcome, w.budget.maxSteps - steps))];
      plane.Note([Answer(calls[k].id, outcome, steps)]);
    }
    path := Extend(w, path);
  }

  /** The gate, and the notice it may give. */
  method PassGate(plane: Plane, steps: nat, transcript: seq<Turn>, seen: Seen, meter: Budget.Meter,
                  ghost path0: seq<Config>)
    returns (full: bool, ghost path: seq<Config>)
    requires path0 != [] && Follows(plane.world, path0) && steps < plane.world.budget.maxSteps
    requires Last(path0) == At(Gating, steps, transcript, seen, meter.State(), plane.trace)
    modifies plane, meter
    ensures Follows(plane.world, path) && path0 <= path
    ensures Last(path) == At(if full then Done(Halted(ContextBudget)) else PreSend,
                             steps, transcript, seen, meter.State(), plane.trace)
  {
    hide Follows, Bytes;
    path := Extend(plane.world, path0);
    var gate := meter.PassGate(Bytes(transcript));
    match gate {
      case Stop => return true, path;
      case Send(Some(n)) => plane.Note([Notify(n)]);
      case Send(None) =>
    }
    return false, path;
  }

  /** The top of the loop up to the send: both stop checks, the step guard and the gate. */
  method MaySend(plane: Plane, steps: nat, transcript: seq<Turn>, seen: Seen, meter: Budget.Meter,
                 ghost path0: seq<Config>)
    returns (halt: Option<StopReason>, ghost path: seq<Config>)
    requires path0 != [] && Follows(plane.world, path0)
    requires Last(path0) == At(Top, steps, transcript, seen, meter.State(), plane.trace)
    modifies plane, meter
    ensures Follows(plane.world, path) && path0 <= path
    ensures Last(path) == At(if halt.Some? then Done(Halted(halt.value)) else Sending,
                             steps, transcript, seen, meter.State(), plane.trace)
  {
    hide Follows, Bytes;
    var w := plane.world;
    var stop := plane.LoadStop();
    path := Extend(w, path0);
    if stop {
      return Some(Stopped), path;
    }
    if steps >= w.budget.maxSteps {
      path := Extend(w, path);
      return Some(StepBudget), path;
    }
    var full;
    full, path := PassGate(plane, steps, transcript, seen, meter, path);
    if full {
      return Some(ContextBudget), path;
    }
    stop := plane.LoadStop();
    path := Extend(w, path);
    halt := if stop then Some(Stopped) else None;
  }

  /** Runs until an answer or a bound. `path` is the run of the machine it performed, from
      the state it was given to the state it leaves. */
  method DriveSession(plane: Plane, transcript0: seq<Turn>, seen0: Seen, meter: Budget.Meter)
    returns (outcome: Outcome, steps: nat, transcript: seq<Turn>, seen: Seen, ghost path: seq<Config>)
    requires meter.State().Valid()
    modifies plane, meter
    ensures Follows(plane.world, path)
    ensures path[0] == old(At(Top, 0, transcript0, seen0, meter.State(), plane.trace))
    ensures Last(path) == At(Done(outcome), steps, transcript, seen, meter.State(), plane.trace)
  {
    var w := plane.world;
    steps, transcript, seen := 0, transcript0, seen0;
    path := [At(Top, 0, transcript0, seen0, meter.State(), plane.trace)];
    ghost var start := path[0];
    while true
      invariant Follows(w, path) && path[0] == start
      invariant Last(path) == At(Top, steps, transcript, seen, meter.State(), plane.trace)
      decreases w.budget.maxSteps - steps
    {
      var halt;
      halt, path := MaySend(plane, steps, transcript, seen, meter, path);
      if halt.Some? {
        return Halted(halt.value), steps, transcript, seen, path;
      }
      var sent;
      sent, transcript, path := SendUntilItFits(plane, transcript, steps, seen, meter.State(), path);
      if sent.Err? {
        return sent.error, steps, transcript, seen, path;
      }
      var reply := sent.value;
      path := Extend(w, path);
      meter.Record(Bytes(transcript), reply.promptTokens);
      steps := steps + 1;
      transcript := transcript + [Assistant(reply.blocks, reply.calls, reply.reasoning)];
      match Decide(reply, w.budget.maxSteps - steps, w.budget) {
        case Respond(text) => return Answered(text), steps, transcript, seen, path;
        case Stop(why) => return Halted(why), steps, transcript, seen, path;
        case Execute(calls) =>
          transcript, seen, path := RunCalls(plane, calls, steps, transcript, seen, meter.State(), path);
      }
    }
  }
}
