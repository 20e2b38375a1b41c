/** The agent loop as a machine of atomic steps.

    `drive_session` awaits a plane it does not control while another thread may raise the
    stop flag, and its future may be dropped at any await. So a run is a sequence of
    `Step`s, each of at most one plane action, and everything observable is an event of the
    trace. Time is the number of events so far: the flag counts as raised from event
    `stopAt` on, which lets it be raised between any two events. The plane answers from a
    function of time, so a claim for every `World` is a claim for every plane. */
module AgentLoop {
  import opened Wrappers
  import opened Transcript
  import Budget

  datatype LoopBudget = LoopBudget(maxSteps: nat, maxCallsPerStep: nat)

  /** Device, inode, size, mtime (two words), ctime (two words). */
  type Version = v: seq<int> | |v| == 7 witness [0, 0, 0, 0, 0, 0, 0]

  predicate SameContent(a: Version, b: Version) {
    a[..5] == b[..5]
  }

  /** Two versions are of one content exactly when nothing but the change time, the last two
      words, tells them apart. */
  lemma SameContentIgnoresChangeTime(a: Version, b: Version)
    ensures SameContent(a, b) <==> b == [a[0], a[1], a[2], a[3], a[4], b[5], b[6]]
  {
    assert a[..5] == [a[0], a[1], a[2], a[3], a[4]] && b[..5] == [b[0], b[1], b[2], b[3], b[4]];
    assert b == [b[0], b[1], b[2], b[3], b[4], b[5], b[6]];
  }

  datatype Reply = Reply(blocks: seq<Block>, calls: seq<Call>, reasoning: Option<Text>, promptTokens: Option<nat>)

  datatype PlaneError =
    FrameTooLarge | Transport(why: Text) | Refused | Malformed | ReplyUnusable(defect: nat) | Unavailable

  datatype ReadOutcome = Content(page: Text, version: Version) | ReadRefused | ReadUnavailable

  datatype WriteOutcome = Applied(version: Option<Version>) | Stale | Unknown | NotSent

  datatype ReadBasis = Unread | Read(version: Version)

  datatype ToolOutcome =
    | ReadContent(page: Text, version: Version, changed: bool)
    | NoRead | ReadLost
    | WriteApplied | WriteStale | WriteUnread | WriteUnknown | WriteNotSent
    | NotRun
    | BadCall(why: Text)

  datatype StopReason =
    | StepBudget | TooManyToolCalls(n: nat) | FrameBound | PromptRefused | PromptMalformed
    | PromptUnusable(defect: nat) | EgressUnavailable | TransportLost(why: Text) | ContextBudget
    | Stopped | NothingPending

  datatype Outcome = Answered(text: Text) | Halted(why: StopReason)

  datatype Request = ReadFile(path: Text, page: Text) | WriteFile(path: Text, content: Text)

  /** Everything the loop does not decide. Routing and rendering are functions; the plane
      and the stop flag depend on time. */
  datatype World = World(
    budget: LoopBudget,
    route: Call -> Result<Request, Text>,
    render: (ToolOutcome, nat) -> Text,
    prompt: nat -> Result<Reply, PlaneError>,
    read: nat -> ReadOutcome,
    write: nat -> WriteOutcome,
    stopAt: Option<nat>)
  {
    predicate Raised(time: nat) {
      stopAt.Some? && stopAt.value <= time
    }
  }

  datatype Event =
    | Load(stop: bool)
    | Notify(notice: Budget.Notice)
    | StartPrompt(turns: seq<Turn>, meter: Budget.MeterState)
    | PromptDone(result: Result<Reply, PlaneError>)
    | StartRead(step: nat, index: nat, path: Text, page: Text)
    | ReadDone(path: Text, read: ReadOutcome, changed: bool)
    | StartWrite(step: nat, index: nat, path: Text, content: Text, basis: ReadBasis)
    | WriteDone(path: Text, written: WriteOutcome)
    | Answer(callId: Text, outcome: ToolOutcome, step: nat)

  type Seen = map<Text, Version>

  datatype Pc =
    | Top
    | Gating
    | PreSend
    | Sending
    | AwaitPrompt
    | TooLarge
    | NextCall(calls: seq<Call>, k: nat)
    | Routing(calls: seq<Call>, k: nat)
    | AwaitRead(calls: seq<Call>, k: nat, path: Text)
    | AwaitWrite(calls: seq<Call>, k: nat, path: Text, basis: ReadBasis)
    | Done(outcome: Outcome)

  datatype Config = Config(
    pc: Pc, steps: nat, transcript: seq<Turn>, seen: Seen, meter: Budget.MeterState, trace: seq<Event>)
  {
    function Goto(pc: Pc): Config {
      this.(pc := pc)
    }

    /** The host may drop a run exactly here. */
    predicate Suspended() {
      pc.AwaitPrompt? || pc.AwaitRead? || pc.AwaitWrite?
    }
  }

  datatype Next = Respond(text: Text) | Execute(calls: seq<Call>) | Stop(why: StopReason)

  /** Answer, execute or stop: a step never executes a subset of its calls. */
  function Decide(reply: Reply, remaining: nat, budget: LoopBudget): (next: Next)
    ensures next.Execute? <==> 0 < |reply.calls| <= budget.maxCallsPerStep && remaining > 0
    ensures next.Execute? ==> next.calls == reply.calls
    ensures next.Respond? <==> reply.calls == []
    ensures next.Respond? ==> next.text == TextOf(reply.blocks)
    ensures next.Stop? ==> next.why == if remaining == 0 then StepBudget else TooManyToolCalls(|reply.calls|)
  {
    if reply.calls == [] then Respond(TextOf(reply.blocks))
    else if remaining == 0 then Stop(StepBudget)
    else if |reply.calls| > budget.maxCallsPerStep then Stop(TooManyToolCalls(|reply.calls|))
    else Execute(reply.calls)
  }

  function Failure(e: PlaneError): StopReason {
    match e
    case FrameTooLarge => FrameBound
    case Refused => PromptRefused
    case Malformed => PromptMalformed
    case ReplyUnusable(d) => PromptUnusable(d)
    case Unavailable => EgressUnavailable
    case Transport(why) => TransportLost(why)
  }

  function BasisFor(seen: Seen, path: Text): ReadBasis {
    if path in seen then Read(seen[path]) else Unread
  }

  predicate ChangedSince(seen: Seen, path: Text, version: Version) {
    path in seen && !SameContent(seen[path], version)
  }

  function SeenAfterRead(seen: Seen, path: Text, r: ReadOutcome): Seen {
    if r.Content? then seen[path := r.version] else seen
  }

  function ReadResult(seen: Seen, path: Text, r: ReadOutcome): ToolOutcome {
    match r
    case Content(page, v) => ReadContent(page, v, ChangedSince(seen, path, v))
    case ReadRefused => NoRead
    case ReadUnavailable => ReadLost
  }

  function SeenAfterWrite(seen: Seen, path: Text, w: WriteOutcome): Seen {
    match w
    case Applied(Some(v)) => seen[path := v]
    case Applied(None) => seen - {path}
    case Stale => seen - {path}
    case Unknown => seen
    case NotSent => seen
  }

  function WriteResult(basis: ReadBasis, w: WriteOutcome): ToolOutcome {
    match w
    case Applied(_) => WriteApplied
    case Stale => if basis.Read? then WriteStale else WriteUnread
    case Unknown => WriteUnknown
    case NotSent => WriteNotSent
  }

  /** Pushes the tool turn that answers call `k` and moves on to the next call. */
  function AnswerCall(w: World, c: Config, calls: seq<Call>, k: nat, outcome: ToolOutcome): (c': Config)
    requires k < |calls| && c.steps <= w.budget.maxSteps
    ensures c.meter.Valid() && |calls| <= w.budget.maxCallsPerStep && 0 < c.steps < w.budget.maxSteps ==> Wf(w, c')
  {
    var text := w.render(outcome, w.budget.maxSteps - c.steps);
    c.(pc := NextCall(calls, k + 1), transcript := c.transcript + [Tool(calls[k].id, text)])
  }

  function TakeReply(w: World, c: Config, reply: Reply): (taken: Config)
    requires c.steps < w.budget.maxSteps
    ensures c.meter.Valid() ==> Wf(w, taken)
  {
    var c' := c.(
      steps := c.steps + 1,
      meter := c.meter.Recorded(Bytes(c.transcript), reply.promptTokens),
      transcript := c.transcript + [Assistant(reply.blocks, reply.calls, reply.reasoning)]);
    match Decide(reply, w.budget.maxSteps - c'.steps, w.budget)
    case Respond(text) => c'.Goto(Done(Answered(text)))
    case Stop(why) => c'.Goto(Done(Halted(why)))
    case Execute(calls) => c'.Goto(NextCall(calls, 0))
  }

  /** What holds of any configuration the machine can be in; `Step` keeps it. */
  ghost predicate Wf(w: World, c: Config) {
    && c.meter.Valid()
    && c.steps <= w.budget.maxSteps
    && (c.pc.PreSend? || c.pc.Sending? || c.pc.AwaitPrompt? || c.pc.TooLarge? ==> c.steps < w.budget.maxSteps)
    && (c.pc.NextCall? || c.pc.Routing? || c.pc.AwaitRead? || c.pc.AwaitWrite? ==>
          |c.pc.calls| <= w.budget.maxCallsPerStep && 0 < c.steps < w.budget.maxSteps)
    && (c.pc.NextCall? ==> c.pc.k <= |c.pc.calls|)
    && (c.pc.Routing? || c.pc.AwaitRead? || c.pc.AwaitWrite? ==> c.pc.k < |c.pc.calls|)
  }

  function PassGate(w: World, c: Config): (c': Config)
    requires c.meter.Valid() && c.steps < w.budget.maxSteps
    ensures Wf(w, c')
  {
    Budget.GateKeepsValid(c.meter, Bytes(c.transcript));
    var (gate, meter) := c.meter.Gated(Bytes(c.transcript));
    c.(meter := meter, pc := if gate.Stop? then Done(Halted(ContextBudget)) else PreSend)
  }

  /** What a step of `c` adds to the trace. */
  function Emit(w: World, c: Config): seq<Event>
    requires Wf(w, c)
  {
    var now := |c.trace|;
    match c.pc
    case Done(_) => []
    case Top => [Load(w.Raised(now))]
    case Gating =>
      if c.steps >= w.budget.maxSteps then []
      else (match c.meter.Gated(Bytes(c.transcript)).0
            case Send(Some(n)) => [Notify(n)]
            case _ => [])
    case PreSend => [Load(w.Raised(now))]
    case Sending => [StartPrompt(c.transcript, c.meter)]
    case AwaitPrompt => [PromptDone(w.prompt(now))]
    case TooLarge => [Load(w.Raised(now))]
    case NextCall(calls, k) =>
      if k == |calls| then []
      else if w.Raised(now) then [Load(true), Answer(calls[k].id, NotRun, c.steps)]
      else [Load(false)]
    case Routing(calls, k) =>
      (match w.route(calls[k])
       case Err(why) => [Answer(calls[k].id, BadCall(why), c.steps)]
       case Ok(ReadFile(path, page)) => [StartRead(c.steps, k, path, page)]
       case Ok(WriteFile(path, content)) => [StartWrite(c.steps, k, path, content, BasisFor(c.seen, path))])
    case AwaitRead(calls, k, path) =>
      var r := w.read(now);
      [ReadDone(path, r, r.Content? && ChangedSince(c.seen, path, r.version)),
       Answer(calls[k].id, ReadResult(c.seen, path, r), c.steps)]
    case AwaitWrite(calls, k, path, basis) =>
      var r := w.write(now);
      [WriteDone(path, r), Answer(calls[k].id, WriteResult(basis, r), c.steps)]
  }

  /** What a step of `c` does to everything else. */
  function Move(w: World, c: Config): (c': Config)
    requires Wf(w, c)
    ensures Wf(w, c')
  {
    var now := |c.trace|;
    match c.pc
    case Done(_) => c
    case Top => c.Goto(if w.Raised(now) then Done(Halted(Stopped)) else Gating)
    case Gating =>
      if c.steps >= w.budget.maxSteps then c.Goto(Done(Halted(StepBudget))) else PassGate(w, c)
    case PreSend => c.Goto(if w.Raised(now) then Done(Halted(Stopped)) else Sending)
    case Sending => c.Goto(AwaitPrompt)
    case AwaitPrompt =>
      (match w.prompt(now)
       case Err(FrameTooLarge) => c.Goto(TooLarge)
       case Err(e) => c.Goto(Done(Halted(Failure(e))))
       case Ok(reply) => TakeReply(w, c, reply))
    case TooLarge =>
      if w.Raised(now) then c.Goto(Done(Halted(Stopped)))
      else (match Shed(c.transcript)
            case Some(lighter) => c.(transcript := lighter, pc := Sending)
            case None => c.Goto(Done(Halted(FrameBound))))
    case NextCall(calls, k) =>
      if k == |calls| then c.Goto(Top)
      else if w.Raised(now) then AnswerCall(w, c, calls, k, NotRun)
      else c.Goto(Routing(calls, k))
    case Routing(calls, k) =>
      (match w.route(calls[k])
       case Err(why) => AnswerCall(w, c, calls, k, BadCall(why))
       case Ok(ReadFile(path, _)) => c.Goto(AwaitRead(calls, k, path))
       case Ok(WriteFile(path, _)) => c.Goto(AwaitWrite(calls, k, path, BasisFor(c.seen, path))))
    case AwaitRead(calls, k, path) =>
      var r := w.read(now);
      AnswerCall(w, c.(seen := SeenAfterRead(c.seen, path, r)), calls, k, ReadResult(c.seen, path, r))
    case AwaitWrite(calls, k, path, basis) =>
      var r := w.write(now);
      AnswerCall(w, c.(seen := SeenAfterWrite(c.seen, path, r)), calls, k, WriteResult(basis, r))
  }

  function Step(w: World, c: Config): (c': Config)
    requires Wf(w, c)
    ensures Wf(w, c')
  {
    Move(w, c).(trace := c.trace + Emit(w, c))
  }

  /** The configuration after `n` steps. */
  function Run(w: World, c: Config, n: nat): (c': Config)
    requires Wf(w, c)
    ensures Wf(w, c')
  {
    if n == 0 then c else Step(w, Run(w, c, n - 1))
  }

  lemma {:induction false} RunFromNext(w: World, c: Config, n: nat)
    requires Wf(w, c)
    ensures Run(w, c, n + 1) == Run(w, Step(w, c), n)
  {
    hide Step, Wf;
    if n > 0 {
      RunFromNext(w, c, n - 1);
    } else {
      assert Run(w, c, 1) == Step(w, Run(w, c, 0));
    }
  }

  /** A run as `drive_session` starts it. */
  predicate Starts(w: World, c: Config) {
    c.pc == Top && c.steps == 0
  }
}
