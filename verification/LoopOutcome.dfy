/** Why a run ended, read off what it leaves behind. */
module LoopOutcome {
  import opened Wrappers
  import opened Transcript
  import opened AgentLoop
  import Budget

  ghost predicate LastIs(t: seq<Event>, e: Event) {
    t != [] && t[|t| - 1] == e
  }

  ghost predicate LastReply(turns: seq<Turn>, blocks: seq<Block>, calls: seq<Call>) {
    turns != [] && var t := turns[|turns| - 1]; t.Assistant? && t.content == blocks && t.calls == calls
  }

  /** The last reply asked for `n` calls. */
  ghost predicate LastAsked(turns: seq<Turn>, n: nat) {
    turns != [] && turns[|turns| - 1].Assistant? && |turns[|turns| - 1].calls| == n
  }

  /** What must have happened for a run to halt for this reason. */
  ghost predicate Cause(w: World, c: Config, why: StopReason) {
    match why
    case Stopped => LastIs(c.trace, Load(true))
    case StepBudget => c.steps == w.budget.maxSteps && (c.steps == 0 || exists n :: n > 0 && LastAsked(c.transcript, n))
    case TooManyToolCalls(n) => LastAsked(c.transcript, n) && n > w.budget.maxCallsPerStep
    case ContextBudget => c.meter.budget.Valid() && c.meter.Projected(Bytes(c.transcript)).0 > c.meter.budget.PromptBudget()
    case FrameBound =>
      Reasonings(c.transcript) == 0 && |c.trace| > 1
      && c.trace[|c.trace| - 2] == PromptDone(Err(FrameTooLarge)) && c.trace[|c.trace| - 1] == Load(false)
    case NothingPending => false
    case PromptRefused => LastIs(c.trace, PromptDone(Err(Refused)))
    case PromptMalformed => LastIs(c.trace, PromptDone(Err(Malformed)))
    case PromptUnusable(d) => LastIs(c.trace, PromptDone(Err(ReplyUnusable(d))))
    case EgressUnavailable => LastIs(c.trace, PromptDone(Err(Unavailable)))
    case TransportLost(e) => LastIs(c.trace, PromptDone(Err(Transport(e))))
  }

  /** An answer is the text of a last reply that asks for nothing; a halt has its cause. */
  ghost predicate OutcomeInv(w: World, c: Config) {
    && (c.pc.TooLarge? ==> LastIs(c.trace, PromptDone(Err(FrameTooLarge))))
    && (c.pc.Done? ==>
          match c.pc.outcome
          case Answered(text) => exists blocks :: LastReply(c.transcript, blocks, []) && text == TextOf(blocks)
          case Halted(why) => Cause(w, c, why))
    && (c.pc.Top? || c.pc.Gating? ==> c.steps == 0 || c.steps < w.budget.maxSteps)
  }

  lemma ReplyHasCause(w: World, c: Config, reply: Reply)
    requires Wf(w, c) && c.pc.AwaitPrompt? && w.prompt(|c.trace|) == Ok(reply)
    ensures OutcomeInv(w, Step(w, c))
  {
    hide Bytes;
    var c' := Step(w, c);
    assert c'.transcript[|c'.transcript| - 1] == Assistant(reply.blocks, reply.calls, reply.reasoning);
    assert LastReply(c'.transcript, reply.blocks, reply.calls) && LastAsked(c'.transcript, |reply.calls|);
  }

  lemma StepHasCause(w: World, c: Config)
    requires Wf(w, c) && OutcomeInv(w, c)
    ensures OutcomeInv(w, Step(w, c))
  {
    hide Bytes, Reasonings, Shed;
    if c.pc.Done? {
      assert c.trace + [] == c.trace;
    } else if c.pc.AwaitPrompt? && w.prompt(|c.trace|).Ok? {
      ReplyHasCause(w, c, w.prompt(|c.trace|).value);
    } else if c.pc.TooLarge? {
      ShedSpendsOneReasoning(c.transcript);
      TooLargeHasCause(w, c);
    } else {
      OtherStepHasCause(w, c);
    }
  }

  lemma TooLargeHasCause(w: World, c: Config)
    requires Wf(w, c) && OutcomeInv(w, c) && c.pc.TooLarge?
    requires Shed(c.transcript).None? <==> Reasonings(c.transcript) == 0
    ensures OutcomeInv(w, Step(w, c))
  {
    hide Bytes, Reasonings, Shed;
  }

  lemma OtherStepHasCause(w: World, c: Config)
    requires Wf(w, c) && OutcomeInv(w, c) && !c.pc.Done? && !c.pc.TooLarge?
    requires !(c.pc.AwaitPrompt? && w.prompt(|c.trace|).Ok?)
    ensures OutcomeInv(w, Step(w, c))
  {
    hide Bytes, Reasonings, Shed;
  }

  /** Every run, at every moment: an answer is the last reply's own text, and a halt has
      exactly the cause its reason names. */
  lemma {:induction false} EveryOutcomeHasItsCause(w: World, c: Config, n: nat)
    requires Wf(w, c) && Starts(w, c)
    ensures OutcomeInv(w, Run(w, c, n))
  {
    hide Step, OutcomeInv, Wf;
    if n == 0 {
      StartHasNoOutcome(w, c);
    } else {
      EveryOutcomeHasItsCause(w, c, n - 1);
      StepHasCause(w, Run(w, c, n - 1));
    }
  }

  lemma StartHasNoOutcome(w: World, c: Config)
    requires Starts(w, c)
    ensures OutcomeInv(w, c)
  {
  }

  /** Where the flag stays down, the gate lets the prompt through and the reply asks for
      nothing, the run answers with that reply after one prompt. */
  lemma QuietRunAnswers(w: World, c: Config, reply: Reply)
    requires Wf(w, c) && Starts(w, c) && w.budget.maxSteps > 0 && w.stopAt == None
    requires c.meter.Gated(Bytes(c.transcript)).0.Send? && reply.calls == []
    requires forall t :: w.prompt(t) == Ok(reply)
    ensures var end := Run(w, c, 5);
      && end.pc == Done(Answered(TextOf(reply.blocks))) && end.steps == 1
      && end.transcript == c.transcript + [Assistant(reply.blocks, [], reply.reasoning)]
  {
    hide Bytes, Run;
    var c1 := Step(w, c);
    var c2 := Step(w, c1);
    var c3 := Step(w, c2);
    var c4 := Step(w, c3);
    var c5 := Step(w, c4);
    RunFromNext(w, c, 4);
    RunFromNext(w, c1, 3);
    RunFromNext(w, c2, 2);
    RunFromNext(w, c3, 1);
    RunFromNext(w, c4, 0);
    RunNone(w, c5);
  }

  lemma RunNone(w: World, c: Config)
    requires Wf(w, c)
    ensures Run(w, c, 0) == c
  {
  }
}
