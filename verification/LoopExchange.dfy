/** The exchange a run leaves in the transcript. */
module LoopExchange {
  import opened Wrappers
  import opened Transcript
  import opened AgentLoop

  /** Outside the execution of a step nothing is owed; inside it, exactly the calls not
      reached yet. Only a step that is never executed at all leaves calls unanswered. */
  ghost predicate ExchangeInv(c: Config) {
    match c.pc
    case Done(Answered(_)) => Owed(c.transcript) == Some([])
    case Done(Halted(why)) =>
      Owed(c.transcript).Some? && (why.StepBudget? || why.TooManyToolCalls? || Owed(c.transcript) == Some([]))
    case NextCall(calls, k) => k <= |calls| && Owed(c.transcript) == Some(Ids(calls)[k..])
    case Routing(calls, k) => k < |calls| && Owed(c.transcript) == Some(Ids(calls)[k..])
    case AwaitRead(calls, k, _) => k < |calls| && Owed(c.transcript) == Some(Ids(calls)[k..])
    case AwaitWrite(calls, k, _, _) => k < |calls| && Owed(c.transcript) == Some(Ids(calls)[k..])
    case _ => Owed(c.transcript) == Some([])
  }

  lemma AnswerKeepsExchange(w: World, c: Config, calls: seq<Call>, k: nat, outcome: ToolOutcome)
    requires c.steps <= w.budget.maxSteps
    requires k < |calls| && Owed(c.transcript) == Some(Ids(calls)[k..])
    ensures ExchangeInv(AnswerCall(w, c, calls, k, outcome))
  {
    var text := w.render(outcome, w.budget.maxSteps - c.steps);
    OwedPush(c.transcript, Tool(calls[k].id, text));
    assert Ids(calls)[k..][1..] == Ids(calls)[k + 1..];
  }

  lemma ReplyKeepsExchange(w: World, c: Config, reply: Reply)
    requires c.steps < w.budget.maxSteps && Owed(c.transcript) == Some([])
    ensures ExchangeInv(TakeReply(w, c, reply))
  {
    hide Owed, Bytes;
    OwedPush(c.transcript, Assistant(reply.blocks, reply.calls, reply.reasoning));
    assert Ids(reply.calls)[0..] == Ids(reply.calls);
  }

  lemma StepKeepsExchange(w: World, c: Config)
    requires Wf(w, c) && ExchangeInv(c)
    ensures ExchangeInv(Step(w, c))
  {
    hide Owed, Bytes, Shed;
    assert ExchangeInv(Move(w, c)) by {
      match c.pc
      case AwaitPrompt =>
        if w.prompt(|c.trace|).Ok? {
          ReplyKeepsExchange(w, c, w.prompt(|c.trace|).value);
        }
      case TooLarge =>
        if Shed(c.transcript).Some? {
          ShedKeepsOwed(c.transcript);
        }
      case NextCall(calls, k) =>
        if k < |calls| {
          AnswerKeepsExchange(w, c, calls, k, NotRun);
        } else {
          assert Ids(calls)[k..] == [];
        }
      case Routing(calls, k) =>
        if w.route(calls[k]).Err? {
          AnswerKeepsExchange(w, c, calls, k, BadCall(w.route(calls[k]).error));
        }
      case AwaitRead(calls, k, path) =>
        var r := w.read(|c.trace|);
        AnswerKeepsExchange(w, c.(seen := SeenAfterRead(c.seen, path, r)), calls, k, ReadResult(c.seen, path, r));
      case AwaitWrite(calls, k, path, basis) =>
        var r := w.write(|c.trace|);
        AnswerKeepsExchange(w, c.(seen := SeenAfterWrite(c.seen, path, r)), calls, k, WriteResult(basis, r));
      case _ =>
    }
  }
}
