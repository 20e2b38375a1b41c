/** What the transcript shows of the calls, and what the trace says became of them. */
module LoopAnswers {
  import opened Wrappers
  import opened Transcript
  import opened AgentLoop

  function ToolTurns(turns: seq<Turn>): seq<Turn> {
    if turns == [] then []
    else ToolTurns(turns[..|turns| - 1]) + (if turns[|turns| - 1].Tool? then [turns[|turns| - 1]] else [])
  }

  /** The turn that shows an outcome, given the step it was reached in. */
  function Shown(w: World, callId: Text, outcome: ToolOutcome, step: nat): Turn {
    Tool(callId, w.render(outcome, if step <= w.budget.maxSteps then w.budget.maxSteps - step else 0))
  }

  /** The answers of a trace, in order, as turns. */
  function Answers(w: World, t: seq<Event>): seq<Turn> {
    if t == [] then []
    else
      var e := t[|t| - 1];
      Answers(w, t[..|t| - 1]) + (if e.Answer? then [Shown(w, e.callId, e.outcome, e.step)] else [])
  }

  /** The tool turns are the answers of the trace, one for one and in order: each shows the
      outcome its event reports. */
  ghost predicate AnswersInv(w: World, c: Config) {
    ToolTurns(c.transcript) == Answers(w, c.trace)
  }

  lemma ToolTurnsPush(turns: seq<Turn>, t: Turn)
    ensures ToolTurns(turns + [t]) == ToolTurns(turns) + (if t.Tool? then [t] else [])
  {
    assert (turns + [t])[..|turns|] == turns;
  }

  lemma {:induction false} AnswersAppend(w: World, t: seq<Event>, es: seq<Event>)
    ensures Answers(w, t + es) == Answers(w, t) + Answers(w, es)
  {
    if es == [] {
      assert t + es == t;
    } else {
      var n := |es| - 1;
      AnswersAppend(w, t, es[..n]);
      assert (t + es)[..|t + es| - 1] == t + es[..n];
    }
  }

  lemma {:induction false} NoAnswers(w: World, es: seq<Event>)
    requires forall e | e in es :: !e.Answer?
    ensures Answers(w, es) == []
  {
    if es != [] {
      NoAnswers(w, es[..|es| - 1]);
    }
  }

  /** An answer is the last event of its step. */
  lemma OneAnswer(w: World, es: seq<Event>, e: Event)
    requires e.Answer? && forall f | f in es :: !f.Answer?
    ensures Answers(w, es + [e]) == [Shown(w, e.callId, e.outcome, e.step)]
  {
    AnswersAppend(w, es, [e]);
    NoAnswers(w, es);
    assert [e][..0] == [];
  }

  lemma {:induction false} ClearingKeepsToolTurns(turns: seq<Turn>, i: nat)
    requires i < |turns| && turns[i].Assistant?
    ensures ToolTurns(turns[i := turns[i].(reasoning := None)]) == ToolTurns(turns)
  {
    var cleared := turns[i := turns[i].(reasoning := None)];
    var n := |turns| - 1;
    if i == n {
      assert cleared[..n] == turns[..n];
    } else {
      ClearingKeepsToolTurns(turns[..n], i);
      assert cleared[..n] == turns[..n][i := turns[i].(reasoning := None)];
    }
  }

  lemma ShedKeepsToolTurns(turns: seq<Turn>)
    requires Shed(turns).Some?
    ensures ToolTurns(Shed(turns).value) == ToolTurns(turns)
  {
    var i := ShedClearsTheOldest(turns);
    ClearingKeepsToolTurns(turns, i);
  }

  /** A step that answers call `k` pushes the turn that shows what its last event reports. */
  lemma AnsweringKeeps(w: World, c: Config, es: seq<Event>, calls: seq<Call>, k: nat, outcome: ToolOutcome)
    requires Wf(w, c) && AnswersInv(w, c) && k < |calls| && Step(w, c).trace == c.trace + (es + [Answer(calls[k].id, outcome, c.steps)])
    requires Step(w, c).transcript == AnswerCall(w, c, calls, k, outcome).transcript
    requires forall f | f in es :: !f.Answer?
    ensures AnswersInv(w, Step(w, c))
  {
    hide Step, Answers, ToolTurns;
    var e := Answer(calls[k].id, outcome, c.steps);
    OneAnswer(w, es, e);
    AnswersAppend(w, c.trace, es + [e]);
    ToolTurnsPush(c.transcript, Shown(w, e.callId, outcome, c.steps));
  }

  /** A step that answers nothing pushes no tool turn. */
  lemma QuietKeeps(w: World, c: Config)
    requires Wf(w, c) && AnswersInv(w, c) && (forall e | e in Emit(w, c) :: !e.Answer?)
    requires ToolTurns(Step(w, c).transcript) == ToolTurns(c.transcript)
    ensures AnswersInv(w, Step(w, c))
  {
    hide Move, Emit, Answers, ToolTurns;
    AnswersAppend(w, c.trace, Emit(w, c));
    NoAnswers(w, Emit(w, c));
    assert Answers(w, c.trace) + [] == Answers(w, c.trace);
  }

  lemma CallKeepsAnswers(w: World, c: Config)
    requires Wf(w, c) && AnswersInv(w, c) && (c.pc.NextCall? || c.pc.Routing?)
    ensures AnswersInv(w, Step(w, c))
  {
    hide AnswersInv;
    var now := |c.trace|;
    var calls, k := c.pc.calls, c.pc.k;
    if c.pc.NextCall? && k < |calls| && w.Raised(now) {
      assert Emit(w, c) == [Load(true)] + [Answer(calls[k].id, NotRun, c.steps)];
      AnsweringKeeps(w, c, [Load(true)], calls, k, NotRun);
    } else if c.pc.Routing? && w.route(calls[k]).Err? {
      var outcome := BadCall(w.route(calls[k]).error);
      assert Emit(w, c) == [] + [Answer(calls[k].id, outcome, c.steps)];
      AnsweringKeeps(w, c, [], calls, k, outcome);
    } else {
      QuietKeeps(w, c);
    }
  }

  lemma PlaneKeepsAnswers(w: World, c: Config)
    requires Wf(w, c) && AnswersInv(w, c) && (c.pc.AwaitRead? || c.pc.AwaitWrite?)
    ensures AnswersInv(w, Step(w, c))
  {
    hide AnswersInv;
    var now := |c.trace|;
    var calls, k, path := c.pc.calls, c.pc.k, c.pc.path;
    if c.pc.AwaitRead? {
      var r := w.read(now);
      var done := ReadDone(path, r, r.Content? && ChangedSince(c.seen, path, r.version));
      var outcome := ReadResult(c.seen, path, r);
      assert Emit(w, c) == [done] + [Answer(calls[k].id, outcome, c.steps)];
      AnsweringKeeps(w, c, [done], calls, k, outcome);
    } else {
      var r := w.write(now);
      var outcome := WriteResult(c.pc.basis, r);
      assert Emit(w, c) == [WriteDone(path, r)] + [Answer(calls[k].id, outcome, c.steps)];
      AnsweringKeeps(w, c, [WriteDone(path, r)], calls, k, outcome);
    }
  }

  lemma OtherKeepsAnswers(w: World, c: Config)
    requires Wf(w, c) && AnswersInv(w, c)
    requires !c.pc.NextCall? && !c.pc.Routing? && !c.pc.AwaitRead? && !c.pc.AwaitWrite?
    ensures AnswersInv(w, Step(w, c))
  {
    hide AnswersInv, ToolTurns, Shed, Bytes;
    if c.pc.AwaitPrompt? && w.prompt(|c.trace|).Ok? {
      var r := w.prompt(|c.trace|).value;
      ToolTurnsPush(c.transcript, Assistant(r.blocks, r.calls, r.reasoning));
      assert ToolTurns(c.transcript) + [] == ToolTurns(c.transcript);
    } else if c.pc.TooLarge? && Shed(c.transcript).Some? {
      ShedKeepsToolTurns(c.transcript);
    }
    QuietKeeps(w, c);
  }

  lemma StepKeepsAnswers(w: World, c: Config)
    requires Wf(w, c) && AnswersInv(w, c)
    ensures AnswersInv(w, Step(w, c))
  {
    hide AnswersInv, Step;
    if c.pc.NextCall? || c.pc.Routing? {
      CallKeepsAnswers(w, c);
    } else if c.pc.AwaitRead? || c.pc.AwaitWrite? {
      PlaneKeepsAnswers(w, c);
    } else {
      OtherKeepsAnswers(w, c);
    }
  }

  lemma UserTurnKeepsAnswers(w: World, c: Config, c': Config, text: Text)
    requires AnswersInv(w, c) && c'.transcript == c.transcript + [User(text)] && c'.trace == c.trace
    ensures AnswersInv(w, c')
  {
    ToolTurnsPush(c.transcript, User(text));
  }
}
