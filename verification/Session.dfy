/** One conversation across prompts, whose runs may be dropped at any await. */
module Session {
  import opened Wrappers
  import opened Transcript
  import opened AgentLoop
  import opened LoopStop
  import opened LoopExchange
  import opened LoopMeter
  import opened LoopBasis
  import opened LoopAnswers
  import opened LoopHistory
  import opened LoopSends
  import opened DriveSession
  import Budget

  /** The session's fields; while `running`, `c` is where its run stands. */
  datatype State = State(c: Config, running: bool, answered: bool, pending: bool) {
    predicate Closed() {
      !running && !answered && !pending
    }
  }

  /** What can happen to a session: its two calls, the progress of a run, its end, and the
      host dropping the run's future. An action that does not apply changes nothing. */
  datatype Action = Prompt(text: Text) | Begin | Advance | Finish | Drop

  function NewState(prompt: Text, context: Budget.ContextBudget): State {
    State(Config(Top, 0, [User(prompt)], map[], Budget.NewMeterState(context), []), false, false, true)
  }

  function Apply(w: World, s: State, a: Action): (s': State)
    requires Wf(w, s.c)
    ensures Wf(w, s'.c)
  {
    match a
    case Prompt(text) =>
      if s.running || !s.answered || s.pending then s
      else s.(c := Idle(s.c).(transcript := s.c.transcript + [User(text)]), pending := true)
    case Begin =>
      if s.running || !s.pending then s
      else State(Idle(s.c), true, false, false)
    case Advance =>
      if s.running then s.(c := Step(w, s.c)) else s
    case Finish =>
      if s.running && s.c.pc.Done? then State(Idle(s.c), false, s.c.pc.outcome.Answered?, false) else s
    case Drop =>
      if s.running && s.c.Suspended() then State(Idle(s.c), false, false, false) else s
  }

  function Idle(c: Config): Config {
    c.(pc := Top, steps := 0)
  }

  function Play(w: World, s: State, acts: seq<Action>): (s': State)
    requires Wf(w, s.c)
    ensures Wf(w, s'.c)
    decreases |acts|
  {
    if acts == [] then s else Play(w, Apply(w, s, acts[0]), acts[1..])
  }

  /** `b` is the budget the conversation was opened with. */
  ghost predicate Inv(w: World, b: Budget.ContextBudget, s: State) {
    && Wf(w, s.c)
    && StopInv(w, s.c)
    && MeterInv(s.c)
    && BasisInv(s.c)
    && AnswersInv(w, s.c)
    && ToldInv(w, s.c)
    && RepliesInv(s.c)
    && SendsInv(w, b, s.c)
    && Conversable(s)
  }

  /** A prompt or a run may begin only where nothing is owed. */
  ghost predicate Conversable(s: State) {
    && (s.running ==> !s.answered && !s.pending && ExchangeInv(s.c))
    && (!s.running ==> s.c.pc == Top && Owed(s.c.transcript).Some?)
    && (!s.running && (s.answered || s.pending) ==> Owed(s.c.transcript) == Some([]))
  }

  lemma StepKeepsInv(w: World, b: Budget.ContextBudget, s: State)
    requires Inv(w, b, s) && s.running
    ensures Inv(w, b, s.(c := Step(w, s.c)))
  {
    hide Step, Wf, StopInv, MeterInv, BasisInv, AnswersInv, ToldInv, RepliesInv, SendsInv, ExchangeInv;
    StepKeepsStopInv(w, s.c);
    StepKeepsMeter(w, s.c);
    StepKeepsBasis(w, s.c);
    StepKeepsExchange(w, s.c);
    StepKeepsAnswers(w, s.c);
    StepKeepsTold(w, s.c);
    StepKeepsReplies(w, s.c);
    StepKeepsSends(w, b, s.c);
  }

  /** What every configuration keeps, whatever the session is doing. */
  ghost predicate Kept(w: World, b: Budget.ContextBudget, c: Config) {
    && Wf(w, c) && StopInv(w, c) && MeterInv(c) && BasisInv(c) && AnswersInv(w, c) && ToldInv(w, c)
    && RepliesInv(c) && SendsInv(w, b, c)
  }

  lemma IdleKeepsInv(w: World, b: Budget.ContextBudget, c: Config)
    requires Kept(w, b, c)
    ensures Kept(w, b, Idle(c))
  {
    hide AllTold, AllCarried, BasesFollowHistory, SendsFit, Truthful, Guarded, SkipsOnlyWhenStopped, Shows;
  }

  lemma PushKeepsInv(w: World, b: Budget.ContextBudget, c: Config, text: Text)
    requires Kept(w, b, c) && c.pc == Top
    ensures Kept(w, b, c.(transcript := c.transcript + [User(text)]))
  {
    hide AllTold, AllCarried, BasesFollowHistory, SendsFit, Truthful, Guarded, SkipsOnlyWhenStopped, Shows;
    var c' := c.(transcript := c.transcript + [User(text)]);
    UserTurnKeepsAnswers(w, c, c', text);
    SaidPush(c.transcript, User(text));
    assert Said(c.transcript) + [] == Said(c.transcript);
  }

  lemma ExchangeIsValid(c: Config)
    requires ExchangeInv(c)
    ensures Owed(c.transcript).Some?
    ensures c.pc.Done? && !Unexecuted(c.pc.outcome) ==> Owed(c.transcript) == Some([])
  {
  }

  lemma ApplyKeepsInv(w: World, b: Budget.ContextBudget, s: State, a: Action)
    requires Inv(w, b, s)
    ensures Inv(w, b, Apply(w, s, a))
  {
    hide Wf, StopInv, MeterInv, BasisInv, AnswersInv, ToldInv, RepliesInv, SendsInv, ExchangeInv, Step, Owed;
    match a
    case Prompt(text) =>
      if !s.running && s.answered && !s.pending {
        IdleKeepsInv(w, b, s.c);
        PushKeepsInv(w, b, Idle(s.c), text);
        OwedPush(s.c.transcript, User(text));
      }
    case Begin =>
      IdleKeepsInv(w, b, s.c);
      TopOwesNothing(Idle(s.c));
    case Advance =>
      if s.running {
        StepKeepsInv(w, b, s);
      }
    case Finish =>
      if s.running {
        IdleKeepsInv(w, b, s.c);
        ExchangeIsValid(s.c);
      }
    case Drop =>
      if s.running {
        IdleKeepsInv(w, b, s.c);
        ExchangeIsValid(s.c);
      }
  }

  lemma TopOwesNothing(c: Config)
    requires c.pc == Top
    ensures ExchangeInv(c) <==> Owed(c.transcript) == Some([])
  {
  }

  lemma NewKeepsInv(w: World, prompt: Text, context: Budget.ContextBudget)
    requires context.Valid()
    ensures Wf(w, NewState(prompt, context).c) && Inv(w, context, NewState(prompt, context))
  {
    var c := NewState(prompt, context).c;
    var blank := c.(transcript := []);
    assert Kept(w, context, blank);
    PushKeepsInv(w, context, blank, prompt);
    OwedPush([], User(prompt));
    assert [] + [User(prompt)] == [User(prompt)];
  }

  lemma {:induction false} PlayKeepsInv(w: World, b: Budget.ContextBudget, s: State, acts: seq<Action>)
    requires Inv(w, b, s)
    ensures Inv(w, b, Play(w, s, acts))
    decreases |acts|
  {
    if acts != [] {
      hide Inv, Apply;
      ApplyKeepsInv(w, b, s, acts[0]);
      PlayKeepsInv(w, b, Apply(w, s, acts[0]), acts[1..]);
    }
  }

  /** In every reachable state of every conversation, runs dropped at any await included:
      every assistant turn is its reply and is answered call by call, fully where a prompt may
      follow or a run ended that executed its last step; each tool turn shows the outcome its
      event reports, and that is what became of the very read or write the call was routed to,
      the router's refusal, or "not run" exactly for the calls met by a raised flag; every
      prompt sent carried all of it and fitted the budget, under a meter that held exactly the
      measurements so far; at most two notices were issued, and every write carried the basis
      the history fixes. */
  lemma EveryConversationIsSound(w: World, prompt: Text, context: Budget.ContextBudget, acts: seq<Action>)
    requires context.Valid()
    ensures Wf(w, NewState(prompt, context).c)
    ensures var s := Play(w, NewState(prompt, context), acts);
      && Owed(s.c.transcript).Some?
      && (!s.running && (s.answered || s.pending) ==> Owed(s.c.transcript) == Some([]))
      && (s.running && s.c.pc.Done? && !Unexecuted(s.c.pc.outcome) ==> Owed(s.c.transcript) == Some([]))
      && (forall i | 0 <= i < |s.c.transcript| && s.c.transcript[i].Assistant? :: AnsweredOnce(s.c.transcript, i))
      && ToolTurns(s.c.transcript) == Answers(w, s.c.trace)
      && AllTold(w, s.c.trace)
      && Shows(Said(s.c.transcript), Replies(s.c.trace))
      && AllCarried(w, context, s.c.trace)
      && MeterShows(s.c.meter, context, Samples(s.c.trace))
      && SendsFit(s.c.trace)
      && Budget.AtMostTwoNotices(Notices(s.c.trace))
      && BasesFollowHistory(s.c.trace)
      && SkipsOnlyWhenStopped(s.c.trace)
  {
    NewKeepsInv(w, prompt, context);
    PlayKeepsInv(w, context, NewState(prompt, context), acts);
    var s := Play(w, NewState(prompt, context), acts);
    if s.running {
      ExchangeIsValid(s.c);
    }
    AllAnsweredOnce(s.c.transcript);
  }

  /** The two ends of a run whose last calls are never executed. */
  predicate Unexecuted(o: Outcome) {
    o.Halted? && (o.why.StepBudget? || o.why.TooManyToolCalls?)
  }

  lemma AllAnsweredOnce(turns: seq<Turn>)
    requires Owed(turns).Some?
    ensures forall i | 0 <= i < |turns| && turns[i].Assistant? :: AnsweredOnce(turns, i)
  {
    forall i | 0 <= i < |turns| && turns[i].Assistant?
      ensures AnsweredOnce(turns, i)
    {
      EveryCallIsAnsweredOnce(turns, i);
    }
  }

  /** Once the flag is up, at most one more prompt, read or write starts in the whole rest
      of the conversation, and its check had already passed. */
  lemma StopEndsTheConversation(w: World, prompt: Text, context: Budget.ContextBudget, acts: seq<Action>, stop: nat)
    requires context.Valid() && w.stopAt == Some(stop)
    ensures Wf(w, NewState(prompt, context).c)
    ensures var t := Play(w, NewState(prompt, context), acts).c.trace;
      && (forall i, j | stop <= i < |t| && stop <= j < |t| && IsStart(t[i]) && IsStart(t[j]) :: i == j)
      && (forall i | stop <= i < |t| && IsStart(t[i]) ::
            exists j :: 0 <= j < stop && t[j] == Load(false) && forall k | j < k < i :: !IsStart(t[k]))
  {
    NewKeepsInv(w, prompt, context);
    PlayKeepsInv(w, context, NewState(prompt, context), acts);
    AtMostOneStartAfterStop(w, Play(w, NewState(prompt, context), acts).c.trace, stop);
  }

  /** The prompts of `acts` that the session takes. */
  function Taken(w: World, s: State, acts: seq<Action>): seq<Turn>
    requires Wf(w, s.c)
    decreases |acts|
  {
    if acts == [] then []
    else
      (if acts[0].Prompt? && !s.running && s.answered && !s.pending then [User(acts[0].text)] else [])
      + Taken(w, Apply(w, s, acts[0]), acts[1..])
  }

  lemma ApplyKeepsAsked(w: World, b: Budget.ContextBudget, s: State, a: Action)
    requires Inv(w, b, s)
    ensures Asked(Apply(w, s, a).c.transcript)
         == Asked(s.c.transcript) + (if a.Prompt? && !s.running && s.answered && !s.pending then [User(a.text)] else [])
  {
    hide Asked, Step, StopInv, MeterInv, BasisInv, AnswersInv, ToldInv, SendsInv, ExchangeInv, RepliesInv;
    if a.Prompt? {
      SaidPush(s.c.transcript, User(a.text));
    } else if a.Advance? && s.running {
      StepKeepsReplies(w, s.c);
    }
    assert Asked(s.c.transcript) + [] == Asked(s.c.transcript);
  }

  /** The user turns are the prompts taken, each with its own text, in order; the first opened
      the conversation. */
  lemma {:induction false} PromptsAreKept(w: World, b: Budget.ContextBudget, s: State, acts: seq<Action>)
    requires Inv(w, b, s)
    ensures Asked(Play(w, s, acts).c.transcript) == Asked(s.c.transcript) + Taken(w, s, acts)
    decreases |acts|
  {
    if acts == [] {
      assert Asked(s.c.transcript) + [] == Asked(s.c.transcript);
    } else {
      hide Inv, Apply, Asked, Wf;
      var a, next := acts[0], Apply(w, s, acts[0]);
      ApplyKeepsInv(w, b, s, a);
      ApplyKeepsAsked(w, b, s, a);
      PromptsAreKept(w, b, next, acts[1..]);
      var taken := if a.Prompt? && !s.running && s.answered && !s.pending then [User(a.text)] else [];
      Budget.Reassociate(Asked(s.c.transcript), taken, Taken(w, next, acts[1..]));
    }
  }

  lemma EveryPromptIsKept(w: World, prompt: Text, context: Budget.ContextBudget, acts: seq<Action>)
    requires context.Valid()
    ensures Wf(w, NewState(prompt, context).c)
    ensures var s := NewState(prompt, context);
      Asked(Play(w, s, acts).c.transcript) == [User(prompt)] + Taken(w, s, acts)
  {
    NewKeepsInv(w, prompt, context);
    PromptsAreKept(w, context, NewState(prompt, context), acts);
    SaidPush([], User(prompt));
    assert [] + [User(prompt)] == [User(prompt)];
  }

  /** A run that answers leaves the session open: the next prompt is taken, and the next run
      begins with its text after all that went before, with what was seen and measured, and
      with all its steps. */
  lemma AnsweredStaysOpen(w: World, s: State, text: Text)
    requires Wf(w, s.c) && s.running && s.c.pc.Done? && s.c.pc.outcome.Answered?
    ensures var finished := Apply(w, s, Finish); var asked := Apply(w, finished, Prompt(text));
      && !finished.running && finished.answered && !finished.pending
      && asked.pending && asked.c.transcript == s.c.transcript + [User(text)]
      && Apply(w, asked, Begin)
         == State(s.c.(pc := Top, steps := 0, transcript := s.c.transcript + [User(text)]), true, false, false)
  {
  }

  /** A run that stops, or is dropped, leaves the session closed. */
  lemma StoppedOrDroppedCloses(w: World, s: State)
    requires Wf(w, s.c) && s.running
    ensures s.c.Suspended() ==> Apply(w, s, Drop).Closed()
    ensures s.c.pc.Done? && s.c.pc.outcome.Halted? ==> Apply(w, s, Finish).Closed()
  {
  }

  /** Nothing that happens to a closed session changes it: no turn is written and no plane
      call is made, ever again. */
  lemma {:induction false} ClosedForever(w: World, s: State, acts: seq<Action>)
    requires Wf(w, s.c) && s.Closed()
    ensures Play(w, s, acts) == s
    decreases |acts|
  {
    if acts != [] {
      assert Apply(w, s, acts[0]) == s;
      ClosedForever(w, s, acts[1..]);
    }
  }

  // ---- The session object ------------------------------------------------------------

  datatype Ran = NothingToRun | Ended(outcome: Outcome)

  class Session {
    const plane: Plane
    const meter: Budget.Meter
    var transcript: seq<Turn>
    var seen: Seen
    var answered: bool
    var pending: bool

    ghost function View(): State
      reads this, plane, meter
    {
      State(Config(Top, 0, transcript, seen, meter.State(), plane.trace), false, answered, pending)
    }

    ghost predicate Valid()
      reads this, plane, meter
    {
      meter.State().Valid()
    }

    constructor (world: World, firstPrompt: Text, context: Budget.ContextBudget)
      requires context.Valid()
      ensures Valid() && fresh(plane) && fresh(meter) && plane.world == world
      ensures View() == NewState(firstPrompt, context)
    {
      plane := new Plane(world);
      meter := new Budget.Meter(context);
      transcript, seen, answered, pending := [User(firstPrompt)], map[], false, true;
    }

    /** Refused unless the last run answered and no prompt is waiting. */
    method Prompt(text: Text) returns (accepted: bool)
      requires Valid()
      modifies this
      ensures Valid() && View() == Apply(plane.world, old(View()), Action.Prompt(text))
      ensures accepted <==> View() != old(View())
    {
      if !answered || pending {
        return false;
      }
      transcript := transcript + [User(text)];
      pending := true;
      return true;
    }

    /** A run that is not dropped: the machine's run to its end, between `Begin` and `Finish`. */
    method Run() returns (ran: Ran, ghost steps: nat)
      requires Valid()
      modifies this, plane, meter
      ensures Valid()
      ensures ran.NothingToRun? <==> !old(pending)
      ensures ran.NothingToRun? ==> View() == old(View())
      ensures ran.Ended? ==>
                var w := plane.world;
                var begun := Apply(w, old(View()), Begin);
                var ended := AgentLoop.Run(w, begun.c, steps);
                && ended.pc == Done(ran.outcome)
                && View() == Apply(w, begun.(c := ended), Finish)
    {
      if !pending {
        return NothingToRun, 0;
      }
      pending := false;
      answered := false;
      ghost var before := Config(Top, 0, transcript, seen, meter.State(), plane.trace);
      var outcome, used, transcript', seen';
      ghost var path;
      outcome, used, transcript', seen', path := DriveSession.DriveSession(plane, transcript, seen, meter);
      transcript, seen := transcript', seen';
      answered := outcome.Answered?;
      steps := |path| - 1;
      FollowsIsRun(plane.world, path, steps);
      ran := Ended(outcome);
    }
  }
}
