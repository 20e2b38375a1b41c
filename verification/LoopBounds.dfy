/** How much one run can do, against every plane. */
module LoopBounds {
  import opened Wrappers
  import opened Transcript
  import opened AgentLoop

  function Prompts(t: seq<Event>): nat {
    if t == [] then 0 else Prompts(t[..|t| - 1]) + (if t[|t| - 1].StartPrompt? then 1 else 0)
  }

  predicate IsToolStart(e: Event) {
    e.StartRead? || e.StartWrite?
  }

  function ToolStarts(t: seq<Event>): nat {
    if t == [] then 0 else ToolStarts(t[..|t| - 1]) + (if IsToolStart(t[|t| - 1]) then 1 else 0)
  }

  lemma {:induction false} CountsAppend(t: seq<Event>, es: seq<Event>)
    ensures Prompts(t + es) == Prompts(t) + Prompts(es)
    ensures ToolStarts(t + es) == ToolStarts(t) + ToolStarts(es)
  {
    if es == [] {
      assert t + es == t;
    } else {
      var n := |es| - 1;
      CountsAppend(t, es[..n]);
      assert (t + es)[..|t + es| - 1] == t + es[..n];
    }
  }

  /** The call a read or write was made for: the step that proposed it, and its place there. */
  predicate Before(e: Event, step: nat, index: nat)
    requires IsToolStart(e)
  {
    e.step < step || (e.step == step && e.index < index)
  }

  /** Calls are attempted in strictly increasing order, so none is attempted twice. */
  ghost predicate InCallOrder(t: seq<Event>) {
    forall i, j | 0 <= i < j < |t| && IsToolStart(t[i]) && IsToolStart(t[j]) :: Before(t[i], t[j].step, t[j].index)
  }

  ghost predicate AllBefore(t: seq<Event>, step: nat, index: nat) {
    forall i | 0 <= i < |t| && IsToolStart(t[i]) :: Before(t[i], step, index)
  }

  /** The call the machine would attempt next, or the first call of the next step. */
  function NextPlace(c: Config): (nat, nat) {
    match c.pc
    case NextCall(_, k) => (c.steps, k)
    case Routing(_, k) => (c.steps, k)
    case AwaitRead(_, k, _) => (c.steps, k + 1)
    case AwaitWrite(_, k, _, _) => (c.steps, k + 1)
    case _ => (c.steps + 1, 0)
  }

  /** Tool calls allowed so far. */
  function Allowance(cap: nat, c: Config): nat
    requires NextPlace(c).0 > 0
  {
    (NextPlace(c).0 - 1) * cap + NextPlace(c).1
  }

  // The four parts of the invariant of a run whose events so far are `run` and which
  // began with `r0` reasonings in its transcript.

  ghost predicate StepsRemain(w: World, c: Config) {
    c.pc.Top? || c.pc.Gating? ==> c.steps < w.budget.maxSteps
  }

  /** Each prompt is paid for by a step or by a reasoning shed. */
  ghost predicate PromptsPaid(w: World, r0: nat, run: seq<Event>, c: Config) {
    if c.pc.Done? then Prompts(run) <= r0 + 2 * w.budget.maxSteps
    else Prompts(run) + Reasonings(c.transcript)
         <= r0 + 2 * c.steps + (if c.pc.AwaitPrompt? || c.pc.TooLarge? then 1 else 0)
  }

  ghost predicate ToolsWithin(w: World, run: seq<Event>, c: Config) {
    && NextPlace(c).0 > 0
    && ToolStarts(run) <= if c.pc.Done? then (w.budget.maxSteps - 1) * w.budget.maxCallsPerStep
                          else Allowance(w.budget.maxCallsPerStep, c)
  }

  ghost predicate Ordered(run: seq<Event>, c: Config) {
    InCallOrder(run) && AllBefore(run, NextPlace(c).0, NextPlace(c).1)
  }

  ghost predicate BoundsInv(w: World, r0: nat, run: seq<Event>, c: Config) {
    StepsRemain(w, c) && PromptsPaid(w, r0, run, c) && ToolsWithin(w, run, c) && Ordered(run, c)
  }

  // ---- One step ----------------------------------------------------------------------

  lemma {:induction false} CountsNone(es: seq<Event>)
    ensures (forall e | e in es :: !e.StartPrompt?) ==> Prompts(es) == 0
    ensures (forall e | e in es :: !IsToolStart(e)) ==> ToolStarts(es) == 0
  {
    if es != [] {
      CountsNone(es[..|es| - 1]);
      assert es[|es| - 1] in es;
      assert forall e | e in es[..|es| - 1] :: e in es;
    }
  }

  lemma EmitsToolStarts(w: World, c: Config)
    requires Wf(w, c)
    ensures |Emit(w, c)| <= 2
    ensures c.pc.Sending? <==> exists e :: e in Emit(w, c) && e.StartPrompt?
    ensures Move(w, c).pc.AwaitRead? || Move(w, c).pc.AwaitWrite? <==> exists e :: e in Emit(w, c) && IsToolStart(e)
    ensures forall i | 0 <= i < |Emit(w, c)| && (IsToolStart(Emit(w, c)[i]) || Emit(w, c)[i].StartPrompt?) ::
              |Emit(w, c)| == 1
    ensures forall i | 0 <= i < |Emit(w, c)| && IsToolStart(Emit(w, c)[i]) ::
              (Emit(w, c)[i].step, Emit(w, c)[i].index) == NextPlace(c)
  {
    var es := Emit(w, c);
    if c.pc.Sending? {
      assert es[0] in es;
    } else if c.pc.Routing? && w.route(c.pc.calls[c.pc.k]).Ok? {
      assert es[0] in es;
    }
  }

  lemma EmitCounts(w: World, c: Config)
    requires Wf(w, c)
    ensures Prompts(Emit(w, c)) == if c.pc.Sending? then 1 else 0
    ensures ToolStarts(Emit(w, c)) == if Move(w, c).pc.AwaitRead? || Move(w, c).pc.AwaitWrite? then 1 else 0
  {
    var es := Emit(w, c);
    EmitsToolStarts(w, c);
    CountsNone(es);
    if |es| == 1 {
      assert es[..0] == [];
      assert es == [es[0]];
    }
  }

  lemma TopsUp(steps: nat, cap: nat, max: nat)
    requires steps < max
    ensures steps * cap + cap == (steps + 1) * cap
    ensures steps * cap <= (max - 1) * cap
  {
  }

  lemma MoveKeepsReasoningBudget(w: World, c: Config)
    requires Wf(w, c) && StepsRemain(w, c)
    ensures var c' := Move(w, c);
      && (c'.pc.Top? || c'.pc.Gating? ==> c'.steps < w.budget.maxSteps)
      && (c'.steps == c.steps || (c.pc.AwaitPrompt? && c'.steps == c.steps + 1))
      && (if c.pc.AwaitPrompt? && c'.steps == c.steps + 1 then Reasonings(c'.transcript) <= Reasonings(c.transcript) + 1
          else if c.pc.TooLarge? && c'.pc.Sending? then Reasonings(c'.transcript) == Reasonings(c.transcript) - 1
          else Reasonings(c'.transcript) == Reasonings(c.transcript))
      && (c'.pc.TooLarge? ==> c.pc.AwaitPrompt?)
      && (c'.pc.AwaitPrompt? ==> c.pc.Sending?)
      && (c.pc.AwaitPrompt? ==> c'.pc.TooLarge? || c'.pc.Done? || c'.steps == c.steps + 1)
      && (c.pc.TooLarge? ==> c'.pc.Sending? || c'.pc.Done?)
  {
    hide Reasonings, Shed, Bytes;
    ShedSpendsOneReasoning(c.transcript);
    match c.pc
    case AwaitPrompt =>
      if w.prompt(|c.trace|).Ok? {
        var r := w.prompt(|c.trace|).value;
        ReasoningsPush(c.transcript, Assistant(r.blocks, r.calls, r.reasoning));
      }
    case NextCall(calls, k) =>
      if k < |calls| {
        ReasoningsPush(c.transcript, Tool(calls[k].id, w.render(NotRun, w.budget.maxSteps - c.steps)));
      }
    case Routing(calls, k) =>
      if w.route(calls[k]).Err? {
        var o := BadCall(w.route(calls[k]).error);
        ReasoningsPush(c.transcript, Tool(calls[k].id, w.render(o, w.budget.maxSteps - c.steps)));
      }
    case AwaitRead(calls, k, path) =>
      var o := ReadResult(c.seen, path, w.read(|c.trace|));
      ReasoningsPush(c.transcript, Tool(calls[k].id, w.render(o, w.budget.maxSteps - c.steps)));
    case AwaitWrite(calls, k, path, basis) =>
      var o := WriteResult(basis, w.write(|c.trace|));
      ReasoningsPush(c.transcript, Tool(calls[k].id, w.render(o, w.budget.maxSteps - c.steps)));
    case _ =>
  }

  /** Every move goes forward in call order; a tool start uses up exactly its own place. */
  lemma MoveGoesForward(w: World, c: Config)
    requires Wf(w, c) && NextPlace(c).0 > 0 && !c.pc.Done?
    ensures var p, c' := NextPlace(c), Move(w, c); var q := NextPlace(c');
      && (p.0 < q.0 || (p.0 == q.0 && p.1 <= q.1))
      && (c'.pc.AwaitRead? || c'.pc.AwaitWrite? ==> q == (p.0, p.1 + 1))
      && (!c'.pc.Done? ==>
            || q == p
            || q == (p.0, p.1 + 1)
            || (q == (p.0 + 1, 0) && p.1 <= w.budget.maxCallsPerStep))
  {
  }

  lemma OrderAppend(run: seq<Event>, es: seq<Event>, p: (nat, nat), q: (nat, nat))
    requires InCallOrder(run) && AllBefore(run, p.0, p.1)
    requires forall i | 0 <= i < |es| && IsToolStart(es[i]) :: |es| == 1 && (es[i].step, es[i].index) == p
    requires p.0 < q.0 || (p.0 == q.0 && p.1 <= q.1)
    requires (exists e | e in es :: IsToolStart(e)) ==> q == (p.0, p.1 + 1)
    ensures InCallOrder(run + es) && AllBefore(run + es, q.0, q.1)
  {
    var u := run + es;
    forall i | 0 <= i < |u| && IsToolStart(u[i])
      ensures Before(u[i], q.0, q.1)
    {
      if i >= |run| {
        assert u[i] == es[i - |run|] && es[i - |run|] in es;
      } else {
        assert u[i] == run[i];
      }
    }
    forall i, j | 0 <= i < j < |u| && IsToolStart(u[i]) && IsToolStart(u[j])
      ensures Before(u[i], u[j].step, u[j].index)
    {
      if j >= |run| {
        assert u[j] == es[j - |run|];
        assert i < |run| && u[i] == run[i];
      } else {
        assert u[i] == run[i] && u[j] == run[j];
      }
    }
  }

  lemma AllowanceGrows(w: World, c: Config)
    requires Wf(w, c) && NextPlace(c).0 > 0 && !c.pc.Done?
    requires c.pc.Top? || c.pc.Gating? ==> c.steps < w.budget.maxSteps
    ensures var c' := Move(w, c); var cap := w.budget.maxCallsPerStep;
      var started := if c'.pc.AwaitRead? || c'.pc.AwaitWrite? then 1 else 0;
      NextPlace(c').0 > 0 &&
      Allowance(cap, c) + started <= if c'.pc.Done? then (w.budget.maxSteps - 1) * cap else Allowance(cap, c')
  {
    var cap, c' := w.budget.maxCallsPerStep, Move(w, c);
    MoveGoesForward(w, c);
    TopsUp(NextPlace(c).0 - 1, cap, NextPlace(c).0);
    if c'.pc.Done? {
      assert NextPlace(c) == (c.steps + 1, 0);
      TopsUp(c.steps, cap, w.budget.maxSteps);
    }
  }

  lemma StepKeepsPromptsPaid(w: World, r0: nat, run: seq<Event>, c: Config)
    requires Wf(w, c) && StepsRemain(w, c) && PromptsPaid(w, r0, run, c) && !c.pc.Done?
    ensures PromptsPaid(w, r0, run + Emit(w, c), Move(w, c))
  {
    CountsAppend(run, Emit(w, c));
    EmitCounts(w, c);
    MoveKeepsReasoningBudget(w, c);
  }

  lemma StepKeepsToolsWithin(w: World, run: seq<Event>, c: Config)
    requires Wf(w, c) && StepsRemain(w, c) && ToolsWithin(w, run, c) && !c.pc.Done?
    ensures ToolsWithin(w, run + Emit(w, c), Move(w, c))
  {
    CountsAppend(run, Emit(w, c));
    EmitCounts(w, c);
    AllowanceGrows(w, c);
  }

  lemma StepKeepsOrdered(w: World, run: seq<Event>, c: Config)
    requires Wf(w, c) && NextPlace(c).0 > 0 && Ordered(run, c) && !c.pc.Done?
    ensures Ordered(run + Emit(w, c), Move(w, c))
  {
    EmitsToolStarts(w, c);
    MoveGoesForward(w, c);
    OrderAppend(run, Emit(w, c), NextPlace(c), NextPlace(Move(w, c)));
  }

  lemma StepKeepsBounds(w: World, r0: nat, run: seq<Event>, c: Config)
    requires Wf(w, c) && BoundsInv(w, r0, run, c)
    ensures BoundsInv(w, r0, run + Emit(w, c), Step(w, c))
  {
    if c.pc.Done? {
      assert run + Emit(w, c) == run;
    } else {
      var c', run' := Move(w, c), run + Emit(w, c);
      StepKeepsPromptsPaid(w, r0, run, c);
      StepKeepsToolsWithin(w, run, c);
      StepKeepsOrdered(w, run, c);
      MoveKeepsReasoningBudget(w, c);
      TraceIsNotRead(w, r0, run', c', c.trace + Emit(w, c));
    }
  }

  lemma TraceIsNotRead(w: World, r0: nat, run: seq<Event>, c: Config, t: seq<Event>)
    requires BoundsInv(w, r0, run, c)
    ensures BoundsInv(w, r0, run, c.(trace := t))
  {
  }

  // ---- Whole runs --------------------------------------------------------------------

  lemma StartsWithinBounds(w: World, c: Config)
    requires Starts(w, c) && w.budget.maxSteps >= 1
    ensures BoundsInv(w, Reasonings(c.transcript), [], c)
  {
  }

  lemma {:induction false} RunKeepsBounds(w: World, c: Config, n: nat)
    requires Wf(w, c) && Starts(w, c) && w.budget.maxSteps >= 1
    ensures var now := Run(w, c, n);
      c.trace <= now.trace && BoundsInv(w, Reasonings(c.transcript), now.trace[|c.trace|..], now)
  {
    hide Move, Emit, BoundsInv, Wf;
    if n == 0 {
      assert c.trace[|c.trace|..] == [];
      StartsWithinBounds(w, c);
    } else {
      RunKeepsBounds(w, c, n - 1);
      var last := Run(w, c, n - 1);
      StepKeepsBounds(w, Reasonings(c.transcript), last.trace[|c.trace|..], last);
      assert (last.trace + Emit(w, last))[|c.trace|..] == last.trace[|c.trace|..] + Emit(w, last);
    }
  }

  /** At every moment of every run: prompts and tool calls are bounded whatever the plane
      answers, no call is attempted twice, and the loop-top step guard is never the reason
      a run ends. */
  lemma EveryRunIsBounded(w: World, c: Config, n: nat)
    requires Wf(w, c) && Starts(w, c) && w.budget.maxSteps >= 1
    ensures c.trace <= Run(w, c, n).trace
    ensures var now := Run(w, c, n); var run := now.trace[|c.trace|..];
      && Prompts(run) <= Reasonings(c.transcript) + 2 * w.budget.maxSteps
      && ToolStarts(run) <= (w.budget.maxSteps - 1) * w.budget.maxCallsPerStep
      && InCallOrder(run)
      && (now.pc.Gating? ==> now.steps < w.budget.maxSteps)
  {
    RunKeepsBounds(w, c, n);
    if !Run(w, c, n).pc.Done? {
      AllowanceFits(w, Run(w, c, n));
    }
  }

  lemma AllowanceFits(w: World, c: Config)
    requires Wf(w, c) && StepsRemain(w, c) && w.budget.maxSteps >= 1 && !c.pc.Done? && NextPlace(c).0 > 0
    ensures Allowance(w.budget.maxCallsPerStep, c) <= (w.budget.maxSteps - 1) * w.budget.maxCallsPerStep
  {
    var cap := w.budget.maxCallsPerStep;
    if NextPlace(c).0 == c.steps {
      TopsUp(c.steps - 1, cap, c.steps);
      TopsUp(c.steps, cap, w.budget.maxSteps);
    } else {
      TopsUp(c.steps, cap, w.budget.maxSteps);
    }
  }

  /** With no steps at all the guard is what ends the run, unless the flag is already up. */
  lemma StepGuardFiresOnlyWithNoSteps(w: World, c: Config, n: nat)
    requires Wf(w, c) && Starts(w, c)
    ensures Run(w, c, n).pc.Gating? && Run(w, c, n).steps >= w.budget.maxSteps ==> w.budget.maxSteps == 0
    ensures w.budget.maxSteps == 0 && !w.Raised(|c.trace|) && n >= 2 ==> Run(w, c, n).pc == Done(Halted(StepBudget))
  {
    if w.budget.maxSteps >= 1 {
      RunKeepsBounds(w, c, n);
    } else if !w.Raised(|c.trace|) && n >= 2 {
      assert Run(w, c, 1) == Step(w, Run(w, c, 0));
      StaysDone(w, c, 2, n);
    }
  }

  lemma {:induction false} StaysDone(w: World, c: Config, m: nat, n: nat)
    requires Wf(w, c) && m <= n && Run(w, c, m).pc.Done?
    ensures Run(w, c, n) == Run(w, c, m)
  {
    hide Step, Wf;
    if m < n {
      StaysDone(w, c, m, n - 1);
      var d := Run(w, c, n - 1);
      assert Step(w, d) == d by {
        DoneStays(w, d);
      }
    }
  }

  lemma DoneStays(w: World, c: Config)
    requires Wf(w, c) && c.pc.Done?
    ensures Step(w, c) == c
  {
  }

  // ---- Termination -------------------------------------------------------------------

  function Rank(c: Config): nat {
    match c.pc
    case Done(_) => 0
    case TooLarge => 1
    case AwaitPrompt => 2
    case Sending => 3
    case PreSend => 4
    case Gating => 5
    case Top => 6
    case NextCall(calls, k) => if k <= |calls| then 7 + 3 * (|calls| - k) else 0
    case Routing(calls, k) => if k <= |calls| then 6 + 3 * (|calls| - k) else 0
    case AwaitRead(calls, k, _) => if k <= |calls| then 5 + 3 * (|calls| - k) else 0
    case AwaitWrite(calls, k, _, _) => if k <= |calls| then 5 + 3 * (|calls| - k) else 0
  }

  lemma RankFalls(w: World, c: Config)
    requires Wf(w, c) && !c.pc.Done? && StepsRemain(w, c)
    ensures var c' := Step(w, c);
      || c'.steps > c.steps
      || (c'.steps == c.steps && Reasonings(c'.transcript) < Reasonings(c.transcript))
      || (c'.steps == c.steps && Reasonings(c'.transcript) == Reasonings(c.transcript) && Rank(c') < Rank(c))
    ensures StepsRemain(w, Step(w, c))
  {
    hide Reasonings, Shed, Bytes;
    MoveKeepsReasoningBudget(w, c);
  }

  /** Against every plane a run ends, one with no step to spend included. */
  lemma EveryRunEnds(w: World, c: Config) returns (n: nat)
    requires Wf(w, c)
    ensures Run(w, c, n).pc.Done?
  {
    if StepsRemain(w, c) {
      n := RunsWithStepsEnd(w, c);
    } else {
      var next := Step(w, c);
      n := if c.pc.Gating? || next.pc.Done? then 1 else 2;
      RunFromNext(w, c, n - 1);
      assert Run(w, next, 0) == next;
      if n == 2 {
        RunFromNext(w, next, 0);
        assert Run(w, Step(w, next), 0) == Step(w, next);
      }
    }
  }

  lemma {:induction false} RunsWithStepsEnd(w: World, c: Config) returns (n: nat)
    requires Wf(w, c) && StepsRemain(w, c)
    ensures Run(w, c, n).pc.Done?
    decreases w.budget.maxSteps - c.steps, Reasonings(c.transcript), Rank(c)
  {
    hide Step, Reasonings, Rank, StepsRemain;
    if c.pc.Done? {
      n := 0;
    } else {
      RankFalls(w, c);
      var m := RunsWithStepsEnd(w, Step(w, c));
      RunFromNext(w, c, m);
      n := m + 1;
    }
  }
}
