/** What the meter guarantees of everything the loop sends. */
module LoopMeter {
  import opened Wrappers
  import opened Transcript
  import opened AgentLoop
  import Budget

  predicate Fits(m: Budget.MeterState, turns: seq<Turn>) {
    m.budget.Valid() && m.Projected(Bytes(turns)).0 <= m.budget.PromptBudget()
  }

  /** Every prompt of the trace, retries included, was within the budget its meter held. */
  ghost predicate SendsFit(t: seq<Event>) {
    forall i | 0 <= i < |t| && t[i].StartPrompt? :: Fits(t[i].meter, t[i].turns)
  }

  function Notices(t: seq<Event>): seq<Budget.Notice> {
    if t == [] then []
    else
      var e := t[|t| - 1];
      Notices(t[..|t| - 1]) + (if e.Notify? then [e.notice] else [])
  }

  ghost predicate MeterInv(c: Config) {
    && SendsFit(c.trace)
    && c.meter.Valid()
    && Budget.Announced(c.meter, Notices(c.trace))
    && (c.pc.PreSend? || c.pc.Sending? || c.pc.AwaitPrompt? || c.pc.TooLarge? ==> Fits(c.meter, c.transcript))
  }

  lemma {:induction false} NoticesAppend(t: seq<Event>, es: seq<Event>)
    ensures Notices(t + es) == Notices(t) + Notices(es)
  {
    if es == [] {
      assert t + es == t;
    } else {
      var n := |es| - 1;
      NoticesAppend(t, es[..n]);
      assert (t + es)[..|t + es| - 1] == t + es[..n];
    }
  }

  lemma {:induction false} NoNotices(es: seq<Event>)
    requires forall e | e in es :: !e.Notify?
    ensures Notices(es) == []
  {
    if es != [] {
      NoNotices(es[..|es| - 1]);
    }
  }

  lemma GatingEmits(w: World, c: Config)
    requires Wf(w, c) && c.pc.Gating? && c.steps < w.budget.maxSteps
    ensures Notices(Emit(w, c)) == Budget.NoticesOf(c.meter.Gated(Bytes(c.transcript)).0)
    ensures forall e | e in Emit(w, c) :: e.Notify?
  {
  }

  lemma SendsFitAppend(t: seq<Event>, es: seq<Event>)
    requires SendsFit(t) && forall e | e in es && e.StartPrompt? :: Fits(e.meter, e.turns)
    ensures SendsFit(t + es)
  {
  }

  lemma GateLetsFittingSendsThrough(m: Budget.MeterState, turns: seq<Turn>)
    requires m.Valid() && m.Gated(Bytes(turns)).0.Send?
    ensures Fits(m.Gated(Bytes(turns)).1, turns)
  {
  }

  lemma ReplyKeepsMeter(w: World, c: Config, reply: Reply)
    requires c.steps < w.budget.maxSteps && c.meter.Valid() && Budget.Announced(c.meter, Notices(c.trace))
    ensures var c' := TakeReply(w, c, reply);
      c'.meter.Valid() && Budget.Announced(c'.meter, Notices(c.trace)) && (c'.pc.Done? || c'.pc.NextCall?)
  {
  }

  /** Shedding retries under an unchanged meter, so a lighter transcript still fits. */
  lemma LighterStillFits(m: Budget.MeterState, turns: seq<Turn>)
    requires Fits(m, turns) && Shed(turns).Some?
    ensures Fits(m, Shed(turns).value)
  {
    ShedSpendsOneReasoning(turns);
    Budget.ProjectedMonotone(m, Bytes(Shed(turns).value), Bytes(turns));
  }

  lemma StepKeepsMeter(w: World, c: Config)
    requires Wf(w, c) && MeterInv(c)
    ensures MeterInv(Step(w, c))
  {
    hide Notices, Bytes, Fits;
    if c.pc.Gating? && c.steps < w.budget.maxSteps {
      GatingKeepsMeter(w, c);
    } else {
      EmitsFittingSends(w, c);
      SendsFitAppend(c.trace, Emit(w, c));
      NoticesAppend(c.trace, Emit(w, c));
      NoNotices(Emit(w, c));
      assert Notices(c.trace) + [] == Notices(c.trace);
      if c.pc.AwaitPrompt? && w.prompt(|c.trace|).Ok? {
        ReplyKeepsMeter(w, c, w.prompt(|c.trace|).value);
      } else {
        OtherMovesFit(w, c);
      }
    }
  }

  lemma GatingKeepsMeter(w: World, c: Config)
    requires Wf(w, c) && MeterInv(c) && c.pc.Gating? && c.steps < w.budget.maxSteps
    ensures MeterInv(Step(w, c))
  {
    hide Notices, Bytes, Fits;
    var bytes := Bytes(c.transcript);
    NoticesAppend(c.trace, Emit(w, c));
    GatingEmits(w, c);
    SendsFitAppend(c.trace, Emit(w, c));
    Budget.GateKeepsAnnounced(c.meter, bytes, Notices(c.trace));
    if c.meter.Gated(bytes).0.Send? {
      GateLetsFittingSendsThrough(c.meter, c.transcript);
    }
  }

  lemma EmitsFittingSends(w: World, c: Config)
    requires Wf(w, c) && MeterInv(c) && !(c.pc.Gating? && c.steps < w.budget.maxSteps)
    ensures forall e | e in Emit(w, c) :: !e.Notify? && (e.StartPrompt? ==> Fits(e.meter, e.turns))
  {
  }

  lemma OtherMovesFit(w: World, c: Config)
    requires Wf(w, c) && MeterInv(c) && !(c.pc.Gating? && c.steps < w.budget.maxSteps)
    requires !(c.pc.AwaitPrompt? && w.prompt(|c.trace|).Ok?)
    ensures var c' := Move(w, c);
      && c'.meter == c.meter
      && (c'.pc.PreSend? || c'.pc.Sending? || c'.pc.AwaitPrompt? || c'.pc.TooLarge? ==> Fits(c.meter, c'.transcript))
  {
    if c.pc.TooLarge? && Shed(c.transcript).Some? {
      LighterStillFits(c.meter, c.transcript);
    }
  }
}
