/** What each prompt carried, and what the meter knew, as functions of the events before it. */
module LoopSends {
  import opened Wrappers
  import opened Transcript
  import opened AgentLoop
  import opened LoopAnswers
  import opened LoopExchange
  import opened LoopHistory
  import Budget

  // ---- The measurements --------------------------------------------------------------

  /** A reply that reports usage measures the prompt just before it, capped at the ceiling. */
  ghost predicate Measures(t: seq<Event>, e: Event) {
    && t != [] && t[|t| - 1].StartPrompt?
    && e.PromptDone? && e.result.Ok? && e.result.value.promptTokens.Some? && e.result.value.promptTokens.value > 0
  }

  ghost function MeasuredBy(t: seq<Event>, e: Event): Budget.Sample
    requires Measures(t, e)
  {
    var tokens := e.result.value.promptTokens.value;
    Budget.Sample(Bytes(t[|t| - 1].turns), if tokens <= Budget.MAX_CONTEXT_TOKENS then tokens else Budget.MAX_CONTEXT_TOKENS)
  }

  ghost function Samples(t: seq<Event>): seq<Budget.Sample> {
    if t == [] then []
    else
      var before, e := t[..|t| - 1], t[|t| - 1];
      Samples(before) + (if Measures(before, e) then [MeasuredBy(before, e)] else [])
  }

  /** The meter holds the first and the latest measurement, under the conversation's budget. */
  ghost predicate MeterShows(m: Budget.MeterState, b: Budget.ContextBudget, samples: seq<Budget.Sample>) {
    && m.budget == b
    && m.first == (if samples == [] then None else Some(samples[0]))
    && m.last == (if samples == [] then None else Some(samples[|samples| - 1]))
  }

  lemma SamplesPush(t: seq<Event>, e: Event)
    ensures Samples(t + [e]) == Samples(t) + (if Measures(t, e) then [MeasuredBy(t, e)] else [])
  {
    assert (t + [e])[..|t|] == t;
  }

  lemma SamplesPushQuiet(t: seq<Event>, es: seq<Event>)
    requires |es| <= 2 && forall e | e in es :: !e.PromptDone? || e.result.Err?
    ensures Samples(t + es) == Samples(t)
  {
    hide Samples;
    if |es| == 0 {
      assert t + es == t;
    } else if |es| == 1 {
      assert es == [es[0]];
      SamplesPush(t, es[0]);
    } else {
      SamplesPush(t, es[0]);
      SamplesPush(t + [es[0]], es[1]);
      assert t + es == t + [es[0]] + [es[1]];
    }
  }

  /** A positive report is stored as the latest measurement, and as the first if it is. */
  lemma RecordedShows(m: Budget.MeterState, b: Budget.ContextBudget, samples: seq<Budget.Sample>, bytes: nat, tokens: Option<nat>)
    requires MeterShows(m, b, samples)
    ensures tokens.None? || tokens.value == 0 ==> MeterShows(m.Recorded(bytes, tokens), b, samples)
    ensures tokens.Some? && tokens.value > 0 ==>
              var capped := if tokens.value <= Budget.MAX_CONTEXT_TOKENS then tokens.value else Budget.MAX_CONTEXT_TOKENS;
              MeterShows(m.Recorded(bytes, tokens), b, samples + [Budget.Sample(bytes, capped)])
  {
  }

  // ---- The prompts -------------------------------------------------------------------

  /** A prompt carries every reply and every answer so far and owes nothing, under a meter that
      holds the measurements so far. */
  ghost predicate Carried(w: World, b: Budget.ContextBudget, t: seq<Event>, e: Event)
    requires e.StartPrompt?
  {
    && ToolTurns(e.turns) == Answers(w, t) && Shows(Said(e.turns), Replies(t)) && Owed(e.turns) == Some([])
    && MeterShows(e.meter, b, Samples(t))
  }

  ghost predicate AllCarried(w: World, b: Budget.ContextBudget, t: seq<Event>) {
    forall i | 0 <= i < |t| && t[i].StartPrompt? :: Carried(w, b, t[..i], t[i])
  }

  ghost predicate SendsInv(w: World, b: Budget.ContextBudget, c: Config) {
    && AllCarried(w, b, c.trace) && MeterShows(c.meter, b, Samples(c.trace))
    && (c.pc.AwaitPrompt? ==> LastEvent(c.trace, StartPrompt(c.transcript, c.meter)))
  }

  lemma CarriedPush(w: World, b: Budget.ContextBudget, t: seq<Event>, e: Event)
    requires AllCarried(w, b, t) && (e.StartPrompt? ==> Carried(w, b, t, e))
    ensures AllCarried(w, b, t + [e])
  {
    hide Carried;
    var u := t + [e];
    forall i | 0 <= i < |u| && u[i].StartPrompt?
      ensures Carried(w, b, u[..i], u[i])
    {
      assert u[..i] == t[..i];
      assert t[..|t|] == t;
    }
  }

  lemma CarriedPushQuiet(w: World, b: Budget.ContextBudget, t: seq<Event>, es: seq<Event>)
    requires AllCarried(w, b, t) && |es| <= 2 && forall e | e in es :: !e.StartPrompt?
    ensures AllCarried(w, b, t + es)
  {
    hide AllCarried;
    if |es| == 0 {
      assert t + es == t;
    } else if |es| == 1 {
      assert es == [es[0]];
      CarriedPush(w, b, t, es[0]);
    } else {
      CarriedPush(w, b, t, es[0]);
      CarriedPush(w, b, t + [es[0]], es[1]);
      assert t + es == t + [es[0]] + [es[1]];
    }
  }

  lemma SendingCarries(w: World, b: Budget.ContextBudget, c: Config)
    requires Wf(w, c) && SendsInv(w, b, c) && AnswersInv(w, c) && RepliesInv(c) && ExchangeInv(c) && c.pc.Sending?
    ensures SendsInv(w, b, Step(w, c))
  {
    hide AllCarried, Samples, Replies, Said, Answers, ToolTurns, Owed;
    var e := StartPrompt(c.transcript, c.meter);
    assert Carried(w, b, c.trace, e);
    CarriedPush(w, b, c.trace, e);
    SamplesPushQuiet(c.trace, [e]);
  }

  lemma ReplyMeasures(w: World, b: Budget.ContextBudget, c: Config, r: Reply)
    requires Wf(w, c) && SendsInv(w, b, c) && c.pc.AwaitPrompt? && w.prompt(|c.trace|) == Ok(r)
    ensures SendsInv(w, b, Step(w, c))
  {
    hide AllCarried, Samples, Bytes;
    var e := PromptDone(Ok(r));
    CarriedPushQuiet(w, b, c.trace, [e]);
    SamplesPush(c.trace, e);
    RecordedShows(c.meter, b, Samples(c.trace), Bytes(c.transcript), r.promptTokens);
    assert Samples(c.trace) + [] == Samples(c.trace);
  }

  lemma GateKeepsSamples(m: Budget.MeterState, bytes: nat)
    requires m.budget.Valid()
    ensures var m' := m.Gated(bytes).1; m'.budget == m.budget && m'.first == m.first && m'.last == m.last
  {
  }

  lemma OtherStepCarries(w: World, b: Budget.ContextBudget, c: Config)
    requires Wf(w, c) && SendsInv(w, b, c) && !c.pc.Sending? && !(c.pc.AwaitPrompt? && w.prompt(|c.trace|).Ok?)
    ensures SendsInv(w, b, Step(w, c))
  {
    hide AllCarried, Samples, Bytes, Shed;
    CarriedPushQuiet(w, b, c.trace, Emit(w, c));
    SamplesPushQuiet(c.trace, Emit(w, c));
    if c.pc.Gating? {
      GateKeepsSamples(c.meter, Bytes(c.transcript));
    }
  }

  lemma StepKeepsSends(w: World, b: Budget.ContextBudget, c: Config)
    requires Wf(w, c) && SendsInv(w, b, c) && AnswersInv(w, c) && RepliesInv(c) && ExchangeInv(c)
    ensures SendsInv(w, b, Step(w, c))
  {
    hide SendsInv, AnswersInv, RepliesInv, ExchangeInv, Step;
    if c.pc.Sending? {
      SendingCarries(w, b, c);
    } else if c.pc.AwaitPrompt? && w.prompt(|c.trace|).Ok? {
      ReplyMeasures(w, b, c, w.prompt(|c.trace|).value);
    } else {
      OtherStepCarries(w, b, c);
    }
  }
}
