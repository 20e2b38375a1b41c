/** Stopping: what the loop still does once another thread has raised the flag. */
module LoopStop {
  import opened Wrappers
  import opened Transcript
  import opened AgentLoop

  /** A prompt, a read or a write leaves the loop. */
  predicate IsStart(e: Event) {
    e.StartPrompt? || e.StartRead? || e.StartWrite?
  }

  /** The last check or plane call of the trace is a check that found the flag down. */
  predicate Armed(t: seq<Event>) {
    t != [] &&
    var e := t[|t| - 1];
    if e.Load? then !e.stop else !IsStart(e) && Armed(t[..|t| - 1])
  }

  /** No plane call without a check of its own. */
  ghost predicate Guarded(t: seq<Event>) {
    forall i | 0 <= i < |t| && IsStart(t[i]) :: Armed(t[..i])
  }

  /** A check sees the flag as it stands at that moment. */
  ghost predicate Truthful(w: World, t: seq<Event>) {
    forall i | 0 <= i < |t| && t[i].Load? :: t[i].stop == w.Raised(i)
  }

  /** A call is answered as not run exactly when the check just before it saw the flag. */
  ghost predicate SkipsOnlyWhenStopped(t: seq<Event>) {
    forall i | 0 <= i < |t| && t[i].Answer? :: t[i].outcome == NotRun <==> SawStop(t[..i])
  }

  predicate SawStop(t: seq<Event>) {
    t != [] && t[|t| - 1] == Load(true)
  }

  ghost predicate StopInv(w: World, c: Config) {
    && Truthful(w, c.trace)
    && Guarded(c.trace)
    && SkipsOnlyWhenStopped(c.trace)
    && (c.pc.Sending? || c.pc.Routing? ==> c.trace != [] && c.trace[|c.trace| - 1] == Load(false))
  }

  /** The trace part of `StopInv`, and what the next event must respect to keep it. */
  ghost predicate Disciplined(w: World, t: seq<Event>) {
    Truthful(w, t) && Guarded(t) && SkipsOnlyWhenStopped(t)
  }

  ghost predicate MayFollow(w: World, t: seq<Event>, e: Event) {
    && (e.Load? ==> e.stop == w.Raised(|t|))
    && (IsStart(e) ==> Armed(t))
    && (e.Answer? ==> (e.outcome == NotRun <==> SawStop(t)))
  }

  lemma DisciplinedPush(w: World, t: seq<Event>, e: Event)
    requires Disciplined(w, t) && MayFollow(w, t, e)
    ensures Disciplined(w, t + [e])
  {
    var u := t + [e];
    assert t[..|t|] == t;
    forall i | 0 <= i < |u| && (IsStart(u[i]) || u[i].Answer?)
      ensures IsStart(u[i]) ==> Armed(u[..i])
      ensures u[i].Answer? ==> (u[i].outcome == NotRun <==> SawStop(u[..i]))
    {
      assert u[..i] == t[..i];
    }
  }

  lemma DisciplinedPushTwo(w: World, t: seq<Event>, e: Event, f: Event)
    requires Disciplined(w, t) && MayFollow(w, t, e) && MayFollow(w, t + [e], f)
    ensures Disciplined(w, t + [e, f])
  {
    assert t + [e, f] == t + [e] + [f];
    DisciplinedPush(w, t, e);
    DisciplinedPush(w, t + [e], f);
  }

  lemma EmitsInOrder(w: World, c: Config)
    requires Wf(w, c) && StopInv(w, c)
    ensures var es := Emit(w, c);
      && |es| <= 2
      && (|es| >= 1 ==> MayFollow(w, c.trace, es[0]))
      && (|es| == 2 ==> MayFollow(w, c.trace + [es[0]], es[1]))
  {
    match c.pc
    case Done(_) =>
    case Top =>
    case Gating =>
    case PreSend =>
    case Sending =>
    case AwaitPrompt =>
    case TooLarge =>
    case NextCall(calls, k) =>
    case Routing(calls, k) =>
    case AwaitRead(calls, k, path) =>
    case AwaitWrite(calls, k, path, basis) =>
  }

  lemma StepKeepsStopInv(w: World, c: Config)
    requires Wf(w, c) && StopInv(w, c)
    ensures StopInv(w, Step(w, c))
  {
    var es := Emit(w, c);
    EmitsInOrder(w, c);
    assert Disciplined(w, c.trace + es) by {
      if |es| == 0 {
        assert c.trace + es == c.trace;
      } else if |es| == 1 {
        assert es == [es[0]];
        DisciplinedPush(w, c.trace, es[0]);
      } else {
        assert es == [es[0], es[1]];
        DisciplinedPushTwo(w, c.trace, es[0], es[1]);
      }
    }
    ChecksLeadToCalls(w, c);
  }

  lemma ChecksLeadToCalls(w: World, c: Config)
    requires Wf(w, c)
    ensures var c' := Step(w, c); c'.pc.Sending? || c'.pc.Routing? ==> Emit(w, c) == [Load(false)]
  {
    match c.pc
    case TooLarge => ShedSpendsOneReasoning(c.transcript);
    case _ =>
  }

  /** The check that let a plane call start: the flag was down then, and no other plane
      call came in between. */
  lemma {:induction false} CheckBehind(t: seq<Event>) returns (j: nat)
    requires Armed(t)
    ensures j < |t| && t[j] == Load(false)
    ensures forall k | j < k < |t| :: !IsStart(t[k])
  {
    var n := |t| - 1;
    if t[n].Load? {
      j := n;
    } else {
      j := CheckBehind(t[..n]);
      assert forall k | j < k < n :: t[k] == t[..n][k];
    }
  }

  /** At most one plane call starts once the flag is up, and it is the one whose check had
      already passed. */
  lemma AtMostOneStartAfterStop(w: World, t: seq<Event>, stop: nat)
    requires w.stopAt == Some(stop) && Truthful(w, t) && Guarded(t)
    ensures forall i, j | stop <= i < |t| && stop <= j < |t| && IsStart(t[i]) && IsStart(t[j]) :: i == j
    ensures forall i | stop <= i < |t| && IsStart(t[i]) ::
              exists j :: 0 <= j < stop && t[j] == Load(false) && forall k | j < k < i :: !IsStart(t[k])
  {
    forall i | stop <= i < |t| && IsStart(t[i])
      ensures exists j :: 0 <= j < stop && t[j] == Load(false) && forall k | j < k < i :: !IsStart(t[k])
    {
      var j := CheckBehind(t[..i]);
      assert t[j] == t[..i][j];
      assert forall k | j < k < i :: t[k] == t[..i][k];
    }
  }
}
