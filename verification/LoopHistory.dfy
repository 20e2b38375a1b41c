/** The transcript, the meter and every answer, read off the events that led to them. */
module LoopHistory {
  import opened Wrappers
  import opened Transcript
  import opened AgentLoop
  import opened LoopAnswers
  import opened LoopExchange
  import Budget

  // ---- What the model is told of each call -------------------------------------------

  ghost predicate RoutedTo(w: World, callId: Text, to: Result<Request, Text>) {
    exists call :: RoutesTo(w, call, callId, to)
  }

  ghost predicate RoutesTo(w: World, call: Call, callId: Text, to: Result<Request, Text>) {
    call.id == callId && w.route(call) == to
  }

  predicate ReadTold(r: ReadOutcome, changed: bool, outcome: ToolOutcome) {
    match r
    case Content(page, v) => outcome == ReadContent(page, v, changed)
    case ReadRefused => outcome == NoRead
    case ReadUnavailable => outcome == ReadLost
  }

  predicate WriteTold(r: WriteOutcome, basis: ReadBasis, outcome: ToolOutcome) {
    match r
    case Applied(_) => outcome == WriteApplied
    case Stale => outcome == if basis == Unread then WriteUnread else WriteStale
    case Unknown => outcome == WriteUnknown
    case NotSent => outcome == WriteNotSent
  }

  /** Answer `e` after trace `t`: not run after a check that saw the flag, refused after one
      that did not with the router's own reason, and otherwise what the read or write just
      done came to, of the very path, page and content the call was routed to. */
  ghost predicate Told(w: World, t: seq<Event>, e: Event)
    requires e.Answer?
  {
    t != [] &&
    match t[|t| - 1]
    case Load(stop) =>
      if stop then e.outcome == NotRun
      else e.outcome.BadCall? && RoutedTo(w, e.callId, Err(e.outcome.why))
    case ReadDone(path, r, changed) =>
      |t| > 1 && t[|t| - 2].StartRead? && t[|t| - 2].path == path
      && RoutedTo(w, e.callId, Ok(ReadFile(path, t[|t| - 2].page))) && ReadTold(r, changed, e.outcome)
    case WriteDone(path, r) =>
      |t| > 1 && t[|t| - 2].StartWrite? && t[|t| - 2].path == path
      && RoutedTo(w, e.callId, Ok(WriteFile(path, t[|t| - 2].content))) && WriteTold(r, t[|t| - 2].basis, e.outcome)
    case _ => false
  }

  ghost predicate AllTold(w: World, t: seq<Event>) {
    forall i | 0 <= i < |t| && t[i].Answer? :: Told(w, t[..i], t[i])
  }

  ghost predicate LastEvent(t: seq<Event>, e: Event) {
    t != [] && t[|t| - 1] == e
  }

  /** What the last event was where a call is under way. */
  ghost predicate Underway(w: World, c: Config) {
    match c.pc
    case Routing(_, _) => LastEvent(c.trace, Load(false))
    case AwaitRead(calls, k, path) =>
      k < |calls| && exists page ::
        LastEvent(c.trace, StartRead(c.steps, k, path, page)) && w.route(calls[k]) == Ok(ReadFile(path, page))
    case AwaitWrite(calls, k, path, basis) =>
      k < |calls| && exists content ::
        LastEvent(c.trace, StartWrite(c.steps, k, path, content, basis)) && w.route(calls[k]) == Ok(WriteFile(path, content))
    case _ => true
  }

  ghost predicate ToldInv(w: World, c: Config) {
    AllTold(w, c.trace) && Underway(w, c)
  }

  lemma ToldPush(w: World, t: seq<Event>, e: Event)
    requires AllTold(w, t) && (e.Answer? ==> Told(w, t, e))
    ensures AllTold(w, t + [e])
  {
    hide Told;
    var u := t + [e];
    forall i | 0 <= i < |u| && u[i].Answer?
      ensures Told(w, u[..i], u[i])
    {
      assert u[..i] == t[..i];
      assert t[..|t|] == t;
    }
  }

  lemma ToldPushTwo(w: World, t: seq<Event>, e: Event, f: Event)
    requires AllTold(w, t) && !e.Answer? && (f.Answer? ==> Told(w, t + [e], f))
    ensures AllTold(w, t + [e, f])
  {
    hide Told;
    ToldPush(w, t, e);
    ToldPush(w, t + [e], f);
    assert t + [e, f] == t + [e] + [f];
  }

  lemma NextCallTold(w: World, c: Config)
    requires Wf(w, c) && ToldInv(w, c) && (c.pc.NextCall? || c.pc.Routing?)
    ensures ToldInv(w, Step(w, c))
  {
    hide AllTold;
    var calls, k := c.pc.calls, c.pc.k;
    var es := Emit(w, c);
    if c.pc.NextCall? {
      if k == |calls| {
        assert c.trace + es == c.trace;
      } else if w.Raised(|c.trace|) {
        var e := Answer(calls[k].id, NotRun, c.steps);
        assert Told(w, c.trace + [Load(true)], e);
        ToldPushTwo(w, c.trace, Load(true), e);
      } else {
        ToldPush(w, c.trace, Load(false));
      }
    } else {
      var e := es[0];
      assert es == [e];
      if e.Answer? {
        assert RoutesTo(w, calls[k], e.callId, Err(e.outcome.why));
        assert Told(w, c.trace, e);
      }
      ToldPush(w, c.trace, e);
    }
  }

  lemma ReadIsTold(w: World, c: Config)
    requires Wf(w, c) && ToldInv(w, c) && c.pc.AwaitRead?
    ensures ToldInv(w, Step(w, c))
  {
    hide AllTold;
    var calls, k, path := c.pc.calls, c.pc.k, c.pc.path;
    var page :| LastEvent(c.trace, StartRead(c.steps, k, path, page)) && w.route(calls[k]) == Ok(ReadFile(path, page));
    var es := Emit(w, c);
    assert RoutesTo(w, calls[k], calls[k].id, Ok(ReadFile(path, page)));
    assert es == [es[0], es[1]];
    assert Told(w, c.trace + [es[0]], es[1]);
    ToldPushTwo(w, c.trace, es[0], es[1]);
  }

  lemma WriteIsTold(w: World, c: Config)
    requires Wf(w, c) && ToldInv(w, c) && c.pc.AwaitWrite?
    ensures ToldInv(w, Step(w, c))
  {
    hide AllTold;
    var calls, k, path, basis := c.pc.calls, c.pc.k, c.pc.path, c.pc.basis;
    var content :| LastEvent(c.trace, StartWrite(c.steps, k, path, content, basis))
                   && w.route(calls[k]) == Ok(WriteFile(path, content));
    var es := Emit(w, c);
    assert RoutesTo(w, calls[k], calls[k].id, Ok(WriteFile(path, content)));
    assert es == [es[0], es[1]];
    assert Told(w, c.trace + [es[0]], es[1]);
    ToldPushTwo(w, c.trace, es[0], es[1]);
  }

  lemma OtherIsTold(w: World, c: Config)
    requires Wf(w, c) && ToldInv(w, c)
    requires !c.pc.NextCall? && !c.pc.Routing? && !c.pc.AwaitRead? && !c.pc.AwaitWrite?
    ensures ToldInv(w, Step(w, c))
  {
    hide AllTold, Bytes, Shed;
    var es := Emit(w, c);
    if es == [] {
      assert c.trace + es == c.trace;
    } else {
      assert es == [es[0]];
      ToldPush(w, c.trace, es[0]);
    }
  }

  /** Whatever the plane does, every answer tells what became of its own call. */
  lemma StepKeepsTold(w: World, c: Config)
    requires Wf(w, c) && ToldInv(w, c)
    ensures ToldInv(w, Step(w, c))
  {
    hide ToldInv, Step;
    if c.pc.NextCall? || c.pc.Routing? {
      NextCallTold(w, c);
    } else if c.pc.AwaitRead? {
      ReadIsTold(w, c);
    } else if c.pc.AwaitWrite? {
      WriteIsTold(w, c);
    } else {
      OtherIsTold(w, c);
    }
  }

  // ---- What the transcript shows of the replies --------------------------------------

  function Said(turns: seq<Turn>): seq<Turn> {
    if turns == [] then []
    else Said(turns[..|turns| - 1]) + (if turns[|turns| - 1].Assistant? then [turns[|turns| - 1]] else [])
  }

  function Asked(turns: seq<Turn>): seq<Turn> {
    if turns == [] then []
    else Asked(turns[..|turns| - 1]) + (if turns[|turns| - 1].User? then [turns[|turns| - 1]] else [])
  }

  function Replies(t: seq<Event>): seq<Reply> {
    if t == [] then []
    else
      var e := t[|t| - 1];
      Replies(t[..|t| - 1]) + (if e.PromptDone? && e.result.Ok? then [e.result.value] else [])
  }

  /** The assistant turns are the replies, whole and in order, save reasoning since shed. */
  ghost predicate Shows(said: seq<Turn>, replies: seq<Reply>) {
    |said| == |replies| && forall k | 0 <= k < |said| :: ShowsReply(said[k], replies[k])
  }

  ghost predicate ShowsReply(t: Turn, r: Reply) {
    t.Assistant? && t.content == r.blocks && t.calls == r.calls && (t.reasoning == r.reasoning || t.reasoning == None)
  }

  ghost predicate RepliesInv(c: Config) {
    Shows(Said(c.transcript), Replies(c.trace))
  }

  lemma SaidPush(turns: seq<Turn>, t: Turn)
    ensures Said(turns + [t]) == Said(turns) + (if t.Assistant? then [t] else [])
    ensures Asked(turns + [t]) == Asked(turns) + (if t.User? then [t] else [])
  {
    assert (turns + [t])[..|turns|] == turns;
  }

  lemma {:induction false} RepliesAppend(t: seq<Event>, es: seq<Event>)
    ensures Replies(t + es) == Replies(t) + Replies(es)
  {
    if es == [] {
      assert t + es == t;
    } else {
      var n := |es| - 1;
      RepliesAppend(t, es[..n]);
      assert (t + es)[..|t + es| - 1] == t + es[..n];
    }
  }

  lemma {:induction false} NoReplies(es: seq<Event>)
    requires forall e | e in es :: !(e.PromptDone? && e.result.Ok?)
    ensures Replies(es) == []
  {
    if es != [] {
      NoReplies(es[..|es| - 1]);
    }
  }

  lemma {:induction false} ClearingKeepsShown(turns: seq<Turn>, i: nat, replies: seq<Reply>)
    requires i < |turns| && turns[i].Assistant? && Shows(Said(turns), replies)
    ensures var cleared := turns[i := turns[i].(reasoning := None)];
      Shows(Said(cleared), replies) && Asked(cleared) == Asked(turns)
  {
    var cleared := turns[i := turns[i].(reasoning := None)];
    var n := |turns| - 1;
    if i == n {
      assert cleared[..n] == turns[..n];
      assert Said(turns) == Said(turns[..n]) + [turns[n]];
      assert Said(cleared) == Said(turns[..n]) + [cleared[n]];
      var k := |replies| - 1;
      assert ShowsReply(Said(turns)[k], replies[k]);
      assert forall j | 0 <= j < k :: Said(cleared)[j] == Said(turns)[j];
    } else {
      var before := if turns[n].Assistant? then replies[..|replies| - 1] else replies;
      assert Said(turns) == Said(turns[..n]) + (if turns[n].Assistant? then [turns[n]] else []);
      assert Shows(Said(turns[..n]), before) by {
        forall j | 0 <= j < |before|
          ensures ShowsReply(Said(turns[..n])[j], before[j])
        {
          assert ShowsReply(Said(turns)[j], replies[j]);
        }
      }
      ClearingKeepsShown(turns[..n], i, before);
      assert cleared[..n] == turns[..n][i := turns[i].(reasoning := None)];
      ShowsLast(Said(cleared[..n]), before, turns[n], replies, Said(turns));
    }
  }

  lemma ShowsLast(said: seq<Turn>, before: seq<Reply>, last: Turn, replies: seq<Reply>, was: seq<Turn>)
    requires Shows(said, before) && Shows(was, replies)
    requires if last.Assistant? then |replies| > 0 && before == replies[..|replies| - 1] && was[|was| - 1] == last
             else before == replies
    ensures Shows(said + (if last.Assistant? then [last] else []), replies)
  {
    var all := said + (if last.Assistant? then [last] else []);
    forall k | 0 <= k < |all|
      ensures ShowsReply(all[k], replies[k])
    {
      if k < |said| {
        assert ShowsReply(said[k], before[k]);
      } else {
        assert ShowsReply(was[k], replies[k]);
      }
    }
  }

  lemma ShowsMore(said: seq<Turn>, replies: seq<Reply>, t: Turn, r: Reply)
    requires Shows(said, replies) && ShowsReply(t, r)
    ensures Shows(said + [t], replies + [r])
  {
    forall k | 0 <= k < |said + [t]|
      ensures ShowsReply((said + [t])[k], (replies + [r])[k])
    {
      if k < |said| {
        assert ShowsReply(said[k], replies[k]);
      }
    }
  }

  lemma ReplyIsShown(w: World, c: Config, r: Reply)
    requires Wf(w, c) && RepliesInv(c) && c.pc.AwaitPrompt? && w.prompt(|c.trace|) == Ok(r)
    ensures RepliesInv(Step(w, c)) && Asked(Step(w, c).transcript) == Asked(c.transcript)
  {
    hide Said, Asked, Replies, Shows, Bytes;
    var t := Assistant(r.blocks, r.calls, r.reasoning);
    var e := PromptDone(Ok(r));
    SaidPush(c.transcript, t);
    RepliesAppend(c.trace, [e]);
    OneReply(e);
    ShowsMore(Said(c.transcript), Replies(c.trace), t, r);
    assert Asked(c.transcript) + [] == Asked(c.transcript);
  }

  lemma OneReply(e: Event)
    requires e.PromptDone? && e.result.Ok?
    ensures Replies([e]) == [e.result.value]
  {
    assert [e][..0] == [];
  }

  lemma QuietIsShown(w: World, c: Config)
    requires Wf(w, c) && RepliesInv(c) && !(c.pc.AwaitPrompt? && w.prompt(|c.trace|).Ok?)
    requires Shows(Said(Step(w, c).transcript), Replies(c.trace))
    ensures RepliesInv(Step(w, c))
  {
    hide Said, Shows, Bytes, Shed, Replies;
    RepliesAppend(c.trace, Emit(w, c));
    NoReplies(Emit(w, c));
    assert Replies(c.trace) + [] == Replies(c.trace);
  }

  lemma ToolTurnIsNoReply(turns: seq<Turn>, t: Turn)
    requires t.Tool?
    ensures Said(turns + [t]) == Said(turns) && Asked(turns + [t]) == Asked(turns)
  {
    SaidPush(turns, t);
  }

  lemma AnswersAreNoReplies(w: World, c: Config)
    requires Wf(w, c) && (c.pc.NextCall? || c.pc.Routing? || c.pc.AwaitRead? || c.pc.AwaitWrite?)
    ensures Said(Step(w, c).transcript) == Said(c.transcript) && Asked(Step(w, c).transcript) == Asked(c.transcript)
  {
    hide Said, Asked;
    var next := Step(w, c).transcript;
    if next != c.transcript {
      assert next == c.transcript + [next[|c.transcript|]] && next[|c.transcript|].Tool?;
      ToolTurnIsNoReply(c.transcript, next[|c.transcript|]);
    }
  }

  /** Every assistant turn is its reply, and no step adds or drops a user turn. */
  lemma StepKeepsReplies(w: World, c: Config)
    requires Wf(w, c) && RepliesInv(c)
    ensures RepliesInv(Step(w, c)) && Asked(Step(w, c).transcript) == Asked(c.transcript)
  {
    hide Said, Asked, Shows, Bytes, Shed, Replies;
    if c.pc.AwaitPrompt? && w.prompt(|c.trace|).Ok? {
      ReplyIsShown(w, c, w.prompt(|c.trace|).value);
    } else {
      if c.pc.TooLarge? && Shed(c.transcript).Some? {
        var i := ShedClearsTheOldest(c.transcript);
        ClearingKeepsShown(c.transcript, i, Replies(c.trace));
      } else if c.pc.NextCall? || c.pc.Routing? || c.pc.AwaitRead? || c.pc.AwaitWrite? {
        AnswersAreNoReplies(w, c);
      }
      QuietIsShown(w, c);
    }
  }
}
