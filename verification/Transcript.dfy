/** The turns the loop re-sends on every call. A text is the sequence of its UTF-8 bytes. */
module Transcript {
  import opened Wrappers

  type Text = seq<byte>

  datatype Block = TextBlock(text: Text) | OtherBlock

  datatype Call = Call(name: Text, id: Text, arguments: Text)

  datatype Turn =
    | User(text: Text)
    | Assistant(content: seq<Block>, calls: seq<Call>, reasoning: Option<Text>)
    | Tool(callId: Text, result: Text)

  function BlockBytes(blocks: seq<Block>): nat {
    if blocks == [] then 0
    else (match blocks[0] case TextBlock(t) => |t| case OtherBlock => 0) + BlockBytes(blocks[1..])
  }

  function ArgumentBytes(calls: seq<Call>): nat {
    if calls == [] then 0 else |calls[0].arguments| + ArgumentBytes(calls[1..])
  }

  function TurnBytes(t: Turn): nat {
    match t
    case User(text) => |text|
    case Tool(_, text) => |text|
    case Assistant(content, calls, reasoning) =>
      BlockBytes(content) + ArgumentBytes(calls) + (if reasoning.Some? then |reasoning.value| else 0)
  }

  function Bytes(turns: seq<Turn>): nat {
    if turns == [] then 0 else TurnBytes(turns[0]) + Bytes(turns[1..])
  }

  function TextOf(blocks: seq<Block>): Text {
    if blocks == [] then []
    else (match blocks[0] case TextBlock(t) => t case OtherBlock => []) + TextOf(blocks[1..])
  }

  /** The text of a reply is its text blocks' texts, joined in order. */
  lemma {:induction false} TextJoins(a: seq<Block>, b: seq<Block>, t: Text)
    ensures TextOf(a + b) == TextOf(a) + TextOf(b)
    ensures TextOf([TextBlock(t)]) == t && TextOf([OtherBlock]) == []
  {
    assert [TextBlock(t)][1..] == [] && [OtherBlock][1..] == [];
    if a == [] {
      assert a + b == b;
    } else {
      assert (a + b)[1..] == a[1..] + b;
      TextJoins(a[1..], b, t);
    }
  }

  function ArgumentsOf(calls: seq<Call>): Text {
    if calls == [] then [] else calls[0].arguments + ArgumentsOf(calls[1..])
  }

  /** Everything a transcript sends again: texts, call arguments and reasoning, in order. */
  function Written(turns: seq<Turn>): Text {
    if turns == [] then []
    else
      (match turns[0]
       case User(text) => text
       case Tool(_, text) => text
       case Assistant(content, calls, reasoning) =>
         TextOf(content) + ArgumentsOf(calls) + (if reasoning.Some? then reasoning.value else []))
      + Written(turns[1..])
  }

  lemma {:induction false} ArgumentBytesAre(calls: seq<Call>)
    ensures ArgumentBytes(calls) == |ArgumentsOf(calls)|
  {
    if calls != [] {
      ArgumentBytesAre(calls[1..]);
    }
  }

  lemma {:induction false} BlockBytesAre(blocks: seq<Block>)
    ensures BlockBytes(blocks) == |TextOf(blocks)|
  {
    if blocks != [] {
      BlockBytesAre(blocks[1..]);
    }
  }

  /** The size the meter is given is the length of all that. */
  lemma {:induction false} BytesCountEverythingWritten(turns: seq<Turn>)
    ensures Bytes(turns) == |Written(turns)|
  {
    if turns != [] {
      if turns[0].Assistant? {
        BlockBytesAre(turns[0].content);
        ArgumentBytesAre(turns[0].calls);
      }
      BytesCountEverythingWritten(turns[1..]);
    }
  }

  predicate Reasons(t: Turn) {
    t.Assistant? && t.reasoning.Some?
  }

  function Reasonings(turns: seq<Turn>): nat {
    if turns == [] then 0 else (if Reasons(turns[0]) then 1 else 0) + Reasonings(turns[1..])
  }

  /** The transcript without its oldest reasoning; `None` when none is left. */
  function Shed(turns: seq<Turn>): (r: Option<seq<Turn>>) {
    if turns == [] then None
    else if Reasons(turns[0]) then Some([turns[0].(reasoning := None)] + turns[1..])
    else match Shed(turns[1..])
      case None => None
      case Some(rest) => Some([turns[0]] + rest)
  }

  /** Shedding fails exactly when no turn reasons; otherwise it clears the oldest
      reasoning, at `i`, and nothing else. */
  lemma {:induction false} ShedClearsTheOldest(turns: seq<Turn>) returns (i: int)
    ensures Shed(turns).None? <==> forall k | 0 <= k < |turns| :: !Reasons(turns[k])
    ensures Shed(turns).Some? ==> IsOldest(turns, i) && Shed(turns).value == turns[i := turns[i].(reasoning := None)]
  {
    i := 0;
    if turns != [] && !Reasons(turns[0]) {
      var j := ShedClearsTheOldest(turns[1..]);
      i := j + 1;
      if Shed(turns[1..]).Some? {
        var cleared := turns[i].(reasoning := None);
        assert turns[i := cleared] == [turns[0]] + turns[1..][j := cleared];
      } else {
        assert forall k | 1 <= k < |turns| :: turns[k] == turns[1..][k - 1];
      }
    }
  }

  /** Each shedding spends one reasoning and the transcript never grows. */
  lemma {:induction false} ShedSpendsOneReasoning(turns: seq<Turn>)
    ensures Shed(turns).None? <==> Reasonings(turns) == 0
    ensures Shed(turns).Some? ==>
              Reasonings(Shed(turns).value) == Reasonings(turns) - 1 && Bytes(Shed(turns).value) <= Bytes(turns)
  {
    if turns != [] {
      ShedSpendsOneReasoning(turns[1..]);
    }
  }

  ghost predicate IsOldest(turns: seq<Turn>, i: int) {
    0 <= i < |turns| && Reasons(turns[i]) && forall k | 0 <= k < i :: !Reasons(turns[k])
  }

  lemma {:induction false} ReasoningsPush(turns: seq<Turn>, t: Turn)
    ensures Reasonings(turns + [t]) == Reasonings(turns) + (if Reasons(t) then 1 else 0)
  {
    if turns == [] {
      assert [] + [t] == [t];
    } else {
      assert (turns + [t])[1..] == turns[1..] + [t];
      ReasoningsPush(turns[1..], t);
    }
  }

  // ---- Which calls a transcript still owes an answer -------------------------------

  function Ids(calls: seq<Call>): (ids: seq<Text>)
    ensures |ids| == |calls|
    ensures forall i | 0 <= i < |calls| :: ids[i] == calls[i].id
  {
    seq(|calls|, i requires 0 <= i < |calls| => calls[i].id)
  }

  /** Replays the turns as a provider would: the call ids still unanswered, in call order.
      `None` for an invalid exchange: a user or assistant turn while calls are unanswered,
      or a tool turn that does not answer the first of them. */
  function Owed(turns: seq<Turn>): Option<seq<Text>> {
    if turns == [] then Some([])
    else match Owed(turns[..|turns| - 1])
      case None => None
      case Some(owed) => OwedAfter(owed, turns[|turns| - 1])
  }

  function OwedAfter(owed: seq<Text>, t: Turn): Option<seq<Text>> {
    match t
    case User(_) => if owed == [] then Some([]) else None
    case Assistant(_, calls, _) => if owed == [] then Some(Ids(calls)) else None
    case Tool(id, _) => if owed != [] && owed[0] == id then Some(owed[1..]) else None
  }

  lemma OwedPush(turns: seq<Turn>, t: Turn)
    ensures Owed(turns + [t]) ==
            match Owed(turns) case None => None case Some(owed) => OwedAfter(owed, t)
  {
    assert (turns + [t])[..|turns|] == turns;
  }

  /** Clearing reasoning leaves every obligation as it was. */
  lemma {:induction false} OwedIgnoresReasoning(turns: seq<Turn>, i: nat)
    requires i < |turns| && turns[i].Assistant?
    ensures Owed(turns[i := turns[i].(reasoning := None)]) == Owed(turns)
  {
    var cleared := turns[i := turns[i].(reasoning := None)];
    var n := |turns| - 1;
    if i == n {
      assert cleared[..n] == turns[..n];
    } else {
      OwedIgnoresReasoning(turns[..n], i);
      assert cleared[..n] == turns[..n][i := turns[i].(reasoning := None)];
    }
  }

  lemma ShedKeepsOwed(turns: seq<Turn>)
    requires Shed(turns).Some?
    ensures Owed(Shed(turns).value) == Owed(turns)
  {
    var i := ShedClearsTheOldest(turns);
    OwedIgnoresReasoning(turns, i);
  }

  lemma {:induction false} OwedPrefix(turns: seq<Turn>, n: nat)
    requires Owed(turns).Some? && n <= |turns|
    ensures Owed(turns[..n]).Some?
    decreases |turns| - n
  {
    if n == |turns| {
      assert turns[..n] == turns;
    } else {
      OwedPrefix(turns, n + 1);
      assert turns[..n + 1][..n] == turns[..n];
    }
  }

  lemma NextAnswer(turns: seq<Turn>, m: nat, owed: seq<Text>)
    requires Owed(turns).Some? && m < |turns| && Owed(turns[..m]) == Some(owed) && owed != []
    ensures turns[m].Tool? && turns[m].callId == owed[0] && Owed(turns[..m + 1]) == Some(owed[1..])
  {
    OwedPrefix(turns, m + 1);
    assert turns[..m + 1][..m] == turns[..m];
  }

  lemma {:induction false} OwedAlong(turns: seq<Turn>, i: nat, j: nat)
    requires Owed(turns).Some? && i < |turns| && turns[i].Assistant?
    requires j <= |turns[i].calls| && i + 1 + j <= |turns|
    ensures Owed(turns[..i + 1 + j]) == Some(Ids(turns[i].calls)[j..])
  {
    var ids := Ids(turns[i].calls);
    if j == 0 {
      OwedPrefix(turns, i + 1);
      assert turns[..i + 1][..i] == turns[..i];
      assert ids[0..] == ids;
    } else {
      OwedAlong(turns, i, j - 1);
      NextAnswer(turns, i + j, ids[j - 1..]);
      assert ids[j - 1..][1..] == ids[j..];
    }
  }

  /** The `k`th turn after assistant turn `i` answers its `k`th call. */
  ghost predicate AnswersCall(turns: seq<Turn>, i: nat, k: nat)
    requires i < |turns| && turns[i].Assistant? && k < |turns[i].calls|
  {
    && i + 1 + k < |turns|
    && turns[i + 1 + k].Tool?
    && turns[i + 1 + k].callId == turns[i].calls[k].id
  }

  /** In a transcript `Owed` accepts, the turns after an assistant turn answer its calls one
      by one in call order, as far as the transcript goes. */
  lemma AnswersFollowInOrder(turns: seq<Turn>, i: nat, k: nat)
    requires Owed(turns).Some? && i < |turns| && turns[i].Assistant?
    requires k < |turns[i].calls| && i + 1 + k < |turns|
    ensures AnswersCall(turns, i, k)
  {
    OwedAlong(turns, i, k);
    NextAnswer(turns, i + 1 + k, Ids(turns[i].calls)[k..]);
  }

  /** As far as the transcript goes, the turns after assistant turn `i` answer its calls, one
      each and in call order, and what follows the last answer is no further tool turn. */
  ghost predicate AnsweredOnce(turns: seq<Turn>, i: nat)
    requires i < |turns| && turns[i].Assistant?
  {
    && (forall k | 0 <= k < |turns[i].calls| && i + 1 + k < |turns| :: AnswersCall(turns, i, k))
    && (i + 1 + |turns[i].calls| < |turns| ==> !turns[i + 1 + |turns[i].calls|].Tool?)
  }

  /** So it is for every assistant turn of a valid exchange, whatever is still owed at its end;
      and when nothing is, all the answers are there. */
  lemma EveryCallIsAnsweredOnce(turns: seq<Turn>, i: nat)
    requires Owed(turns).Some? && i < |turns| && turns[i].Assistant?
    ensures AnsweredOnce(turns, i)
    ensures Owed(turns) == Some([]) ==> i + |turns[i].calls| < |turns|
  {
    var n := |turns[i].calls|;
    if Owed(turns) == Some([]) {
      AnswersArePresent(turns, i);
    }
    forall k | 0 <= k < n && i + 1 + k < |turns|
      ensures AnswersCall(turns, i, k)
    {
      AnswersFollowInOrder(turns, i, k);
    }
    if i + 1 + n < |turns| {
      OwedAlong(turns, i, n);
      assert Ids(turns[i].calls)[n..] == [];
      NothingOwedNoTool(turns, i + 1 + n);
    }
  }

  lemma AnswersArePresent(turns: seq<Turn>, i: nat)
    requires Owed(turns) == Some([]) && i < |turns| && turns[i].Assistant?
    ensures i + |turns[i].calls| < |turns|
  {
    var j := |turns| - i - 1;
    assert turns[..|turns|] == turns;
    if j < |turns[i].calls| {
      OwedAlong(turns, i, j);
    }
  }

  lemma NothingOwedNoTool(turns: seq<Turn>, m: nat)
    requires Owed(turns).Some? && m < |turns| && Owed(turns[..m]) == Some([])
    ensures !turns[m].Tool?
  {
    OwedPrefix(turns, m + 1);
    assert turns[..m + 1][..m] == turns[..m];
  }

  /** A user turn is only ever written when every earlier call is answered. */
  lemma UserTurnsOweNothing(turns: seq<Turn>, i: nat)
    requires Owed(turns).Some? && i < |turns| && turns[i].User?
    ensures Owed(turns[..i]) == Some([])
  {
    OwedPrefix(turns, i + 1);
    assert turns[..i + 1][..i] == turns[..i];
  }
}
