/** Finding the close of a bracket: one gate keeps a stack of the closes it waits for, another
    only counts depth. Both are compared with balanced words. */
module Brackets {
  import opened Wrappers

  datatype Kind = Ident | Punct | Str | Lit

  datatype Tok = Tok(kind: Kind, text: string)

  function CloseOf(text: string): (close: Option<string>) {
    match text
    case "(" => Some(")")
    case "[" => Some("]")
    case "{" => Some("}")
    case _ => None
  }

  predicate IsOpen(t: Tok) {
    t.kind == Punct && CloseOf(t.text).Some?
  }

  predicate IsClose(t: Tok) {
    t.kind == Punct && t.text in {")", "]", "}"}
  }

  /** Three pairs of brackets, and only as punctuation. */
  lemma BracketsAre(t: Tok)
    ensures IsOpen(t) <==> t in {Tok(Punct, "("), Tok(Punct, "["), Tok(Punct, "{")}
    ensures IsClose(t) <==> t in {Tok(Punct, ")"), Tok(Punct, "]"), Tok(Punct, "}")}
    ensures IsOpen(t) ==> (t.text, CloseOf(t.text).value) in {("(", ")"), ("[", "]"), ("{", "}")}
  {
  }

  datatype Fault = Mismatched(at: nat) | Unbalanced | Malformed

  // ---- Balanced words ----------------------------------------------------------------

  /** `toks[i..j]` is balanced: every bracket in it is closed in it, by its own kind. */
  ghost predicate Balanced(toks: seq<Tok>, i: nat, j: nat)
    decreases j - i
  {
    && i <= j <= |toks|
    && (i < j ==>
          if IsOpen(toks[i]) then exists m: nat | i < m < j :: Encloses(toks, i, m) && Balanced(toks, m + 1, j)
          else !IsClose(toks[i]) && Balanced(toks, i + 1, j))
  }

  /** The bracket at `i` is closed at `m`, with a balanced word between. */
  ghost predicate Encloses(toks: seq<Tok>, i: nat, m: nat)
    decreases m - i, 0
  {
    && i < m < |toks| && IsOpen(toks[i]) && toks[m] == Tok(Punct, CloseOf(toks[i].text).value)
    && Balanced(toks, i + 1, m)
  }

  // ---- The stack ---------------------------------------------------------------------

  /** From `i` on, waiting for the closes on the stack: the position after the last of them. */
  function Match(toks: seq<Tok>, i: nat, stack: seq<string>): (r: Result<nat, Fault>)
    requires i <= |toks|
    ensures r.Ok? ==> i + |stack| <= r.value <= |toks|
    decreases |toks| - i
  {
    if stack == [] then Ok(i)
    else if i == |toks| then Err(Unbalanced)
    else
      var t := toks[i];
      if IsOpen(t) then Match(toks, i + 1, stack + [CloseOf(t.text).value])
      else if IsClose(t) then
        if t.text != stack[|stack| - 1] then Err(Mismatched(i)) else Match(toks, i + 1, stack[..|stack| - 1])
      else Match(toks, i + 1, stack)
  }

  /** The gate's matcher. The token at `start` must be a bracket; its kind is not looked at. */
  function Matching(toks: seq<Tok>, start: nat): (r: Result<nat, Fault>)
    requires start < |toks| && CloseOf(toks[start].text).Some?
    ensures r.Ok? ==> start + 2 <= r.value <= |toks|
  {
    Match(toks, start + 1, [CloseOf(toks[start].text).value])
  }

  method FindMatching(toks: seq<Tok>, start: nat) returns (r: Result<nat, Fault>)
    requires start < |toks| && CloseOf(toks[start].text).Some?
    ensures r == Matching(toks, start)
  {
    var stack := [CloseOf(toks[start].text).value];
    var i := start + 1;
    while i < |toks| && stack != []
      invariant start < i <= |toks| && Match(toks, i, stack) == Matching(toks, start)
    {
      var t := toks[i];
      if t.kind == Punct {
        if CloseOf(t.text).Some? {
          stack := stack + [CloseOf(t.text).value];
        } else if t.text in {")", "]", "}"} {
          var last := |stack| - 1;
          if t.text != stack[last] {
            return Err(Mismatched(i));
          }
          stack := stack[..last];
        }
      }
      i := i + 1;
    }
    if stack != [] {
      return Err(Unbalanced);
    }
    return Ok(i);
  }

  /** A balanced word leaves the stack as it was. */
  lemma {:induction false} BalancedIsSkipped(toks: seq<Tok>, i: nat, j: nat, stack: seq<string>)
    requires Balanced(toks, i, j) && stack != []
    ensures Match(toks, i, stack) == Match(toks, j, stack)
    decreases j - i
  {
    if i < j {
      if IsOpen(toks[i]) {
        var m: nat :| i < m < j && Encloses(toks, i, m) && Balanced(toks, m + 1, j);
        var close := CloseOf(toks[i].text).value;
        BalancedIsSkipped(toks, i + 1, m, stack + [close]);
        assert (stack + [close])[..|stack|] == stack;
        BalancedIsSkipped(toks, m + 1, j, stack);
      } else {
        BalancedIsSkipped(toks, i + 1, j, stack);
      }
    }
  }

  /** Wherever the stack runs empty, what was skipped before its top was balanced. */
  lemma {:induction false} SkippedIsBalanced(toks: seq<Tok>, i: nat, stack: seq<string>, j: nat) returns (m: nat)
    requires i <= |toks| && stack != [] && Match(toks, i, stack) == Ok(j)
    ensures Balanced(toks, i, m) && m < |toks| && toks[m] == Tok(Punct, stack[|stack| - 1])
    ensures Match(toks, m + 1, stack[..|stack| - 1]) == Ok(j)
    decreases |toks| - i
  {
    var t := toks[i];
    if IsOpen(t) {
      var close := CloseOf(t.text).value;
      var n := SkippedIsBalanced(toks, i + 1, stack + [close], j);
      assert (stack + [close])[..|stack|] == stack;
      m := SkippedIsBalanced(toks, n + 1, stack, j);
      assert Encloses(toks, i, n);
    } else if IsClose(t) {
      m := i;
    } else {
      m := SkippedIsBalanced(toks, i + 1, stack, j);
    }
  }

  /** The matcher answers `j` exactly when the bracket is closed, by its own kind, just before
      `j` with a balanced word between; in every other case it fails. */
  lemma MatchingIsEnclosing(toks: seq<Tok>, start: nat, j: nat)
    requires start < |toks| && IsOpen(toks[start])
    ensures Matching(toks, start) == Ok(j) <==> j > 0 && Encloses(toks, start, j - 1)
  {
    var close := CloseOf(toks[start].text).value;
    if Matching(toks, start) == Ok(j) {
      var m := SkippedIsBalanced(toks, start + 1, [close], j);
      assert [close][..0] == [];
    }
    if j > 0 && Encloses(toks, start, j - 1) {
      BalancedIsSkipped(toks, start + 1, j - 1, [close]);
      assert [close][..0] == [];
    }
  }

  // ---- The counter -------------------------------------------------------------------

  function Count(toks: seq<Tok>, k: nat, depth: int): (r: Result<nat, Fault>)
    requires k <= |toks|
    ensures r.Ok? ==> k <= r.value < |toks|
    decreases |toks| - k
  {
    if k == |toks| then Err(Unbalanced)
    else if IsOpen(toks[k]) then Count(toks, k + 1, depth + 1)
    else if IsClose(toks[k]) then if depth == 1 then Ok(k) else Count(toks, k + 1, depth - 1)
    else Count(toks, k + 1, depth)
  }

  method Closing(toks: seq<Tok>, at: nat) returns (r: Result<nat, Fault>)
    requires at <= |toks|
    ensures r == Count(toks, at, 0)
  {
    var depth := 0;
    for k := at to |toks|
      invariant Count(toks, k, depth) == Count(toks, at, 0)
    {
      if IsOpen(toks[k]) {
        depth := depth + 1;
      } else if IsClose(toks[k]) {
        depth := depth - 1;
        if depth == 0 {
          return Ok(k);
        }
      }
    }
    return Err(Unbalanced);
  }

  lemma {:induction false} StackIsDepth(toks: seq<Tok>, i: nat, stack: seq<string>)
    requires i <= |toks| && stack != []
    ensures var r, c := Match(toks, i, stack), Count(toks, i, |stack|);
      && (r.Ok? ==> c == Ok(r.value - 1))
      && (c.Ok? ==> r == Ok(c.value + 1) || (r.Err? && r.error.Mismatched? && r.error.at <= c.value))
    decreases |toks| - i
  {
    if i < |toks| {
      var t := toks[i];
      if IsOpen(t) {
        StackIsDepth(toks, i + 1, stack + [CloseOf(t.text).value]);
      } else if IsClose(t) {
        if t.text == stack[|stack| - 1] && |stack| > 1 {
          StackIsDepth(toks, i + 1, stack[..|stack| - 1]);
        }
      } else {
        StackIsDepth(toks, i + 1, stack);
      }
    }
  }

  /** Where the stack succeeds the counter finds the same close. Where the counter finds one the
      stack does too, unless it met a bracket of the wrong kind on the way. */
  lemma CounterFollowsStack(toks: seq<Tok>, at: nat)
    requires at < |toks| && IsOpen(toks[at])
    ensures var r, c := Matching(toks, at), Count(toks, at, 0);
      && (r.Ok? ==> c == Ok(r.value - 1))
      && (c.Ok? ==> r == Ok(c.value + 1) || (r.Err? && r.error.Mismatched? && r.error.at <= c.value))
  {
    StackIsDepth(toks, at + 1, [CloseOf(toks[at].text).value]);
  }
}
