/** The cfg predicate parser of the platform gate: recursion with a local loop over arguments,
    resting on the bracket matcher, and the token sequences it inverts. */
module CfgParse {
  import opened Wrappers
  import opened Brackets

  datatype Op = All | Any | Not

  datatype Cfg = Flag(name: string) | Kv(name: string, value: string) | Group(op: Op, args: seq<Cfg>)

  function OpName(op: Op): string {
    match op
    case All => "all"
    case Any => "any"
    case Not => "not"
  }

  function OpOf(name: string): (op: Option<Op>)
    ensures op.Some? ==> OpName(op.value) == name
    ensures op.None? ==> name !in {"all", "any", "not"}
  {
    match name
    case "all" => Some(All)
    case "any" => Some(Any)
    case "not" => Some(Not)
    case _ => None
  }

  predicate IsPunct(toks: seq<Tok>, i: nat, text: string) {
    i < |toks| && toks[i] == Tok(Punct, text)
  }

  // ---- The parser --------------------------------------------------------------------

  /** One predicate at `i`, and the position after it. */
  function One(toks: seq<Tok>, i: nat): (r: Result<(Cfg, nat), Fault>)
    ensures r.Ok? ==> i < r.value.1 <= |toks|
    decreases |toks| - i, 0
  {
    if i >= |toks| || toks[i].kind != Ident then Err(Malformed)
    else
      var name := toks[i].text;
      if OpOf(name).Some? && IsPunct(toks, i + 1, "(") then
        match Matching(toks, i + 1)
        case Err(e) => Err(e)
        case Ok(close) =>
          match Args(toks, i + 2, close - 1)
          case Err(e) => Err(e)
          case Ok(args) =>
            if OpOf(name).value == Not && |args| != 1 then Err(Malformed)
            else Ok((Group(OpOf(name).value, args), close))
      else if IsPunct(toks, i + 1, "=") && i + 2 < |toks| && toks[i + 2].kind == Str then
        Ok((Kv(name, toks[i + 2].text), i + 3))
      else Ok((Flag(name), i + 1))
  }

  function AfterComma(toks: seq<Tok>, next: nat): nat {
    if IsPunct(toks, next, ",") then next + 1 else next
  }

  /** The arguments from `i` up to `end`: commas between them, and one allowed after the last. */
  function Args(toks: seq<Tok>, i: nat, end: nat): Result<seq<Cfg>, Fault>
    decreases |toks| - i, 1
  {
    if i >= end then Ok([])
    else
      match One(toks, i)
      case Err(e) => Err(e)
      case Ok((node, next)) =>
        if !IsPunct(toks, next, ",") && next != end then Err(Malformed)
        else
          match Args(toks, if IsPunct(toks, next, ",") then next + 1 else next, end)
          case Err(e) => Err(e)
          case Ok(rest) => Ok([node] + rest)
  }

  function Parse(toks: seq<Tok>): Result<Cfg, Fault> {
    match One(toks, 0)
    case Err(e) => Err(e)
    case Ok((node, end)) => if end != |toks| then Err(Malformed) else Ok(node)
  }

  method ParseOne(toks: seq<Tok>, i: nat) returns (r: Result<(Cfg, nat), Fault>)
    ensures r == One(toks, i)
    decreases |toks| - i, 0
  {
    if i >= |toks| || toks[i].kind != Ident {
      return Err(Malformed);
    }
    var name := toks[i].text;
    if OpOf(name).Some? && IsPunct(toks, i + 1, "(") {
      var found := FindMatching(toks, i + 1);
      if found.Err? {
        return Err(found.error);
      }
      var args := ParseArgs(toks, i + 2, found.value - 1);
      if args.Err? {
        return Err(args.error);
      }
      if name == "not" && |args.value| != 1 {
        return Err(Malformed);
      }
      return Ok((Group(OpOf(name).value, args.value), found.value));
    }
    if IsPunct(toks, i + 1, "=") && i + 2 < |toks| && toks[i + 2].kind == Str {
      return Ok((Kv(name, toks[i + 2].text), i + 3));
    }
    return Ok((Flag(name), i + 1));
  }

  method ParseArgs(toks: seq<Tok>, start: nat, end: nat) returns (r: Result<seq<Cfg>, Fault>)
    requires end <= |toks|
    ensures r == Args(toks, start, end)
    decreases |toks| - start, 1
  {
    var i := start;
    var args := [];
    PrependNothing(Args(toks, start, end));
    while i < end
      invariant i >= start
      invariant Prepend(args, Args(toks, i, end)) == Args(toks, start, end)
      decreases end - i
    {
      var one := ParseOne(toks, i);
      if one.Err? {
        return Err(one.error);
      }
      var node, next := one.value.0, one.value.1;
      PrependMore(args, node, Args(toks, if IsPunct(toks, next, ",") then next + 1 else next, end));
      args := args + [node];
      if IsPunct(toks, next, ",") {
        i := next + 1;
      } else if next != end {
        return Err(Malformed);
      } else {
        i := next;
      }
    }
    assert args + [] == args;
    return Ok(args);
  }

  ghost function Prepend(done: seq<Cfg>, rest: Result<seq<Cfg>, Fault>): Result<seq<Cfg>, Fault> {
    match rest
    case Err(e) => Err(e)
    case Ok(args) => Ok(done + args)
  }

  lemma PrependNothing(rest: Result<seq<Cfg>, Fault>)
    ensures Prepend([], rest) == rest
  {
    if rest.Ok? {
      assert [] + rest.value == rest.value;
    }
  }

  lemma PrependMore(done: seq<Cfg>, node: Cfg, rest: Result<seq<Cfg>, Fault>)
    ensures Prepend(done, Prepend([node], rest)) == Prepend(done + [node], rest)
  {
    if rest.Ok? {
      assert done + ([node] + rest.value) == done + [node] + rest.value;
    }
  }

  method ParseCfg(toks: seq<Tok>) returns (r: Result<Cfg, Fault>)
    ensures r == Parse(toks)
  {
    var one := ParseOne(toks, 0);
    if one.Err? {
      return Err(one.error);
    }
    if one.value.1 != |toks| {
      return Err(Malformed);
    }
    return Ok(one.value.0);
  }

  // ---- The tokens of a predicate -----------------------------------------------------

  function Tokens(node: Cfg): (toks: seq<Tok>)
    ensures |toks| > 0
    decreases node, 0
  {
    match node
    case Flag(name) => [Tok(Ident, name)]
    case Kv(name, value) => [Tok(Ident, name), Tok(Punct, "="), Tok(Str, value)]
    case Group(op, args) => [Tok(Ident, OpName(op)), Tok(Punct, "(")] + ArgTokens(args) + [Tok(Punct, ")")]
  }

  function ArgTokens(args: seq<Cfg>): seq<Tok>
    decreases args, 1
  {
    if args == [] then []
    else Tokens(args[0]) + if |args| == 1 then [] else [Tok(Punct, ",")] + ArgTokens(args[1..])
  }

  /** Every `not` has one argument. */
  predicate NotsAreUnary(node: Cfg) {
    match node
    case Group(op, args) => (op == Not ==> |args| == 1) && forall k | 0 <= k < |args| :: NotsAreUnary(args[k])
    case _ => true
  }

  ghost predicate Here(toks: seq<Tok>, i: nat, part: seq<Tok>) {
    i + |part| <= |toks| && toks[i..i + |part|] == part
  }

  lemma HereParts(toks: seq<Tok>, i: nat, a: seq<Tok>, b: seq<Tok>)
    ensures Here(toks, i, a + b) <==> Here(toks, i, a) && Here(toks, i + |a|, b)
  {
    if i + |a + b| <= |toks| {
      var part := toks[i..i + |a + b|];
      assert part[..|a|] == toks[i..i + |a|] && part[|a|..] == toks[i + |a|..i + |a| + |b|];
      assert part == part[..|a|] + part[|a|..];
      assert (a + b)[..|a|] == a && (a + b)[|a|..] == b;
    }
  }

  lemma HereOne(toks: seq<Tok>, i: nat, t: Tok)
    ensures Here(toks, i, [t]) <==> i < |toks| && toks[i] == t
  {
    if i < |toks| {
      assert toks[i..i + 1] == [toks[i]];
    }
  }

  lemma BalancedJoins(toks: seq<Tok>, i: nat, m: nat, j: nat)
    requires Balanced(toks, i, m) && Balanced(toks, m, j)
    ensures Balanced(toks, i, j)
    decreases m - i
  {
    if i < m {
      if IsOpen(toks[i]) {
        var k: nat :| i < k < m && Encloses(toks, i, k) && Balanced(toks, k + 1, m);
        BalancedJoins(toks, k + 1, m, j);
      } else {
        BalancedJoins(toks, i + 1, m, j);
      }
    }
  }

  lemma BalancedOne(toks: seq<Tok>, i: nat)
    requires i < |toks| && !IsOpen(toks[i]) && !IsClose(toks[i])
    ensures Balanced(toks, i, i + 1)
  {
    assert Balanced(toks, i + 1, i + 1);
  }

  /** The tokens of a group: its name, its bracket, the arguments, the close. */
  lemma GroupHere(toks: seq<Tok>, i: nat, op: Op, args: seq<Cfg>)
    requires Here(toks, i, Tokens(Group(op, args)))
    ensures i + 2 < |toks| && toks[i] == Tok(Ident, OpName(op)) && toks[i + 1] == Tok(Punct, "(")
    ensures Here(toks, i + 2, ArgTokens(args))
    ensures var end := i + 2 + |ArgTokens(args)|; end < |toks| && toks[end] == Tok(Punct, ")")
  {
    var inner := ArgTokens(args);
    var open := [Tok(Ident, OpName(op)), Tok(Punct, "(")];
    HereParts(toks, i, open + inner, [Tok(Punct, ")")]);
    HereParts(toks, i, open, inner);
    HereParts(toks, i, [Tok(Ident, OpName(op))], [Tok(Punct, "(")]);
    assert open == [Tok(Ident, OpName(op))] + [Tok(Punct, "(")];
    HereOne(toks, i, Tok(Ident, OpName(op)));
    HereOne(toks, i + 1, Tok(Punct, "("));
    HereOne(toks, i + 2 + |inner|, Tok(Punct, ")"));
  }

  lemma KvHere(toks: seq<Tok>, i: nat, name: string, value: string)
    requires Here(toks, i, Tokens(Kv(name, value)))
    ensures i + 2 < |toks|
    ensures toks[i] == Tok(Ident, name) && toks[i + 1] == Tok(Punct, "=") && toks[i + 2] == Tok(Str, value)
  {
    var part := toks[i..i + 3];
    assert part[0] == toks[i] && part[1] == toks[i + 1] && part[2] == toks[i + 2];
  }

  /** The first argument, and the comma and arguments after it. */
  lemma ArgsHere(toks: seq<Tok>, i: nat, args: seq<Cfg>)
    requires args != [] && Here(toks, i, ArgTokens(args))
    ensures Here(toks, i, Tokens(args[0]))
    ensures var m := i + |Tokens(args[0])|;
      if |args| == 1 then m == i + |ArgTokens(args)|
      else m < |toks| && toks[m] == Tok(Punct, ",") && Here(toks, m + 1, ArgTokens(args[1..]))
           && m + 1 + |ArgTokens(args[1..])| == i + |ArgTokens(args)|
  {
    hide Here, Tokens, ArgTokens;
    var first := Tokens(args[0]);
    var m := i + |first|;
    ArgTokensIs(args);
    if |args| > 1 {
      var rest := ArgTokens(args[1..]);
      HereParts(toks, i, first, [Tok(Punct, ",")] + rest);
      HereParts(toks, m, [Tok(Punct, ",")], rest);
      HereOne(toks, m, Tok(Punct, ","));
    }
  }

  lemma ArgTokensIs(args: seq<Cfg>)
    requires args != []
    ensures |args| == 1 ==> ArgTokens(args) == Tokens(args[0])
    ensures |args| > 1 ==> ArgTokens(args) == Tokens(args[0]) + ([Tok(Punct, ",")] + ArgTokens(args[1..]))
  {
    if |args| == 1 {
      assert Tokens(args[0]) + [] == Tokens(args[0]);
    }
  }

  // ---- The grammar -------------------------------------------------------------------

  /** `toks[i..j]` spells `node`. */
  ghost predicate Spells(toks: seq<Tok>, i: nat, j: nat, node: Cfg)
    decreases node, 0
  {
    match node
    case Flag(name) => j == i + 1 <= |toks| && toks[i] == Tok(Ident, name)
    case Kv(name, value) =>
      j == i + 3 <= |toks| && toks[i] == Tok(Ident, name) && IsPunct(toks, i + 1, "=") && toks[i + 2] == Tok(Str, value)
    case Group(op, args) =>
      && i + 3 <= j <= |toks| && IsPunct(toks, i + 1, "(") && IsPunct(toks, j - 1, ")")
      && toks[i] == Tok(Ident, match op case All => "all" case Any => "any" case Not => "not")
      && SpellsArgs(toks, i + 2, j - 1, args)
  }

  /** Arguments with a comma between two, and perhaps one after the last. */
  ghost predicate SpellsArgs(toks: seq<Tok>, i: nat, j: nat, args: seq<Cfg>)
    decreases args, 1
  {
    if args == [] then i == j else exists m: nat :: SpellsFrom(toks, i, m, j, args)
  }

  ghost predicate SpellsFrom(toks: seq<Tok>, i: nat, m: nat, j: nat, args: seq<Cfg>)
    requires args != []
    decreases args, 0
  {
    && i < m <= j && Spells(toks, i, m, args[0])
    && if |args| == 1 then m == j || (m + 1 == j && IsPunct(toks, m, ","))
       else m < j && IsPunct(toks, m, ",") && SpellsArgs(toks, m + 1, j, args[1..])
  }

  lemma {:induction false} SpelledBalances(toks: seq<Tok>, i: nat, j: nat, node: Cfg)
    requires Spells(toks, i, j, node)
    ensures Balanced(toks, i, j)
    ensures node.Group? ==> Encloses(toks, i + 1, j - 1)
    decreases node, 0
  {
    match node
    case Flag(_) => BalancedOne(toks, i);
    case Kv(_, _) => BalancedOne(toks, i + 2);
    case Group(op, args) =>
      SpelledArgsBalance(toks, i + 2, j - 1, args);
      GroupBalances(toks, i, j);
  }

  lemma GroupBalances(toks: seq<Tok>, i: nat, j: nat)
    requires i + 3 <= j <= |toks| && toks[i].kind == Ident && IsPunct(toks, i + 1, "(") && IsPunct(toks, j - 1, ")")
    requires Balanced(toks, i + 2, j - 1)
    ensures Balanced(toks, i, j) && Encloses(toks, i + 1, j - 1)
  {
    assert CloseOf("(") == Some(")");
    assert Encloses(toks, i + 1, j - 1) && Balanced(toks, j, j);
    assert Balanced(toks, i + 1, j);
  }

  lemma NothingBalances(toks: seq<Tok>, i: nat)
    requires i <= |toks|
    ensures Balanced(toks, i, i)
  {
  }

  lemma {:induction false} SpelledArgsBalance(toks: seq<Tok>, i: nat, j: nat, args: seq<Cfg>)
    requires SpellsArgs(toks, i, j, args) && j <= |toks|
    ensures Balanced(toks, i, j)
    decreases args, 1
  {
    hide Balanced, Spells;
    if args == [] {
      NothingBalances(toks, i);
    } else {
      var m: nat :| SpellsFrom(toks, i, m, j, args);
      SpelledBalances(toks, i, m, args[0]);
      if m < j {
        if |args| > 1 {
          SpelledArgsBalance(toks, m + 1, j, args[1..]);
        } else {
          NothingBalances(toks, j);
        }
        BalancedOne(toks, m);
        BalancedJoins(toks, m, m + 1, j);
        BalancedJoins(toks, i, m, j);
      }
    }
  }

  /** What may stand after a predicate. */
  ghost predicate Ends(toks: seq<Tok>, j: nat) {
    j >= |toks| || toks[j] == Tok(Punct, ",") || toks[j] == Tok(Punct, ")")
  }

  lemma {:induction false} OneReadsSpelled(toks: seq<Tok>, i: nat, j: nat, node: Cfg)
    requires NotsAreUnary(node) && Spells(toks, i, j, node) && Ends(toks, j)
    ensures One(toks, i) == Ok((node, j))
    decreases node, 0
  {
    hide Balanced, Args, Match, Encloses;
    match node
    case Flag(_) =>
    case Kv(_, _) =>
    case Group(op, args) =>
      SpelledBalances(toks, i, j, node);
      MatchingIsEnclosing(toks, i + 1, j);
      ArgsReadSpelled(toks, i + 2, j - 1, args);
      assert OpOf(OpName(op)) == Some(op);
  }

  lemma ArgsStep(toks: seq<Tok>, i: nat, end: nat, node: Cfg, next: nat, rest: seq<Cfg>)
    requires i < end && One(toks, i) == Ok((node, next)) && (IsPunct(toks, next, ",") || next == end)
    requires Args(toks, AfterComma(toks, next), end) == Ok(rest)
    ensures Args(toks, i, end) == Ok([node] + rest)
  {
    hide One;
  }

  lemma NoArgs(toks: seq<Tok>, i: nat)
    ensures Args(toks, i, i) == Ok([])
  {
  }

  lemma {:induction false} ArgsReadSpelled(toks: seq<Tok>, i: nat, end: nat, args: seq<Cfg>)
    requires (forall k | 0 <= k < |args| :: NotsAreUnary(args[k])) && SpellsArgs(toks, i, end, args)
    requires end < |toks| && toks[end] == Tok(Punct, ")")
    ensures Args(toks, i, end) == Ok(args)
    decreases args, 1
  {
    hide One, Args, Spells;
    if args == [] {
      NoArgs(toks, i);
    } else {
      var m: nat :| SpellsFrom(toks, i, m, end, args);
      assert NotsAreUnary(args[0]);
      OneReadsSpelled(toks, i, m, args[0]);
      if |args| > 1 {
        ArgsReadSpelled(toks, m + 1, end, args[1..]);
      } else {
        NoArgs(toks, end);
      }
      ArgsStep(toks, i, end, args[0], m, args[1..]);
      assert args == [args[0]] + args[1..];
    }
  }

  lemma {:induction false} OneIsUnary(toks: seq<Tok>, i: nat)
    requires One(toks, i).Ok?
    ensures NotsAreUnary(One(toks, i).value.0)
    decreases |toks| - i, 0
  {
    var node, next := One(toks, i).value.0, One(toks, i).value.1;
    if node.Group? {
      ArgsAreUnary(toks, i + 2, next - 1);
    }
  }

  lemma {:induction false} ArgsAreUnary(toks: seq<Tok>, i: nat, end: nat)
    requires Args(toks, i, end).Ok?
    ensures forall k | 0 <= k < |Args(toks, i, end).value| :: NotsAreUnary(Args(toks, i, end).value[k])
    decreases |toks| - i, 1
  {
    if i < end {
      OneIsUnary(toks, i);
      var next := One(toks, i).value.1;
      ArgsAreUnary(toks, if IsPunct(toks, next, ",") then next + 1 else next, end);
    }
  }

  lemma SpellsMore(toks: seq<Tok>, i: nat, m: nat, end: nat, node: Cfg, rest: seq<Cfg>)
    requires i < m <= end && Spells(toks, i, m, node) && SpellsArgs(toks, AfterComma(toks, m), end, rest)
    requires if IsPunct(toks, m, ",") then m < end else m == end
    ensures SpellsArgs(toks, i, end, [node] + rest)
  {
    hide Spells;
    var args := [node] + rest;
    assert args[1..] == rest;
    if rest != [] {
      var k: nat :| SpellsFrom(toks, AfterComma(toks, m), k, end, rest);
    }
    assert SpellsFrom(toks, i, m, end, args);
  }

  lemma {:induction false} OneIsSpelled(toks: seq<Tok>, i: nat)
    requires One(toks, i).Ok?
    ensures Spells(toks, i, One(toks, i).value.1, One(toks, i).value.0)
    decreases |toks| - i, 0
  {
    hide Balanced, Match, Args;
    var node, next := One(toks, i).value.0, One(toks, i).value.1;
    if node.Group? {
      MatchingIsEnclosing(toks, i + 1, next);
      assert CloseOf("(") == Some(")");
      ArgsAreSpelled(toks, i + 2, next - 1);
    }
  }

  lemma {:induction false} ArgsAreSpelled(toks: seq<Tok>, i: nat, end: nat)
    requires i <= end < |toks| && Balanced(toks, i, end) && toks[end] == Tok(Punct, ")") && Args(toks, i, end).Ok?
    ensures SpellsArgs(toks, i, end, Args(toks, i, end).value)
    decreases |toks| - i, 1
  {
    if i < end {
      hide Balanced, One, Spells, SpellsArgs;
      var node, next := One(toks, i).value.0, One(toks, i).value.1;
      OneStaysInside(toks, i, end);
      OneIsSpelled(toks, i);
      CommaIsBalanced(toks, next, end);
      ArgsAreSpelled(toks, AfterComma(toks, next), end);
      SpellsMore(toks, i, next, end, node, Args(toks, AfterComma(toks, next), end).value);
    }
  }

  /** The parser is the grammar: it gives a predicate exactly for the token lists that spell
      it, one comma after the last argument allowed, and whose `not`s take one argument. */
  lemma ParseIsTheGrammar(toks: seq<Tok>, node: Cfg)
    ensures Parse(toks) == Ok(node) <==> Spells(toks, 0, |toks|, node) && NotsAreUnary(node)
  {
    hide One, Spells;
    if Spells(toks, 0, |toks|, node) && NotsAreUnary(node) {
      OneReadsSpelled(toks, 0, |toks|, node);
    }
    if Parse(toks) == Ok(node) {
      OneIsSpelled(toks, 0);
      OneIsUnary(toks, 0);
    }
  }

  lemma {:induction false} TokensSpell(toks: seq<Tok>, i: nat, node: Cfg)
    requires Here(toks, i, Tokens(node))
    ensures Spells(toks, i, i + |Tokens(node)|, node)
    decreases node, 0
  {
    match node
    case Flag(name) => HereOne(toks, i, Tok(Ident, name));
    case Kv(name, value) => KvHere(toks, i, name, value);
    case Group(op, args) =>
      GroupHere(toks, i, op, args);
      ArgTokensSpell(toks, i + 2, args);
  }

  lemma {:induction false} ArgTokensSpell(toks: seq<Tok>, i: nat, args: seq<Cfg>)
    requires Here(toks, i, ArgTokens(args))
    ensures SpellsArgs(toks, i, i + |ArgTokens(args)|, args)
    decreases args, 1
  {
    if args != [] {
      hide Here, Tokens, ArgTokens, Spells;
      ArgsHere(toks, i, args);
      var m := i + |Tokens(args[0])|;
      TokensSpell(toks, i, args[0]);
      if |args| > 1 {
        ArgTokensSpell(toks, m + 1, args[1..]);
      }
      assert SpellsFrom(toks, i, m, i + |ArgTokens(args)|, args);
    }
  }

  /** So it inverts the tokens of exactly the predicates whose `not`s take one argument. */
  lemma ParseInvertsTokens(node: Cfg)
    ensures Parse(Tokens(node)) == Ok(node) <==> NotsAreUnary(node)
  {
    hide Parse, Spells, Tokens;
    var toks := Tokens(node);
    assert toks[0..0 + |toks|] == toks;
    TokensSpell(toks, 0, node);
    ParseIsTheGrammar(toks, node);
  }

  // ---- Every string is a value -------------------------------------------------------

  function Values(node: Cfg): seq<string>
    decreases node, 0
  {
    match node
    case Flag(_) => []
    case Kv(_, value) => [value]
    case Group(_, args) => ArgValues(args)
  }

  function ArgValues(args: seq<Cfg>): seq<string>
    decreases args, 1
  {
    if args == [] then [] else Values(args[0]) + ArgValues(args[1..])
  }

  function Strings(toks: seq<Tok>): seq<string> {
    if toks == [] then [] else (if toks[0].kind == Str then [toks[0].text] else []) + Strings(toks[1..])
  }

  lemma {:induction false} StringsJoin(a: seq<Tok>, b: seq<Tok>)
    ensures Strings(a + b) == Strings(a) + Strings(b)
  {
    if a == [] {
      assert a + b == b;
    } else {
      assert (a + b)[1..] == a[1..] + b;
      StringsJoin(a[1..], b);
    }
  }

  lemma StringsCut(toks: seq<Tok>, i: nat, m: nat, j: nat)
    requires i <= m <= j <= |toks|
    ensures Strings(toks[i..j]) == Strings(toks[i..m]) + Strings(toks[m..j])
  {
    assert toks[i..j] == toks[i..m] + toks[m..j];
    StringsJoin(toks[i..m], toks[m..j]);
  }

  lemma StringsOne(toks: seq<Tok>, i: nat)
    requires i < |toks|
    ensures Strings(toks[i..i + 1]) == if toks[i].kind == Str then [toks[i].text] else []
  {
    assert toks[i..i + 1] == [toks[i]];
  }

  /** A predicate never runs past the close of the group it is in. */
  lemma {:induction false} OneStaysInside(toks: seq<Tok>, i: nat, end: nat)
    requires i < end < |toks| && Balanced(toks, i, end) && IsClose(toks[end]) && One(toks, i).Ok?
    ensures One(toks, i).value.1 <= end && Balanced(toks, One(toks, i).value.1, end)
  {
    var next := One(toks, i).value.1;
    assert Balanced(toks, i + 1, end);
    if next == i + 3 && IsPunct(toks, i + 1, "=") {
      assert Balanced(toks, i + 2, end);
      assert Balanced(toks, i + 3, end);
    } else if next > i + 1 {
      assert IsOpen(toks[i + 1]);
      var m: nat :| i + 1 < m < end && Encloses(toks, i + 1, m) && Balanced(toks, m + 1, end);
      MatchingIsEnclosing(toks, i + 1, m + 1);
    }
  }

  lemma CommaIsBalanced(toks: seq<Tok>, i: nat, end: nat)
    requires i <= end < |toks| && Balanced(toks, i, end) && toks[end] == Tok(Punct, ")")
    ensures IsPunct(toks, i, ",") ==> i < end && Balanced(toks, i + 1, end)
  {
  }

  /** Two tokens that are no strings, then the rest. */
  lemma StringsAfterTwo(toks: seq<Tok>, i: nat, j: nat)
    requires i + 2 <= j <= |toks| && toks[i].kind != Str && toks[i + 1].kind != Str
    ensures Strings(toks[i..j]) == Strings(toks[i + 2..j])
  {
    hide Strings;
    StringsCut(toks, i, i + 1, j);
    StringsCut(toks, i + 1, i + 2, j);
    StringsOne(toks, i);
    StringsOne(toks, i + 1);
  }

  lemma {:induction false} OneUsesStrings(toks: seq<Tok>, i: nat)
    requires One(toks, i).Ok?
    ensures Values(One(toks, i).value.0) == Strings(toks[i..One(toks, i).value.1])
    decreases |toks| - i, 0
  {
    hide Balanced, Strings, Match, Args;
    var node, next := One(toks, i).value.0, One(toks, i).value.1;
    match node
    case Flag(_) => StringsOne(toks, i);
    case Kv(_, _) =>
      StringsAfterTwo(toks, i, next);
      StringsOne(toks, i + 2);
    case Group(_, args) =>
      MatchingIsEnclosing(toks, i + 1, next);
      ArgsUseStrings(toks, i + 2, next - 1);
      StringsAfterTwo(toks, i, next);
      StringsCut(toks, i + 2, next - 1, next);
      StringsOne(toks, next - 1);
  }

  lemma ArgsUnfold(toks: seq<Tok>, i: nat, end: nat)
    requires i < end && Args(toks, i, end).Ok?
    ensures One(toks, i).Ok?
    ensures var from := AfterComma(toks, One(toks, i).value.1);
      && Args(toks, from, end).Ok?
      && ArgValues(Args(toks, i, end).value) == Values(One(toks, i).value.0) + ArgValues(Args(toks, from, end).value)
  {
    hide One, Values;
    var node := One(toks, i).value.0;
    var rest := Args(toks, AfterComma(toks, One(toks, i).value.1), end).value;
    assert ([node] + rest)[1..] == rest;
  }

  lemma StringsAfterComma(toks: seq<Tok>, i: nat, next: nat, end: nat)
    requires i <= next <= end <= |toks| && AfterComma(toks, next) <= end
    ensures Strings(toks[i..end]) == Strings(toks[i..next]) + Strings(toks[AfterComma(toks, next)..end])
  {
    hide Strings;
    StringsCut(toks, i, next, end);
    if IsPunct(toks, next, ",") {
      StringsCut(toks, next, next + 1, end);
      StringsOne(toks, next);
    }
  }

  lemma {:induction false} ArgsUseStrings(toks: seq<Tok>, i: nat, end: nat)
    requires i <= end < |toks| && Balanced(toks, i, end) && toks[end] == Tok(Punct, ")") && Args(toks, i, end).Ok?
    ensures ArgValues(Args(toks, i, end).value) == Strings(toks[i..end])
    decreases |toks| - i, 1
  {
    if i < end {
      hide Balanced, Strings, One, Values, Args, ArgValues;
      ArgsUnfold(toks, i, end);
      var next := One(toks, i).value.1;
      OneStaysInside(toks, i, end);
      OneUsesStrings(toks, i);
      CommaIsBalanced(toks, next, end);
      ArgsUseStrings(toks, AfterComma(toks, next), end);
      StringsAfterComma(toks, i, next, end);
    }
  }

  /** A parsed predicate holds the strings of its tokens, all of them, in order. */
  lemma ParseUsesEveryString(toks: seq<Tok>)
    requires Parse(toks).Ok?
    ensures Values(Parse(toks).value) == Strings(toks)
  {
    OneUsesStrings(toks, 0);
    assert toks[0..|toks|] == toks;
  }
}
