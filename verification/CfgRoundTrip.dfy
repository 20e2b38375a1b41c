/** Printing a cfg predicate, lexing the text and parsing the tokens gives the predicate back
    exactly when every value could stand between plain quotes. */
module CfgRoundTrip {
  import opened Wrappers
  import opened Brackets
  import opened CfgParse
  import opened CfgLex
  import Mask

  // ---- The printer -------------------------------------------------------------------

  function Render(node: Cfg): string
    decreases node, 0
  {
    match node
    case Flag(name) => name
    case Kv(name, value) => name + (" = " + ("\"" + value + "\""))
    case Group(op, args) => OpName(op) + ("(" + (RenderArgs(args) + ")"))
  }

  function RenderArgs(args: seq<Cfg>): string
    decreases args, 1
  {
    if args == [] then ""
    else if |args| == 1 then Render(args[0])
    else Render(args[0]) + (", " + RenderArgs(args[1..]))
  }

  predicate WellNamed(node: Cfg) {
    match node
    case Flag(name) => IsName(name)
    case Kv(name, _) => IsName(name)
    case Group(_, args) => forall k | 0 <= k < |args| :: WellNamed(args[k])
  }

  predicate Scans(v: string, i: nat)
    decreases |v| - i
  {
    i == |v| || (i < |v| && v[i] != '"' && Scans(v, if v[i] == '\\' then i + 2 else i + 1))
  }

  /** No quote but an escaped one, and no backslash that would escape the closing quote. */
  predicate Quotable(v: string) {
    Scans(v, 0)
  }

  ghost predicate AllQuotable(vs: seq<string>) {
    forall k | 0 <= k < |vs| :: Quotable(vs[k])
  }

  // ---- Texts in place ----------------------------------------------------------------

  lemma AtParts(s: string, i: nat, a: string, b: string)
    ensures Mask.At(s, i, a + b) <==> Mask.At(s, i, a) && Mask.At(s, i + |a|, b)
  {
    if i + |a + b| <= |s| {
      var part := s[i..i + |a + b|];
      assert part[..|a|] == s[i..i + |a|] && part[|a|..] == s[i + |a|..i + |a| + |b|];
      assert part == part[..|a|] + part[|a|..];
      assert (a + b)[..|a|] == a && (a + b)[|a|..] == b;
    }
  }

  lemma AtChar(s: string, i: nat, c: char)
    requires Mask.At(s, i, [c])
    ensures i < |s| && s[i] == c
  {
    assert s[i..i + 1][0] == s[i];
  }

  lemma NameIsHere(s: string, i: nat, name: string)
    requires IsName(name) && Mask.At(s, i, name) && Boundary(s, i + |name|)
    ensures NameHere(s, i, name)
  {
    forall k | 0 <= k < |name|
      ensures s[i + k] == name[k]
    {
      assert s[i..i + |name|][k] == s[i + k];
    }
  }

  lemma OpNameIsName(op: Op)
    ensures IsName(OpName(op))
  {
    var t := OpName(op);
    assert t[0] != 'r';
    assert "r#"[0] == 'r';
    assert |t| == 3 && IsNameChar(t[0]) && IsNameChar(t[1]) && IsNameChar(t[2]);
  }

  lemma PunctIsOne(s: string, i: nat, c: char)
    requires i < |s| && s[i] == c && c in {'(', ')', ',', '='} && (c == '=' && i + 1 < |s| ==> s[i + 1] == ' ')
    ensures PunctEnd(s, i) == i + 1
  {
    if i + 1 < |s| {
      var two := s[i..i + 2];
      assert two[0] == c && two[1] == s[i + 1];
      forall k | 0 <= k < |MULTI_PUNCT|
        ensures two != MULTI_PUNCT[k]
      {
        assert MULTI_PUNCT[k][0] == two[0] ==> MULTI_PUNCT[k][1] in {'=', '>'};
      }
    }
  }

  lemma ReadsPunct(s: string, i: nat, c: char)
    requires c in {'(', ')', ',', '='} && Mask.At(s, i, [c]) && (c == '=' ==> Mask.At(s, i + 1, " "))
    ensures Reads(s, i, [Tok(Punct, [c])], i + 1)
  {
    hide Reads, PunctEnd, Mask.At, Mask.HashRun, Mask.HexRun, RunEnd;
    AtChar(s, i, c);
    if c == '=' {
      AtChar(s, i + 1, ' ');
    }
    NoComment(s, i);
    PunctIsOne(s, i, c);
    assert s[i..i + 1] == [c];
    ReadsStep(s, i, Some(Tok(Punct, [c])), i + 1);
  }

  lemma ReadsSpace(s: string, i: nat)
    requires Mask.At(s, i, " ")
    ensures Reads(s, i, [], i + 1)
  {
    AtChar(s, i, ' ');
    ReadsStep(s, i, None, i + 1);
  }

  // ---- Strings -----------------------------------------------------------------------

  lemma {:induction false} EndIsScan(s: string, i: nat, v: string, k: nat)
    requires Mask.At(s, i, v) && Mask.At(s, i + |v|, "\"") && k <= |v| + 1
    ensures StringEnd(s, i + k) == Some(i + |v|) <==> Scans(v, k)
    decreases |v| + 1 - k
  {
    AtChar(s, i + |v|, '"');
    if k < |v| {
      assert s[i..i + |v|][k] == s[i + k];
      EndIsScan(s, i, v, if v[k] == '\\' then k + 2 else k + 1);
    }
  }

  lemma StringStep(s: string, i: nat)
    requires Mask.At(s, i, "\"")
    ensures i < |s|
    ensures match StringEnd(s, i + 1)
            case None => LexFrom(s, i).Err?
            case Some(e) => Reads(s, i, [Tok(Str, s[i + 1..e])], e + 1)
  {
    hide Mask.HashRun, Mask.HexRun, RunEnd, StringEnd;
    AtChar(s, i, '"');
    NoComment(s, i);
    if StringEnd(s, i + 1).Some? {
      var e := StringEnd(s, i + 1).value;
      ReadsStep(s, i, Some(Tok(Str, s[i + 1..e])), e + 1);
    }
  }

  lemma ReadsString(s: string, i: nat, v: string)
    requires Mask.At(s, i, "\"" + v + "\"") && Quotable(v)
    ensures Reads(s, i, [Tok(Str, v)], i + |v| + 2)
  {
    hide Reads, StringEnd, Mask.At;
    AtParts(s, i, "\"" + v, "\"");
    AtParts(s, i, "\"", v);
    EndIsScan(s, i + 1, v, 0);
    StringStep(s, i);
    AtText(s, i + 1, v);
  }

  lemma AtText(s: string, i: nat, v: string)
    requires Mask.At(s, i, v)
    ensures i + |v| <= |s| && s[i..i + |v|] == v
  {
  }

  // ---- Whole predicates --------------------------------------------------------------

  lemma ReadsKvHead(s: string, i: nat, name: string)
    requires IsName(name) && Mask.At(s, i, name + " = ")
    ensures Reads(s, i, [Tok(Ident, name), Tok(Punct, "=")], i + |name| + 3)
  {
    hide Reads, Mask.At;
    var e := i + |name|;
    AtParts(s, i, name, " = ");
    assert " = " == " " + ("=" + " ");
    AtParts(s, e, " ", "=" + " ");
    AtParts(s, e + 1, "=", " ");
    AtChar(s, e, ' ');
    NameIsHere(s, i, name);
    ReadsName(s, i, name);
    ReadsSpace(s, e);
    ReadsPunct(s, e + 1, '=');
    ReadsSpace(s, e + 2);
    ReadsOn(s, i, [Tok(Ident, name)], e, [], e + 1);
    ReadsOn(s, e + 1, [Tok(Punct, "=")], e + 2, [], e + 3);
    ReadsOn(s, i, [Tok(Ident, name)] + [], e + 1, [Tok(Punct, "=")] + [], e + 3);
    assert [Tok(Ident, name)] + [] + ([Tok(Punct, "=")] + []) == [Tok(Ident, name), Tok(Punct, "=")];
  }

  lemma ReadsOpen(s: string, i: nat, op: Op)
    requires Mask.At(s, i, OpName(op) + "(")
    ensures Reads(s, i, [Tok(Ident, OpName(op)), Tok(Punct, "(")], i + |OpName(op)| + 1)
  {
    hide Reads, Mask.At;
    var name := OpName(op);
    var e := i + |name|;
    AtParts(s, i, name, "(");
    AtChar(s, e, '(');
    OpNameIsName(op);
    NameIsHere(s, i, name);
    ReadsName(s, i, name);
    ReadsPunct(s, e, '(');
    ReadsOn(s, i, [Tok(Ident, name)], e, [Tok(Punct, "(")], e + 1);
    assert [Tok(Ident, name)] + [Tok(Punct, "(")] == [Tok(Ident, name), Tok(Punct, "(")];
  }

  lemma ReadsComma(s: string, i: nat)
    requires Mask.At(s, i, ", ")
    ensures Reads(s, i, [Tok(Punct, ",")], i + 2) && Boundary(s, i)
  {
    hide Reads, Mask.At;
    assert ", " == "," + " ";
    AtParts(s, i, ",", " ");
    AtChar(s, i, ',');
    ReadsPunct(s, i, ',');
    ReadsSpace(s, i + 1);
    ReadsOn(s, i, [Tok(Punct, ",")], i + 1, [], i + 2);
    assert [Tok(Punct, ",")] + [] == [Tok(Punct, ",")];
  }

  /** Where the parts of a rendered group stand. */
  lemma GroupText(s: string, i: nat, op: Op, args: seq<Cfg>)
    requires Mask.At(s, i, Render(Group(op, args)))
    ensures var from := i + |OpName(op)| + 1;
      && Mask.At(s, i, OpName(op) + "(") && Mask.At(s, from, RenderArgs(args))
      && Mask.At(s, from + |RenderArgs(args)|, ")")
      && from + |RenderArgs(args)| + 1 == i + |Render(Group(op, args))|
  {
    hide Mask.At, RenderArgs;
    var inner := RenderArgs(args);
    AtParts(s, i, OpName(op), "(" + (inner + ")"));
    AtParts(s, i + |OpName(op)|, "(", inner + ")");
    AtParts(s, i + |OpName(op)| + 1, inner, ")");
    AtParts(s, i, OpName(op), "(");
  }

  lemma KvText(s: string, i: nat, name: string, value: string)
    requires Mask.At(s, i, Render(Kv(name, value)))
    ensures Mask.At(s, i, name + " = ") && Mask.At(s, i + |name| + 3, "\"" + value + "\"")
    ensures |Render(Kv(name, value))| == |name| + 3 + |value| + 2
  {
    hide Mask.At;
    var quoted := "\"" + value + "\"";
    AtParts(s, i, name, " = " + quoted);
    AtParts(s, i + |name|, " = ", quoted);
    AtParts(s, i, name, " = ");
  }

  lemma ArgsText(s: string, i: nat, args: seq<Cfg>)
    requires args != [] && Mask.At(s, i, RenderArgs(args))
    ensures Mask.At(s, i, Render(args[0]))
    ensures var m := i + |Render(args[0])|;
      if |args| == 1 then m == i + |RenderArgs(args)|
      else Mask.At(s, m, ", ") && Mask.At(s, m + 2, RenderArgs(args[1..]))
           && m + 2 + |RenderArgs(args[1..])| == i + |RenderArgs(args)|
  {
    hide Mask.At, Render;
    if |args| > 1 {
      var rest := RenderArgs(args[1..]);
      AtParts(s, i, Render(args[0]), ", " + rest);
      AtParts(s, i + |Render(args[0])|, ", ", rest);
    }
  }

  lemma ArgValuesAre(args: seq<Cfg>)
    requires args != [] && AllQuotable(ArgValues(args))
    ensures AllQuotable(Values(args[0])) && AllQuotable(ArgValues(args[1..]))
  {
    var a, b := Values(args[0]), ArgValues(args[1..]);
    var all := a + b;
    assert all == ArgValues(args);
    assert forall k | 0 <= k < |a| :: a[k] == all[k];
    assert forall k | 0 <= k < |b| :: b[k] == all[|a| + k];
  }

  /** The text of a quotable predicate lexes to its tokens. */
  lemma {:induction false} ReadsRendered(s: string, i: nat, node: Cfg)
    requires WellNamed(node) && AllQuotable(Values(node))
    requires Mask.At(s, i, Render(node)) && Boundary(s, i + |Render(node)|)
    ensures Reads(s, i, Tokens(node), i + |Render(node)|)
    decreases node, 0
  {
    hide Reads, Mask.At, Boundary;
    match node
    case Flag(name) =>
      NameIsHere(s, i, name);
      ReadsName(s, i, name);
    case Kv(name, value) =>
      KvText(s, i, name, value);
      ReadsKvHead(s, i, name);
      var from := i + |name| + 3;
      assert Quotable(Values(node)[0]);
      ReadsString(s, from, value);
      ReadsOn(s, i, [Tok(Ident, name), Tok(Punct, "=")], from, [Tok(Str, value)], from + |value| + 2);
      assert [Tok(Ident, name), Tok(Punct, "=")] + [Tok(Str, value)] == Tokens(node);
    case Group(op, args) =>
      GroupText(s, i, op, args);
      ReadsOpen(s, i, op);
      var from := i + |OpName(op)| + 1;
      var end := from + |RenderArgs(args)|;
      CloseIsBoundary(s, end);
      ReadsRenderedArgs(s, from, args);
      ReadsPunct(s, end, ')');
      var open := [Tok(Ident, OpName(op)), Tok(Punct, "(")];
      ReadsOn(s, i, open, from, ArgTokens(args), end);
      ReadsOn(s, i, open + ArgTokens(args), end, [Tok(Punct, ")")], end + 1);
  }

  lemma CloseIsBoundary(s: string, i: nat)
    requires Mask.At(s, i, ")")
    ensures Boundary(s, i)
  {
    AtChar(s, i, ')');
  }

  lemma ReadsNoArgs(s: string, i: nat)
    requires Mask.At(s, i, RenderArgs([]))
    ensures Reads(s, i, ArgTokens([]), i + |RenderArgs([])|)
  {
    ThenNothing(LexFrom(s, i));
  }

  lemma {:induction false} ReadsRenderedArgs(s: string, i: nat, args: seq<Cfg>)
    requires (forall k | 0 <= k < |args| :: WellNamed(args[k])) && AllQuotable(ArgValues(args))
    requires Mask.At(s, i, RenderArgs(args)) && Boundary(s, i + |RenderArgs(args)|)
    ensures Reads(s, i, ArgTokens(args), i + |RenderArgs(args)|)
    decreases args, 1
  {
    hide Reads, Mask.At, Boundary, Render, Tokens, Values, ArgTokens, RenderArgs;
    if args == [] {
      ReadsNoArgs(s, i);
    } else {
      ArgsText(s, i, args);
      ArgValuesAre(args);
      ArgTokensIs(args);
      var m := i + |Render(args[0])|;
      if |args| == 1 {
        ReadsRendered(s, i, args[0]);
      } else {
        var j := i + |RenderArgs(args)|;
        ReadsComma(s, m);
        ReadsRendered(s, i, args[0]);
        ReadsRenderedArgs(s, m + 2, args[1..]);
        ReadsOn(s, m, [Tok(Punct, ",")], m + 2, ArgTokens(args[1..]), j);
        ReadsOn(s, i, Tokens(args[0]), m, [Tok(Punct, ",")] + ArgTokens(args[1..]), j);
      }
    }
  }

  // ---- The first value that cannot be quoted -----------------------------------------

  lemma {:induction false} StringsAreValues(node: Cfg)
    ensures Strings(Tokens(node)) == Values(node)
    decreases node, 0
  {
    match node
    case Flag(name) => StringsOfOne(Tok(Ident, name));
    case Kv(name, value) =>
      var a, b, c := [Tok(Ident, name)], [Tok(Punct, "=")], [Tok(Str, value)];
      assert Tokens(node) == a + b + c;
      StringsJoin(a + b, c);
      StringsJoin(a, b);
      StringsOfOne(a[0]);
      StringsOfOne(b[0]);
      StringsOfOne(c[0]);
    case Group(op, args) =>
      var a, b, c := [Tok(Ident, OpName(op))], [Tok(Punct, "(")], [Tok(Punct, ")")];
      assert [Tok(Ident, OpName(op)), Tok(Punct, "(")] == a + b;
      StringsJoin(a + b + ArgTokens(args), c);
      StringsJoin(a + b, ArgTokens(args));
      StringsJoin(a, b);
      StringsOfOne(a[0]);
      StringsOfOne(b[0]);
      StringsOfOne(c[0]);
      StringsAreArgValues(args);
  }

  lemma StringsOfOne(t: Tok)
    ensures Strings([t]) == if t.kind == Str then [t.text] else []
  {
    assert [t][1..] == [];
  }

  lemma {:induction false} StringsAreArgValues(args: seq<Cfg>)
    ensures Strings(ArgTokens(args)) == ArgValues(args)
    decreases args, 1
  {
    if args != [] {
      StringsAreValues(args[0]);
      ArgTokensIs(args);
      if |args| > 1 {
        var comma := [Tok(Punct, ",")];
        StringsAreArgValues(args[1..]);
        StringsJoin(Tokens(args[0]), comma + ArgTokens(args[1..]));
        StringsJoin(comma, ArgTokens(args[1..]));
        StringsOfOne(comma[0]);
      } else {
        assert ArgValues(args[1..]) == [];
      }
    }
  }

  /** The lexer comes with `pre` to the opening quote of the value that has as many before it
      as `pre` has strings, and that value cannot be quoted. */
  ghost predicate Stuck(s: string, i: nat, pre: seq<Tok>, k: nat, vs: seq<string>) {
    && Reads(s, i, pre, k) && |Strings(pre)| < |vs|
    && !Quotable(vs[|Strings(pre)|]) && Mask.At(s, k, "\"" + vs[|Strings(pre)|] + "\"")
  }

  lemma StuckLater(s: string, i: nat, a: seq<Tok>, m: nat, vs: seq<string>, pre: seq<Tok>, k: nat, ws: seq<string>)
    requires Reads(s, i, a, m) && |Strings(a)| == |vs| && Stuck(s, m, pre, k, ws)
    ensures Stuck(s, i, a + pre, k, vs + ws)
  {
    hide Reads;
    ReadsOn(s, i, a, m, pre, k);
    StringsJoin(a, pre);
    assert (vs + ws)[|vs| + |Strings(pre)|] == ws[|Strings(pre)|];
  }

  lemma {:induction false} StuckIn(s: string, i: nat, node: Cfg) returns (pre: seq<Tok>, k: nat)
    requires WellNamed(node) && !AllQuotable(Values(node)) && Mask.At(s, i, Render(node))
    ensures Stuck(s, i, pre, k, Values(node))
    decreases node, 0
  {
    hide Reads, Mask.At, Strings;
    match node
    case Flag(name) =>
    case Kv(name, value) =>
      KvText(s, i, name, value);
      ReadsKvHead(s, i, name);
      pre, k := [Tok(Ident, name), Tok(Punct, "=")], i + |name| + 3;
      StringsOfTwo(Tok(Ident, name), Tok(Punct, "="));
    case Group(op, args) =>
      GroupText(s, i, op, args);
      ReadsOpen(s, i, op);
      var open := [Tok(Ident, OpName(op)), Tok(Punct, "(")];
      var from := i + |OpName(op)| + 1;
      pre, k := StuckInArgs(s, from, args);
      StringsOfTwo(open[0], open[1]);
      StuckLater(s, i, open, from, [], pre, k, ArgValues(args));
      assert [] + ArgValues(args) == ArgValues(args);
      pre := open + pre;
  }

  lemma StringsOfTwo(a: Tok, b: Tok)
    requires a.kind != Str && b.kind != Str
    ensures Strings([a, b]) == []
  {
    assert [a, b] == [a] + [b];
    StringsJoin([a], [b]);
    StringsOfOne(a);
    StringsOfOne(b);
  }

  lemma StuckFirst(s: string, i: nat, pre: seq<Tok>, k: nat, vs: seq<string>, ws: seq<string>)
    requires Stuck(s, i, pre, k, vs)
    ensures Stuck(s, i, pre, k, vs + ws)
  {
    hide Reads, Mask.At;
    assert (vs + ws)[|Strings(pre)|] == vs[|Strings(pre)|];
  }

  lemma {:induction false} StuckInArgs(s: string, i: nat, args: seq<Cfg>) returns (pre: seq<Tok>, k: nat)
    requires (forall k | 0 <= k < |args| :: WellNamed(args[k])) && !AllQuotable(ArgValues(args))
    requires Mask.At(s, i, RenderArgs(args))
    ensures Stuck(s, i, pre, k, ArgValues(args))
    decreases args, 1
  {
    hide Reads, Mask.At, Render, Tokens, Values, RenderArgs, Stuck, Strings, Boundary;
    ArgsText(s, i, args);
    var vs, ws := Values(args[0]), ArgValues(args[1..]);
    if !AllQuotable(vs) {
      pre, k := StuckIn(s, i, args[0]);
      StuckFirst(s, i, pre, k, vs, ws);
    } else {
      var m := i + |Render(args[0])|;
      QuotableJoins(vs, ws);
      ReadsComma(s, m);
      ReadsRendered(s, i, args[0]);
      pre, k := StuckInArgs(s, m + 2, args[1..]);
      var comma := [Tok(Punct, ",")];
      ReadsOn(s, i, Tokens(args[0]), m, comma, m + 2);
      CommaAddsNoString(args[0]);
      StuckLater(s, i, Tokens(args[0]) + comma, m + 2, vs, pre, k, ws);
      pre := Tokens(args[0]) + comma + pre;
    }
  }

  lemma CommaAddsNoString(node: Cfg)
    ensures |Strings(Tokens(node) + [Tok(Punct, ",")])| == |Values(node)|
  {
    StringsAreValues(node);
    StringsJoin(Tokens(node), [Tok(Punct, ",")]);
    StringsOfOne(Tok(Punct, ","));
  }

  lemma QuotableJoins(vs: seq<string>, ws: seq<string>)
    ensures AllQuotable(vs) && AllQuotable(ws) ==> AllQuotable(vs + ws)
  {
  }

  // ---- The round trip ----------------------------------------------------------------

  function Reparsed(node: Cfg): Option<Cfg> {
    match Lex(Render(node))
    case Err(_) => None
    case Ok(toks) => if Parse(toks).Ok? then Some(Parse(toks).value) else None
  }

  /** The lexer takes another string there than the value. */
  lemma StuckIsAnother(s: string, pre: seq<Tok>, k: nat, vs: seq<string>)
    requires Stuck(s, 0, pre, k, vs) && Lex(s).Ok?
    ensures var p := |Strings(pre)|; p < |Strings(Lex(s).value)| && Strings(Lex(s).value)[p] != vs[p]
  {
    hide StringEnd, Mask.At, Quotable, LexFrom;
    var v := vs[|Strings(pre)|];
    AtParts(s, k, "\"" + v, "\"");
    AtParts(s, k, "\"", v);
    StringStep(s, k);
    NotTheEnd(s, k + 1, v);
    var rest := LexFrom(s, k).value;
    var e := StringEnd(s, k + 1).value;
    var w := Tok(Str, s[k + 1..e]);
    StringsJoin(pre, rest);
    assert rest[0] == w && Strings(rest)[0] == w.text;
    assert |w.text| != |v|;
  }

  lemma NotTheEnd(s: string, i: nat, v: string)
    requires Mask.At(s, i, v) && Mask.At(s, i + |v|, "\"") && !Quotable(v)
    ensures StringEnd(s, i) != Some(i + |v|)
  {
    EndIsScan(s, i, v, 0);
  }

  lemma StuckIsNotReparsed(s: string, pre: seq<Tok>, k: nat, node: Cfg)
    requires Stuck(s, 0, pre, k, Values(node))
    ensures Lex(s).Ok? ==> Parse(Lex(s).value) != Ok(node)
  {
    hide Parse, Stuck, Strings, LexFrom;
    if Lex(s).Ok? {
      StuckIsAnother(s, pre, k, Values(node));
      if Parse(Lex(s).value).Ok? {
        ParseUsesEveryString(Lex(s).value);
      }
    }
  }

  /** What printing, lexing and parsing give back. */
  lemma RenderRoundTrips(node: Cfg)
    requires WellNamed(node)
    ensures Reparsed(node) == Some(node) <==> NotsAreUnary(node) && AllQuotable(Values(node))
  {
    hide Parse, Mask.At, Boundary, Reads;
    var s := Render(node);
    WholeText(s);
    if AllQuotable(Values(node)) {
      ReadsRendered(s, 0, node);
      ReadsAll(s, Tokens(node));
      ParseInvertsTokens(node);
    } else {
      var pre, k := StuckIn(s, 0, node);
      StuckIsNotReparsed(s, pre, k, node);
    }
  }

  lemma WholeText(s: string)
    ensures Mask.At(s, 0, s) && Boundary(s, 0 + |s|)
  {
    assert s[0..0 + |s|] == s;
  }

  lemma ReadsAll(s: string, toks: seq<Tok>)
    requires Reads(s, 0, toks, 0 + |s|)
    ensures Lex(s) == Ok(toks)
  {
    assert toks + [] == toks;
  }

  // ---- Every parsed predicate is well named ------------------------------------------

  ghost predicate NamesAreNames(toks: seq<Tok>) {
    forall k | 0 <= k < |toks| && toks[k].kind == Ident :: IsName(toks[k].text)
  }

  lemma {:induction false} LexedNames(s: string, i: nat)
    requires i <= |s| && LexFrom(s, i).Ok?
    ensures NamesAreNames(LexFrom(s, i).value)
    decreases |s| - i
  {
    hide Step, IsName;
    if i < |s| {
      LexedNames(s, Step(s, i).value.next);
    }
  }

  lemma {:induction false} ParsedNames(toks: seq<Tok>, i: nat)
    requires NamesAreNames(toks) && One(toks, i).Ok?
    ensures WellNamed(One(toks, i).value.0)
    decreases |toks| - i, 0
  {
    hide IsName, Match;
    var node, next := One(toks, i).value.0, One(toks, i).value.1;
    if node.Group? {
      ParsedArgNames(toks, i + 2, next - 1);
    }
  }

  lemma {:induction false} ParsedArgNames(toks: seq<Tok>, i: nat, end: nat)
    requires NamesAreNames(toks) && Args(toks, i, end).Ok?
    ensures forall k | 0 <= k < |Args(toks, i, end).value| :: WellNamed(Args(toks, i, end).value[k])
    decreases |toks| - i, 1
  {
    hide IsName;
    if i < end {
      ParsedNames(toks, i);
      ParsedArgNames(toks, AfterComma(toks, One(toks, i).value.1), end);
    }
  }

  /** So, of whatever source a predicate was read from: it is read back from its own print
      exactly when each of its values could stand between plain quotes. */
  lemma ParsedRoundTrips(source: string, toks: seq<Tok>, node: Cfg)
    requires Lex(source) == Ok(toks) && Parse(toks) == Ok(node)
    ensures Reparsed(node) == Some(node) <==> AllQuotable(Values(node))
  {
    LexedNames(source, 0);
    ParsedNames(toks, 0);
    OneIsUnary(toks, 0);
    RenderRoundTrips(node);
  }

  /** A name set to a raw string that holds one quote. */
  const LONE_QUOTE := "a = r#\"\"\"#"

  lemma LoneQuoteStep(s: string)
    requires s == LONE_QUOTE
    ensures Step(s, 4) == Ok(Stride(Some(Tok(Str, "\"")), 10))
  {
    hide PlainStep;
    NoComment(s, 4);
    assert Mask.HashRun(s, 6) == 0;
    assert Mask.HashRun(s, 5) == 1;
    assert Mask.RawStart(s, 4) == Some((1, 7));
    var close := "\"" + Mask.Hashes(1);
    assert close == "\"#";
    assert s[7..9] == "\"\"" && s[8..10] == "\"#";
    assert !Mask.At(s, 7, close) && Mask.At(s, 8, close);
    assert Find(s, close, 7) == Some(8);
    assert s[7..8] == "\"";
  }

  /** It is read as that predicate, whose print is not read back. */
  lemma ALoneQuoteIsLost()
    ensures var node := Kv("a", "\"");
      && Lex(LONE_QUOTE) == Ok(Tokens(node)) && Parse(Tokens(node)) == Ok(node)
      && Reparsed(node) != Some(node)
  {
    hide Reads, Parse, Step, Reparsed;
    var s, name, node := LONE_QUOTE, "a", Kv("a", "\"");
    assert !("r#" <= name) && IsNameStart(name[0]) && IsNameChar(name[0]);
    assert IsName(name);
    assert s[0..4] == name + " = ";
    ReadsKvHead(s, 0, name);
    LoneQuoteStep(s);
    ReadsStep(s, 4, Some(Tok(Str, "\"")), 10);
    ReadsOn(s, 0, [Tok(Ident, name), Tok(Punct, "=")], 4, [Tok(Str, "\"")], 10);
    assert [Tok(Ident, name), Tok(Punct, "=")] + [Tok(Str, "\"")] == Tokens(node);
    ReadsAll(s, Tokens(node));
    ParseInvertsTokens(node);
    assert !Quotable(Values(node)[0]);
    RenderRoundTrips(node);
  }
}
