/** The token lexer of the platform gate. Line numbers are dropped; everything else is kept. */
module CfgLex {
  import opened Wrappers
  import opened Characters
  import opened Brackets
  import Mask

  /** Python's `str.isspace`. */
  predicate IsSpace(c: char) {
    || '\t' <= c <= '\r' || '\U{1C}' <= c <= ' ' || c == '\U{85}' || c == '\U{A0}' || c == '\U{1680}'
    || '\U{2000}' <= c <= '\U{200A}' || c == '\U{2028}' || c == '\U{2029}' || c == '\U{202F}'
    || c == '\U{205F}' || c == '\U{3000}'
  }

  predicate IsNameStart(c: char) {
    'a' <= c <= 'z' || 'A' <= c <= 'Z' || c == '_'
  }

  predicate IsNameChar(c: char) {
    IsNameStart(c) || IsDigit(c)
  }

  function RunEnd(s: string, i: nat): (e: nat)
    requires i <= |s|
    ensures i <= e <= |s| && (forall k | i <= k < e :: IsNameChar(s[k])) && (e < |s| ==> !IsNameChar(s[e]))
    decreases |s| - i
  {
    if i < |s| && IsNameChar(s[i]) then RunEnd(s, i + 1) else i
  }

  /** An identifier, perhaps a raw one. */
  function NameEnd(s: string, i: nat): (e: Option<nat>)
    requires i < |s|
    ensures e.Some? ==> i < e.value <= |s| && IsName(s[i..e.value])
  {
    if Mask.At(s, i, "r#") && i + 2 < |s| && IsNameStart(s[i + 2]) then
      var e := RunEnd(s, i + 2);
      var t := s[i..e];
      assert t[..2] == s[i..i + 2] && t[2..] == s[i + 2..e];
      Some(e)
    else if IsNameStart(s[i]) then
      var e := RunEnd(s, i);
      assert !("r#" <= s[i..e]) by { assert "r#"[1] == '#'; }
      Some(e)
    else None
  }

  predicate IsName(t: string) {
    var body := if "r#" <= t then t[2..] else t;
    body != "" && IsNameStart(body[0]) && forall k | 0 <= k < |body| :: IsNameChar(body[k])
  }

  function LineEnd(s: string, i: nat): (e: nat)
    requires i <= |s|
    ensures i <= e <= |s|
    decreases |s| - i
  {
    if i == |s| || s[i] == '\n' then i else LineEnd(s, i + 1)
  }

  function BlockEnd(s: string, i: nat, depth: nat): (e: Option<nat>)
    ensures e.Some? ==> i <= e.value && (i <= |s| ==> e.value <= |s|)
    decreases |s| - i
  {
    if depth == 0 then Some(i)
    else if i >= |s| then None
    else if Mask.At(s, i, "/*") then BlockEnd(s, i + 2, depth + 1)
    else if Mask.At(s, i, "*/") then BlockEnd(s, i + 2, depth - 1)
    else BlockEnd(s, i + 1, depth)
  }

  function Find(s: string, text: string, i: nat): (e: Option<nat>)
    ensures e.Some? ==> i <= e.value && Mask.At(s, e.value, text) && forall k | i <= k < e.value :: !Mask.At(s, k, text)
    ensures e.None? ==> forall k | i <= k :: !Mask.At(s, k, text)
    decreases |s| - i
  {
    if i > |s| then None else if Mask.At(s, i, text) then Some(i) else Find(s, text, i + 1)
  }

  /** The quote that closes a plain string whose text starts at `j`; a backslash hides the
      character after it. */
  function StringEnd(s: string, j: nat): (e: Option<nat>)
    ensures e.Some? ==> j <= e.value < |s| && s[e.value] == '"'
    decreases |s| - j
  {
    if j >= |s| then None
    else if s[j] == '"' then Some(j)
    else StringEnd(s, if s[j] == '\\' then j + 2 else j + 1)
  }

  function PlainStart(s: string, i: nat): (j: Option<nat>)
    requires i < |s|
    ensures j.Some? ==> i < j.value <= |s|
  {
    if s[i] == '"' then Some(i + 1)
    else if s[i] in {'b', 'c'} && i + 1 < |s| && s[i + 1] == '"' then Some(i + 2)
    else None
  }

  /** From the quote at `q`: one character or one escape, a quote. */
  function Quoted(s: string, q: nat): (e: Option<nat>)
    ensures e.Some? ==> q + 3 <= e.value <= |s|
  {
    if q + 2 >= |s| || s[q] != '\'' then None
    else if s[q + 1] == '\\' then
      if Mask.At(s, q + 2, "u{") && 1 <= Mask.HexRun(s, q + 4) <= 6 && Mask.At(s, q + 4 + Mask.HexRun(s, q + 4), "}'")
      then Some(q + 6 + Mask.HexRun(s, q + 4))
      else if s[q + 2] == 'x' && q + 5 < |s| && Mask.IsHex(s[q + 3]) && Mask.IsHex(s[q + 4]) && s[q + 5] == '\''
      then Some(q + 6)
      else if s[q + 2] != '\n' && q + 3 < |s| && s[q + 3] == '\'' then Some(q + 4)
      else None
    else if s[q + 1] != '\'' && s[q + 1] != '\n' && s[q + 2] == '\'' then Some(q + 3)
    else None
  }

  function CharEnd(s: string, i: nat): (e: Option<nat>)
    requires i < |s|
    ensures e.Some? ==> i < e.value <= |s|
  {
    Quoted(s, if s[i] == 'b' then i + 1 else i)
  }

  function LifetimeEnd(s: string, i: nat): (e: Option<nat>)
    requires i < |s|
    ensures e.Some? ==> i < e.value <= |s|
  {
    if s[i] == '\'' && i + 1 < |s| && IsNameStart(s[i + 1]) then Some(RunEnd(s, i + 1)) else None
  }

  const MULTI_PUNCT := ["::", "->", "=>", "==", "!=", "<=", ">=", "&&", "||", ".."]

  function PunctEnd(s: string, i: nat): (e: nat)
    requires i < |s|
    ensures i < e <= |s|
  {
    if i + 1 < |s| && s[i..i + 2] in MULTI_PUNCT then i + 2 else i + 1
  }

  datatype LexFault = OpenComment | OpenRawString | OpenString

  datatype Stride = Stride(tok: Option<Tok>, next: nat)

  /** One turn of the lexer: a token, or something between tokens. */
  function Step(s: string, i: nat): (r: Result<Stride, LexFault>)
    requires i < |s|
    ensures r.Ok? ==> i < r.value.next <= |s|
    ensures r.Ok? && r.value.tok.Some? && r.value.tok.value.kind == Ident ==> IsName(r.value.tok.value.text)
  {
    if IsSpace(s[i]) then Ok(Stride(None, i + 1))
    else if Mask.At(s, i, "//") then
      var e := LineEnd(s, i + 2);
      Ok(Stride(None, e))
    else if Mask.At(s, i, "/*") then
      match BlockEnd(s, i + 2, 1)
      case None => Err(OpenComment)
      case Some(e) => Ok(Stride(None, e))
    else
      match Mask.RawStart(s, i)
      case Some((hashes, from)) =>
        var close := "\"" + Mask.Hashes(hashes);
        match Find(s, close, from) {
          case None => Err(OpenRawString)
          case Some(e) => Ok(Stride(Some(Tok(Str, s[from..e])), e + |close|))
        }
      case None => PlainStep(s, i)
  }

  function PlainStep(s: string, i: nat): (r: Result<Stride, LexFault>)
    requires i < |s|
    ensures r.Ok? ==> i < r.value.next <= |s|
    ensures r.Ok? && r.value.tok.Some? && r.value.tok.value.kind == Ident ==> IsName(r.value.tok.value.text)
  {
    match PlainStart(s, i)
    case Some(from) =>
      (match StringEnd(s, from)
       case None => Err(OpenString)
       case Some(e) => Ok(Stride(Some(Tok(Str, s[from..e])), e + 1)))
    case None =>
      if CharEnd(s, i).Some? then Ok(Stride(Some(Tok(Lit, s[i..CharEnd(s, i).value])), CharEnd(s, i).value))
      else if LifetimeEnd(s, i).Some? then Ok(Stride(Some(Tok(Lit, s[i..LifetimeEnd(s, i).value])), LifetimeEnd(s, i).value))
      else if NameEnd(s, i).Some? then Ok(Stride(Some(Tok(Ident, s[i..NameEnd(s, i).value])), NameEnd(s, i).value))
      else if IsDigit(s[i]) then Ok(Stride(Some(Tok(Lit, s[i..RunEnd(s, i)])), RunEnd(s, i)))
      else Ok(Stride(Some(Tok(Punct, s[i..PunctEnd(s, i)])), PunctEnd(s, i)))
  }

  function Listed(tok: Option<Tok>): seq<Tok> {
    if tok.Some? then [tok.value] else []
  }

  function Then(toks: seq<Tok>, rest: Result<seq<Tok>, LexFault>): Result<seq<Tok>, LexFault> {
    if rest.Ok? then Ok(toks + rest.value) else rest
  }

  function LexFrom(s: string, i: nat): Result<seq<Tok>, LexFault>
    requires i <= |s|
    decreases |s| - i
  {
    if i == |s| then Ok([])
    else
      match Step(s, i)
      case Err(e) => Err(e)
      case Ok(t) => Then(Listed(t.tok), LexFrom(s, t.next))
  }

  function Lex(s: string): Result<seq<Tok>, LexFault> {
    LexFrom(s, 0)
  }

  lemma ThenNothing(rest: Result<seq<Tok>, LexFault>)
    ensures Then([], rest) == rest
  {
    if rest.Ok? {
      assert [] + rest.value == rest.value;
    }
  }

  lemma ThenThen(a: seq<Tok>, b: seq<Tok>, rest: Result<seq<Tok>, LexFault>)
    ensures Then(a, Then(b, rest)) == Then(a + b, rest)
  {
    if rest.Ok? {
      assert a + (b + rest.value) == a + b + rest.value;
    }
  }

  method LexSource(s: string) returns (r: Result<seq<Tok>, LexFault>)
    ensures r == Lex(s)
  {
    var toks: seq<Tok> := [];
    var i := 0;
    ThenNothing(Lex(s));
    while i < |s|
      invariant 0 <= i <= |s| && Then(toks, LexFrom(s, i)) == Lex(s)
    {
      var t := Step(s, i);
      if t.Err? {
        return Err(t.error);
      }
      ThenThen(toks, Listed(t.value.tok), LexFrom(s, t.value.next));
      toks := toks + Listed(t.value.tok);
      i := t.value.next;
    }
    assert toks + [] == toks;
    return Ok(toks);
  }

  // ---- Reading a known text ----------------------------------------------------------

  /** From `i` the lexer comes to `j` with these tokens. */
  ghost predicate Reads(s: string, i: nat, toks: seq<Tok>, j: nat) {
    i <= j <= |s| && LexFrom(s, i) == Then(toks, LexFrom(s, j))
  }

  lemma ReadsOn(s: string, i: nat, a: seq<Tok>, m: nat, b: seq<Tok>, j: nat)
    requires Reads(s, i, a, m) && Reads(s, m, b, j)
    ensures Reads(s, i, a + b, j)
  {
    hide LexFrom;
    ThenThen(a, b, LexFrom(s, j));
  }

  lemma ReadsStep(s: string, i: nat, tok: Option<Tok>, next: nat)
    requires i < |s| && Step(s, i) == Ok(Stride(tok, next))
    ensures Reads(s, i, Listed(tok), next)
  {
    hide Step;
  }

  /** What may stand after a name. */
  ghost predicate Boundary(s: string, e: nat) {
    e == |s| || (e < |s| && s[e] in {' ', '(', ',', ')'})
  }

  /** No character that could open a string or a character follows a name's own. */
  lemma NameChars(name: string)
    requires IsName(name)
    ensures |name| > 0 && IsNameStart(name[0])
    ensures forall k | 0 <= k < |name| :: IsNameChar(name[k]) || (k < 2 && "r#" <= name)
    ensures forall k | 0 <= k < |name| :: name[k] != '"' && name[k] != '\''
    ensures forall k | 0 <= k < |name| :: name[k] == '#' ==> k == 1 && |name| > 2 && "r#" <= name && IsNameStart(name[2])
  {
    var raw := "r#" <= name;
    var body := if raw then name[2..] else name;
    assert IsNameStart(body[0]);
    forall k | 0 <= k < |name|
      ensures (raw && k < 2) || IsNameChar(name[k])
    {
      assert raw && k >= 2 ==> name[k] == body[k - 2];
    }
    assert raw ==> name[0] == "r#"[0] && name[1] == "r#"[1];
  }

  lemma {:induction false} RunIs(s: string, i: nat, e: nat)
    requires i <= e <= |s| && (forall k | i <= k < e :: IsNameChar(s[k])) && Boundary(s, e)
    ensures RunEnd(s, i) == e
    decreases e - i
  {
    if i < e {
      RunIs(s, i + 1, e);
    }
  }

  ghost predicate NameHere(s: string, i: nat, name: string) {
    && IsName(name) && i + |name| <= |s| && Boundary(s, i + |name|)
    && forall k | 0 <= k < |name| :: s[i + k] == name[k]
  }

  lemma NoRawMark(s: string, i: nat)
    requires i + 1 < |s| ==> s[i + 1] != '#'
    ensures !Mask.At(s, i, "r#")
  {
    if i + 2 <= |s| {
      assert s[i..i + 2][1] == s[i + 1];
    }
  }

  lemma NameIsFound(s: string, i: nat, name: string)
    requires NameHere(s, i, name)
    ensures i < |s| && NameEnd(s, i) == Some(i + |name|)
  {
    var e := i + |name|;
    NameChars(name);
    if "r#" <= name {
      assert s[i..i + 2] == "r#";
      assert s[i + 2] == name[2];
      forall k | i + 2 <= k < e
        ensures IsNameChar(s[k])
      {
        assert s[i + (k - i)] == name[k - i] && IsNameChar(name[k - i]);
      }
      RunIs(s, i + 2, e);
    } else {
      forall k | i <= k < e
        ensures IsNameChar(s[k])
      {
        assert s[i + (k - i)] == name[k - i] && IsNameChar(name[k - i]);
      }
      RunIs(s, i, e);
      assert s[i + 0] == name[0];
      assert |name| > 1 ==> s[i + 1] == name[1];
      NoRawMark(s, i);
    }
  }

  lemma NameOpensNoString(s: string, i: nat, name: string)
    requires NameHere(s, i, name)
    ensures Mask.RawStart(s, i).None? && PlainStart(s, i).None? && CharEnd(s, i).None? && LifetimeEnd(s, i).None?
  {
    var e := i + |name|;
    NameChars(name);
    assert s[i + 0] == name[0];
    assert forall k | i <= k < e :: s[k] == name[k - i];
    if i + 1 < |s| {
      assert s[i + 1] != '"' && s[i + 1] != '\'';
    }
    if Mask.RawStart(s, i).Some? {
      RawNeedsHashes(s, i);
    }
  }

  lemma RawNeedsHashes(s: string, i: nat)
    requires i < |s| && Mask.RawStart(s, i).Some?
    ensures var q := Mask.RawStart(s, i).value.1 - 1;
      i < q < |s| && s[q] == '"' && forall k | i + 2 <= k < q :: s[k] == '#'
    ensures s[i] == 'r' ==> forall k | i + 1 <= k < Mask.RawStart(s, i).value.1 - 1 :: s[k] == '#'
    ensures s[i] != 'r' ==> s[i + 1] == 'r'
  {
  }

  lemma NoComment(s: string, i: nat)
    requires i < |s| && s[i] != '/'
    ensures !Mask.At(s, i, "//") && !Mask.At(s, i, "/*")
  {
    if i + 2 <= |s| {
      assert s[i..i + 2][0] == s[i];
    }
  }

  lemma ReadsName(s: string, i: nat, name: string)
    requires NameHere(s, i, name)
    ensures Reads(s, i, [Tok(Ident, name)], i + |name|)
  {
    hide Mask.At, Mask.RawStart, NameEnd, PlainStart, CharEnd, LifetimeEnd, Reads;
    NameChars(name);
    NameIsFound(s, i, name);
    NameOpensNoString(s, i, name);
    assert s[i + 0] == name[0];
    assert s[i..i + |name|] == name;
    NoComment(s, i);
    ReadsStep(s, i, Some(Tok(Ident, name)), i + |name|);
  }
}
