/** The masking lexer of the unsafe-code gate: comments, strings and character literals
    become spaces, code and newlines stay where they are. */
module Mask {
  import opened Wrappers

  datatype Mode = Code | Line | Block(depth: nat) | Str | Raw(hashes: nat)

  /** `text` stands at `i`. */
  predicate At(s: string, i: nat, text: string) {
    i + |text| <= |s| && s[i..i + |text|] == text
  }

  predicate IsHex(c: char) {
    '0' <= c <= '9' || 'a' <= c <= 'f' || 'A' <= c <= 'F'
  }

  function HexRun(s: string, i: nat): (n: nat)
    ensures i <= |s| ==> i + n <= |s|
    ensures forall k | i <= k < i + n :: k < |s| && (IsHex(s[k]) || s[k] == '_')
    ensures i + n < |s| ==> !(IsHex(s[i + n]) || s[i + n] == '_')
    decreases |s| - i
  {
    if i < |s| && (IsHex(s[i]) || s[i] == '_') then 1 + HexRun(s, i + 1) else 0
  }

  /** The end of the character literal that starts at `i`: a quote, one character or one
      escape, a quote. */
  function CharLiteral(s: string, i: nat): (end: Option<nat>)
    ensures end.Some? ==> i + 3 <= end.value <= |s|
  {
    if !At(s, i, "'") || i + 2 >= |s| then None
    else if s[i + 1] == '\\' then
      if At(s, i + 2, "u{") && 1 <= HexRun(s, i + 4) <= 6 && At(s, i + 4 + HexRun(s, i + 4), "}'")
      then Some(i + 6 + HexRun(s, i + 4))
      else if At(s, i + 2, "x") && i + 5 < |s| && IsHex(s[i + 3]) && IsHex(s[i + 4]) && s[i + 5] == '\''
      then Some(i + 6)
      else if i + 3 < |s| && s[i + 3] == '\'' then Some(i + 4)
      else None
    else if s[i + 1] != '\'' && s[i + 2] == '\'' then Some(i + 3)
    else None
  }

  function HashRun(s: string, i: nat): (n: nat)
    ensures i <= |s| ==> i + n <= |s|
    ensures forall k | i <= k < i + n :: k < |s| && s[k] == '#'
    ensures i + n < |s| ==> s[i + n] != '#'
    decreases |s| - i
  {
    if i < |s| && s[i] == '#' then 1 + HashRun(s, i + 1) else 0
  }

  /** The raw-string opener at `i`: its hashes and where its text starts. */
  function RawStart(s: string, i: nat): (r: Option<(nat, nat)>)
    ensures r.Some? ==> i + 2 <= r.value.1 <= |s| && s[r.value.1 - 1] == '"'
  {
    var at := if i < |s| && s[i] in {'b', 'c'} then i + 1 else i;
    if at < |s| && s[at] == 'r' then
      var n := HashRun(s, at + 1);
      if at + 1 + n < |s| && s[at + 1 + n] == '"' then Some((n, at + 2 + n)) else None
    else None
  }

  predicate IsIdent(isAlnum: char -> bool, c: char) {
    isAlnum(c) || c == '_'
  }

  /** A raw string may start at `i` only where no identifier runs into it. */
  function RawAt(s: string, i: nat, isAlnum: char -> bool): Option<(nat, nat)> {
    if 0 < i <= |s| && IsIdent(isAlnum, s[i - 1]) then None else RawStart(s, i)
  }

  function Hashes(n: nat): (h: string)
    ensures |h| == n && forall k | 0 <= k < n :: h[k] == '#'
  {
    seq(n, _ => '#')
  }

  datatype Stride = Stride(next: nat, mode: Mode, keep: bool)

  /** One turn of the lexer: how far it moves, in what mode, and whether what it passed is code. */
  function Turn(s: string, i: nat, mode: Mode, isAlnum: char -> bool): (t: Stride)
    requires i < |s|
    ensures i < t.next <= |s|
  {
    match mode
    case Code =>
      if At(s, i, "//") then Stride(i + 2, Line, false)
      else if At(s, i, "/*") then Stride(i + 2, Block(1), false)
      else if s[i] == '"' then Stride(i + 1, Str, false)
      else if s[i] == '\'' && CharLiteral(s, i).Some? then Stride(CharLiteral(s, i).value, Code, false)
      else if RawAt(s, i, isAlnum).Some?
      then Stride(RawAt(s, i, isAlnum).value.1, Raw(RawAt(s, i, isAlnum).value.0), false)
      else Stride(i + 1, Code, true)
    case Line => Stride(i + 1, if s[i] == '\n' then Code else Line, false)
    case Block(depth) =>
      if At(s, i, "/*") then Stride(i + 2, Block(depth + 1), false)
      else if At(s, i, "*/") then Stride(i + 2, if depth <= 1 then Code else Block(depth - 1), false)
      else Stride(i + 1, mode, false)
    case Str =>
      if s[i] == '\\' then Stride(if i + 1 < |s| then i + 2 else i + 1, Str, false)
      else Stride(i + 1, if s[i] == '"' then Code else Str, false)
    case Raw(n) =>
      if At(s, i, "\"" + Hashes(n)) then Stride(i + 1 + n, Code, false) else Stride(i + 1, mode, false)
  }

  /** Which characters of `s[i..]` are code. */
  function Keeps(s: string, i: nat, mode: Mode, isAlnum: char -> bool): (ks: seq<bool>)
    requires i <= |s|
    ensures |ks| == |s| - i
    decreases |s| - i
  {
    if i == |s| then []
    else
      var t := Turn(s, i, mode, isAlnum);
      seq(t.next - i, _ => t.keep) + Keeps(s, t.next, t.mode, isAlnum)
  }

  function Blanked(s: string, keeps: seq<bool>): (out: string)
    requires |keeps| == |s|
    ensures |out| == |s|
  {
    seq(|s|, k requires 0 <= k < |s| => if keeps[k] || s[k] == '\n' then s[k] else ' ')
  }

  function Masked(s: string, isAlnum: char -> bool): (out: string)
    ensures |out| == |s|
  {
    Blanked(s, Keeps(s, 0, Code, isAlnum))
  }

  /** Overwrites `out[from..to]` with spaces, newlines excepted. */
  method BlankOut(out: array<char>, source: string, from: nat, to: nat)
    requires from <= to <= out.Length == |source| && forall k | from <= k < to :: out[k] == source[k]
    modifies out
    ensures forall k | 0 <= k < out.Length ::
              out[k] == if from <= k < to && source[k] != '\n' then ' ' else old(out[k])
  {
    for pos := from to to
      invariant forall k | 0 <= k < out.Length ::
                  out[k] == if from <= k < pos && source[k] != '\n' then ' ' else old(out[k])
    {
      if source[pos] != '\n' {
        out[pos] := ' ';
      }
    }
  }

  /** The lexer as a loop over a character array it overwrites in place. */
  method MaskNoncode(source: string, isAlnum: char -> bool) returns (out: array<char>)
    ensures fresh(out) && out[..] == Masked(source, isAlnum)
  {
    var n := |source|;
    out := new char[n](k requires 0 <= k < n => source[k]);
    ghost var keeps := Keeps(source, 0, Code, isAlnum);
    ghost var want := Blanked(source, keeps);
    var i := 0;
    var mode := Code;
    assert keeps[0..] == keeps;
    while i < n
      invariant 0 <= i <= n && out.Length == n && fresh(out)
      invariant keeps[i..] == Keeps(source, i, mode, isAlnum)
      invariant forall k | 0 <= k < i :: out[k] == want[k]
      invariant forall k | i <= k < n :: out[k] == source[k]
      decreases n - i
    {
      var next, mode', keep := NextTurn(source, i, mode, isAlnum);
      KeepsTurn(source, i, mode, isAlnum, keeps);
      if !keep {
        BlankOut(out, source, i, next);
      }
      i, mode := next, mode';
    }
    assert out[..] == want;
  }

  /** The branches of the loop: where it goes next, and whether it passed code. */
  method NextTurn(source: string, i: nat, mode: Mode, isAlnum: char -> bool)
    returns (next: nat, mode': Mode, keep: bool)
    requires i < |source|
    ensures Stride(next, mode', keep) == Turn(source, i, mode, isAlnum)
  {
    next, mode', keep := i + 1, mode, false;
    if mode == Code {
      if At(source, i, "//") {
        next, mode' := i + 2, Line;
      } else if At(source, i, "/*") {
        next, mode' := i + 2, Block(1);
      } else if source[i] == '"' {
        mode' := Str;
      } else if source[i] == '\'' && CharLiteral(source, i).Some? {
        next := CharLiteral(source, i).value;
      } else {
        var raw := RawAt(source, i, isAlnum);
        if raw.Some? {
          next, mode' := raw.value.1, Raw(raw.value.0);
        } else {
          keep := true;
        }
      }
    } else if mode == Line {
      if source[i] == '\n' {
        mode' := Code;
      }
    } else if mode.Block? {
      if At(source, i, "/*") {
        next, mode' := i + 2, Block(mode.depth + 1);
      } else if At(source, i, "*/") {
        next, mode' := i + 2, if mode.depth <= 1 then Code else Block(mode.depth - 1);
      }
    } else if mode == Str {
      if source[i] == '\\' {
        next := if i + 1 < |source| then i + 2 else i + 1;
      } else if source[i] == '"' {
        mode' := Code;
      }
    } else if At(source, i, "\"" + Hashes(mode.hashes)) {
      next, mode' := i + 1 + mode.hashes, Code;
    }
  }

  lemma KeepsTurn(s: string, i: nat, mode: Mode, isAlnum: char -> bool, keeps: seq<bool>)
    requires i < |s| && |keeps| == |s| && keeps[i..] == Keeps(s, i, mode, isAlnum)
    ensures var t := Turn(s, i, mode, isAlnum);
      && (forall k | i <= k < t.next :: keeps[k] == t.keep)
      && keeps[t.next..] == Keeps(s, t.next, t.mode, isAlnum)
  {
    var t := Turn(s, i, mode, isAlnum);
    forall k | i <= k < t.next
      ensures keeps[k] == t.keep
    {
      assert keeps[k] == keeps[i..][k - i];
    }
    assert keeps[t.next..] == keeps[i..][t.next - i..];
  }

  // ---- Positions ---------------------------------------------------------------------

  /** Every newline, and nothing else, is a newline of the output. */
  lemma NewlinesStay(s: string, isAlnum: char -> bool, k: nat)
    requires k < |s|
    ensures Masked(s, isAlnum)[k] == '\n' <==> s[k] == '\n'
  {
  }

  function LineOf(text: string, pos: nat): nat
    requires pos <= |text|
  {
    if pos == 0 then 1 else LineOf(text, pos - 1) + (if text[pos - 1] == '\n' then 1 else 0)
  }

  function Newlines(text: string): nat {
    if text == "" then 0 else (if text[0] == '\n' then 1 else 0) + Newlines(text[1..])
  }

  lemma {:induction false} NewlinesPush(text: string, c: char)
    ensures Newlines(text + [c]) == Newlines(text) + (if c == '\n' then 1 else 0)
  {
    if text == "" {
      assert text + [c] == [c] && [c][1..] == "";
    } else {
      assert (text + [c])[1..] == text[1..] + [c];
      NewlinesPush(text[1..], c);
    }
  }

  /** A line number is one more than the newlines before the position. */
  lemma {:induction false} LineIsNewlinesBefore(text: string, pos: nat)
    requires pos <= |text|
    ensures LineOf(text, pos) == Newlines(text[..pos]) + 1
  {
    if pos > 0 {
      LineIsNewlinesBefore(text, pos - 1);
      assert text[..pos] == text[..pos - 1] + [text[pos - 1]];
      NewlinesPush(text[..pos - 1], text[pos - 1]);
    }
  }

  /** So a line number taken in the output is the line number in the source. */
  lemma {:induction false} LineNumbersAgree(s: string, isAlnum: char -> bool, pos: nat)
    requires pos <= |s|
    ensures LineOf(Masked(s, isAlnum), pos) == LineOf(s, pos)
  {
    if pos > 0 {
      NewlinesStay(s, isAlnum, pos - 1);
      LineNumbersAgree(s, isAlnum, pos - 1);
    }
  }

  // ---- What is left of the code ------------------------------------------------------

  /** Nothing that would start a comment, a string or a character literal starts at `i`. */
  predicate NoOpener(s: string, i: nat)
    requires i < |s|
  {
    !At(s, i, "//") && !At(s, i, "/*") && s[i] != '"' && !(s[i] == '\'' && CharLiteral(s, i).Some?)
  }

  ghost predicate OpensNothing(s: string, keeps: seq<bool>)
    requires |keeps| == |s|
  {
    forall p | 0 <= p < |s| && keeps[p] :: NoOpener(s, p)
  }

  /** What lies between two stretches of code is at least two characters long. */
  ghost predicate GapsAreWide(keeps: seq<bool>) {
    forall p | 0 <= p < |keeps| - 2 && keeps[p] && !keeps[p + 1] :: !keeps[p + 2]
  }

  lemma {:induction false} KeptFrom(s: string, i: nat, mode: Mode, isAlnum: char -> bool, keeps: seq<bool>)
    requires i <= |s| && |keeps| == |s| && keeps[i..] == Keeps(s, i, mode, isAlnum)
    ensures forall p | i <= p < |s| && keeps[p] :: NoOpener(s, p)
    ensures forall p | i <= p < |s| - 2 && keeps[p] && !keeps[p + 1] :: !keeps[p + 2]
    ensures i < |s| - 1 && mode == Code && !keeps[i] ==> !keeps[i + 1]
    decreases |s| - i
  {
    if i < |s| {
      var t := Turn(s, i, mode, isAlnum);
      KeepsTurn(s, i, mode, isAlnum, keeps);
      KeptFrom(s, t.next, t.mode, isAlnum, keeps);
      if !t.keep && t.next == i + 1 && i + 1 < |s| && mode == Code {
        KeepsTurn(s, i + 1, t.mode, isAlnum, keeps);
      }
    }
  }

  lemma KeptIsCode(s: string, isAlnum: char -> bool)
    ensures OpensNothing(s, Keeps(s, 0, Code, isAlnum)) && GapsAreWide(Keeps(s, 0, Code, isAlnum))
  {
    var keeps := Keeps(s, 0, Code, isAlnum);
    assert keeps[0..] == keeps;
    KeptFrom(s, 0, Code, isAlnum, keeps);
  }

  /** A visible character of the output is a kept character of the source. */
  lemma VisibleIsKept(s: string, keeps: seq<bool>, p: nat)
    requires |keeps| == |s| && p < |s| && Blanked(s, keeps)[p] !in {' ', '\n'}
    ensures keeps[p] && Blanked(s, keeps)[p] == s[p]
  {
  }

  lemma LiteralWasThere(s: string, keeps: seq<bool>, p: nat)
    requires |keeps| == |s| && GapsAreWide(keeps) && p < |s|
    requires Blanked(s, keeps)[p] == '\'' && CharLiteral(Blanked(s, keeps), p).Some?
    ensures keeps[p] && CharLiteral(s, p).Some?
  {
    var out := Blanked(s, keeps);
    var e := CharLiteral(out, p).value;
    VisibleIsKept(s, keeps, p);
    if out[p + 1] != '\\' {
      VisibleIsKept(s, keeps, p + 2);
      assert keeps[p + 1];
    } else {
      VisibleIsKept(s, keeps, p + 1);
      VisibleIsKept(s, keeps, e - 1);
      forall k | p <= k < e
        ensures out[k] == s[k]
      {
        if e == p + 4 {
          assert keeps[p + 3] ==> keeps[p + 2];
        } else {
          EscapeIsVisible(out, p, k);
          VisibleIsKept(s, keeps, k);
        }
      }
      SameLiteral(out, s, p);
    }
  }

  /** Every character of a longer escape is visible. */
  lemma EscapeIsVisible(s: string, p: nat, k: nat)
    requires CharLiteral(s, p).Some? && p <= k < CharLiteral(s, p).value && CharLiteral(s, p).value > p + 4
    ensures s[k] !in {' ', '\n'}
  {
    var e := CharLiteral(s, p).value;
    assert s[p] == s[p..p + 1][0] == '\'';
    if At(s, p + 2, "u{") && e != p + 6 {
      assert s[p + 2] == s[p + 2..p + 4][0] == 'u' && s[p + 3] == s[p + 2..p + 4][1] == '{';
      assert s[e - 2] == s[e - 2..e][0] == '}' && s[e - 1] == s[e - 2..e][1] == '\'';
    } else {
      assert s[p + 2] == s[p + 2..p + 3][0] == 'x';
    }
  }

  lemma {:induction false} SameHexRun(s: string, t: string, i: nat, e: nat)
    requires |s| == |t| && i <= e <= |s| && (forall k | i <= k < e :: s[k] == t[k])
    requires i + HexRun(s, i) < e
    ensures HexRun(t, i) == HexRun(s, i)
    decreases e - i
  {
    if HexRun(s, i) > 0 {
      SameHexRun(s, t, i + 1, e);
    }
  }

  lemma SameAt(s: string, t: string, i: nat, text: string)
    requires |s| == |t| && (forall k | i <= k < i + |text| && k < |s| :: s[k] == t[k])
    ensures At(s, i, text) <==> At(t, i, text)
  {
    if i + |text| <= |s| {
      assert s[i..i + |text|] == t[i..i + |text|];
    }
  }

  lemma SameUnicode(s: string, t: string, p: nat, n: nat)
    requires |s| == |t| && n == HexRun(s, p + 4) && At(s, p + 2, "u{") && At(s, p + 4 + n, "}'")
    requires forall k | p <= k < p + 6 + n :: s[k] == t[k]
    ensures At(t, p + 2, "u{") && HexRun(t, p + 4) == n && At(t, p + 4 + n, "}'")
  {
    SameAt(s, t, p + 2, "u{");
    SameHexRun(s, t, p + 4, p + 6 + n);
    SameAt(s, t, p + 4 + n, "}'");
  }

  lemma SameLiteral(s: string, t: string, p: nat)
    requires |s| == |t| && CharLiteral(s, p).Some? && forall k | p <= k < CharLiteral(s, p).value :: s[k] == t[k]
    ensures CharLiteral(t, p).Some?
  {
    hide HexRun;
    var e := CharLiteral(s, p).value;
    SameAt(s, t, p, "'");
    if s[p + 1] == '\\' {
      if e == p + 6 {
        SameAt(s, t, p + 2, "x");
      } else if e > p + 6 {
        SameUnicode(s, t, p, e - p - 6);
      }
    }
  }

  // ---- The output opens nothing, so masking it again changes nothing -----------------

  lemma OutputOpensNothing(s: string, isAlnum: char -> bool, p: nat)
    requires p < |s|
    ensures NoOpener(Masked(s, isAlnum), p)
  {
    var keeps := Keeps(s, 0, Code, isAlnum);
    var out := Blanked(s, keeps);
    KeptIsCode(s, isAlnum);
    if At(out, p, "//") || At(out, p, "/*") {
      var two := out[p..p + 2];
      assert two[0] == out[p] && two[1] == out[p + 1];
      VisibleIsKept(s, keeps, p);
      VisibleIsKept(s, keeps, p + 1);
    }
    if out[p] == '\'' && CharLiteral(out, p).Some? {
      LiteralWasThere(s, keeps, p);
    }
  }

  lemma CleanHasNoQuote(s: string, q: nat)
    requires q < |s| && forall p | 0 <= p < |s| :: NoOpener(s, p)
    ensures s[q] != '"'
  {
    assert NoOpener(s, q);
  }

  lemma {:induction false} CleanIsKept(s: string, i: nat, isAlnum: char -> bool)
    requires i <= |s| && forall p | 0 <= p < |s| :: NoOpener(s, p)
    ensures forall k | 0 <= k < |s| - i :: Keeps(s, i, Code, isAlnum)[k]
    decreases |s| - i
  {
    if i < |s| {
      assert NoOpener(s, i);
      if RawAt(s, i, isAlnum).Some? {
        CleanHasNoQuote(s, RawAt(s, i, isAlnum).value.1 - 1);
      }
      assert Turn(s, i, Code, isAlnum) == Stride(i + 1, Code, true);
      CleanIsKept(s, i + 1, isAlnum);
    }
  }

  /** No quote, comment opener or character literal is left anywhere, and masking is
      idempotent: on every source, unterminated tails included. */
  lemma MaskIsIdempotent(s: string, isAlnum: char -> bool)
    ensures forall p | 0 <= p < |s| :: NoOpener(Masked(s, isAlnum), p)
    ensures Masked(Masked(s, isAlnum), isAlnum) == Masked(s, isAlnum)
  {
    var out := Masked(s, isAlnum);
    forall p | 0 <= p < |s|
      ensures NoOpener(out, p)
    {
      OutputOpensNothing(s, isAlnum, p);
    }
    CleanIsKept(out, 0, isAlnum);
  }
}
