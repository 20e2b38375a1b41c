/** What the masking lexer keeps, said by a grammar instead of a state machine: a source is a
    sequence of lexemes, and exactly the lone code characters are kept. */
module MaskGrammar {
  import opened Wrappers
  import opened Mask

  /** The inside of a block comment: plain characters and whole comments. */
  datatype Item = Plain(c: char) | Nested(items: seq<Item>)

  datatype StrItem = Lit(c: char) | Escape(c: char)

  datatype Lexeme =
    | CodeChar
    | LineComment(text: string, ended: bool)
    | BlockComment(items: seq<Item>)
    | StringLiteral(parts: seq<StrItem>)
    | RawString(prefix: string, hashes: nat, body: string)
    | CharText(text: string)
    | Unfinished

  // ---- The grammar -------------------------------------------------------------------

  function Len(items: seq<Item>): nat
    decreases items, 1
  {
    if items == [] then 0 else ItemLen(items[0]) + Len(items[1..])
  }

  function ItemLen(item: Item): nat
    decreases item, 0
  {
    match item
    case Plain(_) => 1
    case Nested(items) => 4 + Len(items)
  }

  /** `items` is what stands at `i`; a plain character neither opens nor closes a comment. */
  ghost predicate ItemsAt(s: string, i: nat, items: seq<Item>)
    decreases items, 1
  {
    items == [] || (ItemAt(s, i, items[0]) && ItemsAt(s, i + ItemLen(items[0]), items[1..]))
  }

  ghost predicate ItemAt(s: string, i: nat, item: Item)
    decreases item, 0
  {
    match item
    case Plain(c) => i < |s| && s[i] == c && !At(s, i, "/*") && !At(s, i, "*/")
    case Nested(items) => At(s, i, "/*") && ItemsAt(s, i + 2, items) && At(s, i + 2 + Len(items), "*/")
  }

  function StrLen(parts: seq<StrItem>): nat {
    if parts == [] then 0 else (if parts[0].Lit? then 1 else 2) + StrLen(parts[1..])
  }

  ghost predicate StrAt(s: string, i: nat, parts: seq<StrItem>)
    decreases |parts|
  {
    parts == [] ||
    match parts[0]
    case Lit(c) => i < |s| && s[i] == c && c != '"' && c != '\\' && StrAt(s, i + 1, parts[1..])
    case Escape(c) => i + 1 < |s| && s[i] == '\\' && s[i + 1] == c && StrAt(s, i + 2, parts[1..])
  }

  function RawOpen(prefix: string, hashes: nat): string {
    prefix + Hashes(hashes) + "\""
  }

  function RawClose(hashes: nat): string {
    "\"" + Hashes(hashes)
  }

  ghost predicate OpensRaw(s: string, i: nat, prefix: string, hashes: nat, isAlnum: char -> bool) {
    && prefix in {"r", "br", "cr"}
    && !(0 < i <= |s| && IsIdent(isAlnum, s[i - 1]))
    && At(s, i, RawOpen(prefix, hashes))
  }

  /** A quote, one character or one escape, a quote. */
  predicate IsCharText(t: string) {
    || (|t| == 3 && t[0] == '\'' && t[1] != '\\' && t[1] != '\'' && t[2] == '\'')
    || (|t| == 4 && t[0] == '\'' && t[1] == '\\' && t[3] == '\'')
    || (|t| == 6 && t[..3] == "'\\x" && IsHex(t[3]) && IsHex(t[4]) && t[5] == '\'')
    || (7 <= |t| <= 12 && t[..4] == "'\\u{" && (forall k | 4 <= k < |t| - 2 :: IsHex(t[k]) || t[k] == '_')
        && t[|t| - 2] == '}' && t[|t| - 1] == '\'')
  }

  ghost predicate CharTextAt(s: string, i: nat, t: string) {
    IsCharText(t) && At(s, i, t)
  }

  function Width(s: string, i: nat, l: Lexeme): nat
    requires i <= |s|
  {
    match l
    case CodeChar => 1
    case LineComment(text, ended) => 2 + |text| + (if ended then 1 else 0)
    case BlockComment(items) => 4 + Len(items)
    case StringLiteral(parts) => 2 + StrLen(parts)
    case RawString(prefix, n, body) => |RawOpen(prefix, n)| + |body| + |RawClose(n)|
    case CharText(t) => |t|
    case Unfinished => |s| - i
  }

  /** A lexeme that is complete, standing at `i`. */
  ghost predicate ClosedAt(s: string, i: nat, l: Lexeme, isAlnum: char -> bool) {
    match l
    case LineComment(text, ended) =>
      && At(s, i, "//") && At(s, i + 2, text) && '\n' !in text
      && (if ended then At(s, i + 2 + |text|, "\n") else i + 2 + |text| == |s|)
    case BlockComment(items) => At(s, i, "/*") && ItemsAt(s, i + 2, items) && At(s, i + 2 + Len(items), "*/")
    case StringLiteral(parts) => At(s, i, "\"") && StrAt(s, i + 1, parts) && At(s, i + 1 + StrLen(parts), "\"")
    case RawString(prefix, n, body) =>
      var from := i + |RawOpen(prefix, n)|;
      && OpensRaw(s, i, prefix, n, isAlnum) && At(s, from, body) && At(s, from + |body|, RawClose(n))
      && (forall p | from <= p < from + |body| :: !At(s, p, RawClose(n)))
    case CharText(t) => CharTextAt(s, i, t)
    case _ => false
  }

  /** Something starts at `i` that only its own close could end. */
  ghost predicate Opens(s: string, i: nat, isAlnum: char -> bool) {
    At(s, i, "/*") || At(s, i, "\"") || exists prefix, n :: OpensRaw(s, i, prefix, n, isAlnum)
  }

  /** A character is code when nothing starts there; what is opened and never closed runs to
      the end of the source. */
  ghost predicate LexemeAt(s: string, i: nat, l: Lexeme, isAlnum: char -> bool) {
    match l
    case CodeChar =>
      i < |s| && !At(s, i, "//") && !Opens(s, i, isAlnum) && forall t :: !CharTextAt(s, i, t)
    case Unfinished =>
      i < |s| && Opens(s, i, isAlnum) && forall l' :: !ClosedAt(s, i, l', isAlnum)
    case _ => ClosedAt(s, i, l, isAlnum)
  }

  ghost predicate Covers(s: string, i: nat, ls: seq<Lexeme>, isAlnum: char -> bool)
    decreases |ls|
  {
    if i > |s| then false
    else if ls == [] then i == |s|
    else LexemeAt(s, i, ls[0], isAlnum) && Covers(s, i + Width(s, i, ls[0]), ls[1..], isAlnum)
  }

  // ---- The lexer passes over whole lexemes -------------------------------------------

  /** The lexer goes from `i` to `j`, keeping nothing, and is then in `mode`. */
  ghost predicate Passes(s: string, i: nat, j: nat, mode: Mode, keeps: seq<bool>, isAlnum: char -> bool) {
    && i <= j <= |s| && |keeps| == |s|
    && (forall k | i <= k < j :: !keeps[k])
    && keeps[j..] == Keeps(s, j, mode, isAlnum)
  }

  lemma {:induction false} PassItems(s: string, i: nat, items: seq<Item>, depth: nat, keeps: seq<bool>, isAlnum: char -> bool)
    requires depth >= 1 && ItemsAt(s, i, items) && Passes(s, i, i, Block(depth), keeps, isAlnum)
    ensures Passes(s, i, i + Len(items), Block(depth), keeps, isAlnum)
    decreases items, 1
  {
    hide Keeps, Turn;
    if items != [] {
      PassItem(s, i, items[0], depth, keeps, isAlnum);
      PassItems(s, i + ItemLen(items[0]), items[1..], depth, keeps, isAlnum);
    }
  }

  lemma {:induction false} PassItem(s: string, i: nat, item: Item, depth: nat, keeps: seq<bool>, isAlnum: char -> bool)
    requires depth >= 1 && ItemAt(s, i, item) && Passes(s, i, i, Block(depth), keeps, isAlnum)
    ensures Passes(s, i, i + ItemLen(item), Block(depth), keeps, isAlnum)
    decreases item, 0
  {
    hide Keeps;
    KeepsTurn(s, i, Block(depth), isAlnum, keeps);
    if item.Nested? {
      PassItems(s, i + 2, item.items, depth + 1, keeps, isAlnum);
      var j := i + 2 + Len(item.items);
      assert s[j..j + 2] == "*/" && s[j] == '*';
      assert !At(s, j, "/*") by {
        assert s[j..j + 2][0] == '*';
      }
      KeepsTurn(s, j, Block(depth + 1), isAlnum, keeps);
    }
  }

  lemma {:induction false} PassStr(s: string, i: nat, parts: seq<StrItem>, keeps: seq<bool>, isAlnum: char -> bool)
    requires StrAt(s, i, parts) && Passes(s, i, i, Str, keeps, isAlnum)
    ensures Passes(s, i, i + StrLen(parts), Str, keeps, isAlnum)
    decreases |parts|
  {
    hide Keeps;
    if parts != [] {
      KeepsTurn(s, i, Str, isAlnum, keeps);
      PassStr(s, i + (if parts[0].Lit? then 1 else 2), parts[1..], keeps, isAlnum);
    }
  }

  lemma {:induction false} PassLine(s: string, i: nat, j: nat, keeps: seq<bool>, isAlnum: char -> bool)
    requires i <= j <= |s| && (forall k | i <= k < j :: s[k] != '\n') && Passes(s, i, i, Line, keeps, isAlnum)
    ensures Passes(s, i, j, Line, keeps, isAlnum)
    decreases j - i
  {
    hide Keeps;
    if i < j {
      KeepsTurn(s, i, Line, isAlnum, keeps);
      PassLine(s, i + 1, j, keeps, isAlnum);
    }
  }

  lemma {:induction false} PassRaw(s: string, i: nat, j: nat, n: nat, keeps: seq<bool>, isAlnum: char -> bool)
    requires i <= j <= |s| && (forall p | i <= p < j :: !At(s, p, RawClose(n))) && Passes(s, i, i, Raw(n), keeps, isAlnum)
    ensures Passes(s, i, j, Raw(n), keeps, isAlnum)
    decreases j - i
  {
    hide Keeps;
    if i < j {
      assert !At(s, i, RawClose(n));
      assert Turn(s, i, Raw(n), isAlnum) == Stride(i + 1, Raw(n), false);
      KeepsTurn(s, i, Raw(n), isAlnum, keeps);
      PassRaw(s, i + 1, j, n, keeps, isAlnum);
    }
  }

  // ---- The two openers that are more than two characters -----------------------------

  lemma CharsOf(s: string, i: nat, t: string)
    requires At(s, i, t)
    ensures forall k | 0 <= k < |t| :: s[i + k] == t[k]
  {
    forall k | 0 <= k < |t|
      ensures s[i + k] == t[k]
    {
      assert s[i..i + |t|][k] == s[i + k];
    }
  }

  lemma {:induction false} HexRunIs(s: string, i: nat, n: nat)
    requires i + n < |s| && (forall k | i <= k < i + n :: IsHex(s[k]) || s[k] == '_')
    requires !(IsHex(s[i + n]) || s[i + n] == '_')
    ensures HexRun(s, i) == n
    decreases n
  {
    if n > 0 {
      HexRunIs(s, i + 1, n - 1);
    }
  }

  lemma CharTextIsFound(s: string, i: nat, t: string)
    requires CharTextAt(s, i, t)
    ensures CharLiteral(s, i) == Some(i + |t|) && s[i] == '\''
  {
    hide HexRun;
    CharsOf(s, i, t);
    assert s[i + 0] == t[0] && s[i + 1] == t[1] && s[i + 2] == t[2];
    assert |t| > 3 ==> s[i + 3] == t[3];
    assert s[i..i + 1] == "'";
    if |t| == 6 && t[..3] == "'\\x" {
      assert t[2] == t[..3][2] == 'x';
      assert s[i + 2..i + 3] == "x";
      assert s[i + 2] == 'x';
      NotAt(s, i + 2, "u{", 0);
      assert t[1] == t[..3][1] == '\\';
      assert s[i + 4] == t[4] && s[i + 5] == t[5];
    } else if |t| >= 7 {
      var n := |t| - 6;
      assert t[1] == t[..4][1] == '\\' && t[2] == t[..4][2] == 'u' && t[3] == t[..4][3] == '{';
      assert s[i + 2..i + 4] == "u{";
      assert s[i + (4 + n)] == t[4 + n] == '}' && s[i + (5 + n)] == t[5 + n] == '\'';
      forall k | i + 4 <= k < i + 4 + n
        ensures IsHex(s[k]) || s[k] == '_'
      {
        assert s[k] == t[k - i];
      }
      HexRunIs(s, i + 4, n);
      assert s[i + 4 + n..i + 6 + n] == "}'";
    } else if |t| == 4 {
      assert s[i + 3] == t[3] == '\'';
      NotAt(s, i + 2, "u{", 1);
    }
  }

  lemma NotAt(s: string, i: nat, text: string, k: nat)
    requires k < |text| && i + k < |s| && s[i + k] != text[k]
    ensures !At(s, i, text)
  {
    if i + |text| <= |s| {
      assert s[i..i + |text|][k] == s[i + k];
    }
  }

  lemma UnicodeIsCharText(s: string, i: nat, n: nat)
    requires At(s, i, "'") && i + 2 < |s| && s[i + 1] == '\\' && At(s, i + 2, "u{")
    requires n == HexRun(s, i + 4) && 1 <= n <= 6 && At(s, i + 4 + n, "}'")
    ensures IsCharText(s[i..i + 6 + n])
  {
    hide HexRun;
    var t := s[i..i + 6 + n];
    CharsOf(s, i, "'");
    CharsOf(s, i + 2, "u{");
    CharsOf(s, i + 4 + n, "}'");
    assert s[i + 2 + 0] == 'u' && s[i + 2 + 1] == '{' && s[i + 4 + n + 0] == '}' && s[i + 4 + n + 1] == '\'';
    assert t[..4] == "'\\u{";
    forall k | 4 <= k < |t| - 2
      ensures IsHex(t[k]) || t[k] == '_'
    {
      assert t[k] == s[i + k];
    }
  }

  lemma HexIsCharText(s: string, i: nat)
    requires At(s, i, "'") && i + 5 < |s| && s[i + 1] == '\\' && At(s, i + 2, "x")
    requires IsHex(s[i + 3]) && IsHex(s[i + 4]) && s[i + 5] == '\''
    ensures IsCharText(s[i..i + 6])
  {
    CharsOf(s, i, "'");
    CharsOf(s, i + 2, "x");
    assert s[i + 2 + 0] == 'x';
    assert s[i..i + 6][..3] == "'\\x";
  }

  lemma FoundIsCharText(s: string, i: nat)
    requires CharLiteral(s, i).Some?
    ensures CharTextAt(s, i, s[i..CharLiteral(s, i).value])
  {
    hide HexRun;
    var e := CharLiteral(s, i).value;
    var t := s[i..e];
    CharsOf(s, i, "'");
    assert s[i + 0] == '\'' && t[0] == s[i + 0] && t[1] == s[i + 1] && t[2] == s[i + 2];
    assert e >= i + 4 ==> t[3] == s[i + 3];
    assert s[i..i + |t|] == t;
    if s[i + 1] == '\\' {
      if At(s, i + 2, "u{") && 1 <= HexRun(s, i + 4) <= 6 && At(s, i + 4 + HexRun(s, i + 4), "}'") {
        UnicodeIsCharText(s, i, HexRun(s, i + 4));
      } else if e == i + 6 {
        HexIsCharText(s, i);
      }
    }
  }

  lemma {:induction false} HashRunIs(s: string, i: nat, n: nat)
    requires i + n < |s| && (forall k | i <= k < i + n :: s[k] == '#') && s[i + n] != '#'
    ensures HashRun(s, i) == n
    decreases n
  {
    if n > 0 {
      HashRunIs(s, i + 1, n - 1);
    }
  }

  ghost predicate RawOpenAt(s: string, i: nat, prefix: string, n: nat) {
    prefix in {"r", "br", "cr"} && At(s, i, RawOpen(prefix, n))
  }

  lemma RawOpenStarts(s: string, i: nat, prefix: string, n: nat)
    requires RawOpenAt(s, i, prefix, n)
    ensures RawStart(s, i) == Some((n, i + |prefix| + n + 1))
  {
    hide HashRun;
    var t := RawOpen(prefix, n);
    CharsOf(s, i, t);
    var at := i + |prefix|;
    assert s[at - 1] == t[|prefix| - 1] == 'r';
    assert |prefix| == 2 ==> s[i] == t[0] == prefix[0];
    assert |prefix| == 1 ==> s[i] == 'r';
    assert s[at + n] == t[|prefix| + n] == '"';
    forall k | at <= k < at + n
      ensures s[k] == '#'
    {
      assert s[k] == t[k - i] == Hashes(n)[k - at];
    }
    HashRunIs(s, at, n);
  }

  lemma StartIsRawOpen(s: string, i: nat) returns (prefix: string, n: nat)
    requires RawStart(s, i).Some?
    ensures RawOpenAt(s, i, prefix, n)
  {
    hide HashRun;
    var at := if s[i] in {'b', 'c'} then i + 1 else i;
    n := HashRun(s, at + 1);
    prefix := s[i..at + 1];
    assert prefix == if at == i then "r" else if s[i] == 'b' then "br" else "cr";
    AtRawOpen(s, i, at + 1, prefix, n);
  }

  lemma RawOpenIsFound(s: string, i: nat, prefix: string, n: nat, isAlnum: char -> bool)
    requires OpensRaw(s, i, prefix, n, isAlnum)
    ensures RawAt(s, i, isAlnum) == Some((n, i + |prefix| + n + 1))
  {
    hide RawStart;
    RawOpenStarts(s, i, prefix, n);
  }

  lemma FoundOpensRaw(s: string, i: nat, isAlnum: char -> bool) returns (prefix: string, n: nat)
    requires RawAt(s, i, isAlnum).Some?
    ensures OpensRaw(s, i, prefix, n, isAlnum)
  {
    hide RawStart;
    prefix, n := StartIsRawOpen(s, i);
  }

  lemma AtRawOpen(s: string, i: nat, from: nat, prefix: string, n: nat)
    requires i <= from && from + n < |s| && prefix == s[i..from]
    requires s[from + n] == '"' && forall k | from <= k < from + n :: s[k] == '#'
    ensures At(s, i, RawOpen(prefix, n))
  {
    var t, u := RawOpen(prefix, n), s[i..from + n + 1];
    forall k | 0 <= k < |t|
      ensures u[k] == t[k]
    {
      if k < |prefix| {
        assert t[k] == prefix[k] == s[i + k];
      } else if k < |prefix| + n {
        assert t[k] == Hashes(n)[k - |prefix|] == '#';
      }
    }
    assert u == t;
  }

  // ---- Complete lexemes --------------------------------------------------------------

  lemma OneTurn(s: string, i: nat, mode: Mode, t: Stride, keeps: seq<bool>, isAlnum: char -> bool)
    requires i < |s| && Turn(s, i, mode, isAlnum) == t && !t.keep && Passes(s, i, i, mode, keeps, isAlnum)
    ensures Passes(s, i, t.next, t.mode, keeps, isAlnum)
  {
    KeepsTurn(s, i, mode, isAlnum, keeps);
  }

  lemma TurnsBlock(s: string, i: nat, isAlnum: char -> bool)
    requires At(s, i, "/*")
    ensures Turn(s, i, Code, isAlnum) == Stride(i + 2, Block(1), false)
  {
    CharsOf(s, i, "/*");
    NotAt(s, i, "//", 1);
  }

  lemma TurnsBack(s: string, i: nat, isAlnum: char -> bool)
    requires At(s, i, "*/")
    ensures Turn(s, i, Block(1), isAlnum) == Stride(i + 2, Code, false)
  {
    CharsOf(s, i, "*/");
    NotAt(s, i, "/*", 0);
  }

  lemma TurnsStr(s: string, i: nat, isAlnum: char -> bool)
    requires At(s, i, "\"")
    ensures Turn(s, i, Code, isAlnum) == Stride(i + 1, Str, false)
    ensures Turn(s, i, Str, isAlnum) == Stride(i + 1, Code, false)
  {
    CharsOf(s, i, "\"");
    NotAt(s, i, "//", 0);
    NotAt(s, i, "/*", 0);
  }

  lemma TurnsChar(s: string, i: nat, t: string, isAlnum: char -> bool)
    requires CharTextAt(s, i, t)
    ensures |t| >= 3 && Turn(s, i, Code, isAlnum) == Stride(i + |t|, Code, false)
  {
    CharTextIsFound(s, i, t);
    NotAt(s, i, "//", 0);
    NotAt(s, i, "/*", 0);
  }

  lemma TurnsRaw(s: string, i: nat, prefix: string, n: nat, isAlnum: char -> bool)
    requires OpensRaw(s, i, prefix, n, isAlnum)
    ensures i < |s| && Turn(s, i, Code, isAlnum) == Stride(i + |RawOpen(prefix, n)|, Raw(n), false)
  {
    CharsOf(s, i, RawOpen(prefix, n));
    assert s[i] == RawOpen(prefix, n)[0] == prefix[0];
    NotAt(s, i, "//", 0);
    NotAt(s, i, "/*", 0);
    RawOpenIsFound(s, i, prefix, n, isAlnum);
  }

  lemma TurnsRawBack(s: string, i: nat, n: nat, isAlnum: char -> bool)
    requires At(s, i, RawClose(n))
    ensures Turn(s, i, Raw(n), isAlnum) == Stride(i + |RawClose(n)|, Code, false)
  {
  }

  /** From an opener to its close, given what lies between. */
  lemma Enclosed(s: string, i: nat, open: Stride, j: nat, close: Stride, keeps: seq<bool>, isAlnum: char -> bool)
    requires i < |s| && j < |s| && Passes(s, i, i, Code, keeps, isAlnum)
    requires Turn(s, i, Code, isAlnum) == open && !open.keep
    requires Passes(s, open.next, open.next, open.mode, keeps, isAlnum) ==> Passes(s, open.next, j, open.mode, keeps, isAlnum)
    requires Turn(s, j, open.mode, isAlnum) == close && !close.keep && close.mode == Code
    ensures Passes(s, i, close.next, Code, keeps, isAlnum)
  {
    hide Keeps, Turn;
    OneTurn(s, i, Code, open, keeps, isAlnum);
    OneTurn(s, j, open.mode, close, keeps, isAlnum);
  }

  lemma PassBlockComment(s: string, i: nat, items: seq<Item>, keeps: seq<bool>, isAlnum: char -> bool)
    requires Passes(s, i, i, Code, keeps, isAlnum) && ClosedAt(s, i, BlockComment(items), isAlnum)
    ensures Passes(s, i, i + 4 + Len(items), Code, keeps, isAlnum)
  {
    hide Keeps, Turn;
    var j := i + 2 + Len(items);
    if Passes(s, i + 2, i + 2, Block(1), keeps, isAlnum) {
      PassItems(s, i + 2, items, 1, keeps, isAlnum);
    }
    TurnsBlock(s, i, isAlnum);
    TurnsBack(s, j, isAlnum);
    Enclosed(s, i, Stride(i + 2, Block(1), false), j, Stride(j + 2, Code, false), keeps, isAlnum);
  }

  lemma Quoted(s: string, i: nat, j: nat, keeps: seq<bool>, isAlnum: char -> bool)
    requires Passes(s, i, i, Code, keeps, isAlnum) && At(s, i, "\"") && At(s, j, "\"")
    requires Passes(s, i + 1, i + 1, Str, keeps, isAlnum) ==> Passes(s, i + 1, j, Str, keeps, isAlnum)
    ensures Passes(s, i, j + 1, Code, keeps, isAlnum)
  {
    hide Keeps, Turn;
    TurnsStr(s, i, isAlnum);
    TurnsStr(s, j, isAlnum);
    Enclosed(s, i, Stride(i + 1, Str, false), j, Stride(j + 1, Code, false), keeps, isAlnum);
  }

  lemma PassStringLiteral(s: string, i: nat, parts: seq<StrItem>, keeps: seq<bool>, isAlnum: char -> bool)
    requires Passes(s, i, i, Code, keeps, isAlnum) && ClosedAt(s, i, StringLiteral(parts), isAlnum)
    ensures Passes(s, i, i + 2 + StrLen(parts), Code, keeps, isAlnum)
  {
    hide Keeps, Turn;
    if Passes(s, i + 1, i + 1, Str, keeps, isAlnum) {
      PassStr(s, i + 1, parts, keeps, isAlnum);
    }
    Quoted(s, i, i + 1 + StrLen(parts), keeps, isAlnum);
  }

  lemma PassLineComment(s: string, i: nat, text: string, ended: bool, keeps: seq<bool>, isAlnum: char -> bool)
    requires Passes(s, i, i, Code, keeps, isAlnum) && ClosedAt(s, i, LineComment(text, ended), isAlnum)
    ensures Passes(s, i, i + 2 + |text| + (if ended then 1 else 0), Code, keeps, isAlnum)
  {
    hide Keeps;
    var j := i + 2 + |text|;
    OneTurn(s, i, Code, Stride(i + 2, Line, false), keeps, isAlnum);
    forall k | i + 2 <= k < j
      ensures s[k] != '\n'
    {
      CharsOf(s, i + 2, text);
      assert s[i + 2 + (k - i - 2)] == text[k - i - 2];
    }
    PassLine(s, i + 2, j, keeps, isAlnum);
    if ended {
      assert s[j] == s[j..j + 1][0] == '\n';
      OneTurn(s, j, Line, Stride(j + 1, Code, false), keeps, isAlnum);
    }
  }

  lemma RawQuoted(s: string, i: nat, prefix: string, n: nat, from: nat, j: nat, keeps: seq<bool>, isAlnum: char -> bool)
    requires Passes(s, i, i, Code, keeps, isAlnum) && OpensRaw(s, i, prefix, n, isAlnum) && At(s, j, RawClose(n))
    requires from == i + |RawOpen(prefix, n)|
    requires Passes(s, from, from, Raw(n), keeps, isAlnum) ==> Passes(s, from, j, Raw(n), keeps, isAlnum)
    ensures Passes(s, i, j + |RawClose(n)|, Code, keeps, isAlnum)
  {
    hide Keeps, Turn;
    TurnsRaw(s, i, prefix, n, isAlnum);
    TurnsRawBack(s, j, n, isAlnum);
    Enclosed(s, i, Stride(from, Raw(n), false), j, Stride(j + |RawClose(n)|, Code, false), keeps, isAlnum);
  }

  lemma PassRawString(s: string, i: nat, prefix: string, n: nat, body: string, keeps: seq<bool>, isAlnum: char -> bool)
    requires Passes(s, i, i, Code, keeps, isAlnum) && ClosedAt(s, i, RawString(prefix, n, body), isAlnum)
    ensures Passes(s, i, i + |RawOpen(prefix, n)| + |body| + |RawClose(n)|, Code, keeps, isAlnum)
  {
    hide Keeps, Turn;
    var from := i + |RawOpen(prefix, n)|;
    var j := from + |body|;
    if Passes(s, from, from, Raw(n), keeps, isAlnum) {
      PassRaw(s, from, j, n, keeps, isAlnum);
    }
    RawQuoted(s, i, prefix, n, from, j, keeps, isAlnum);
  }

  lemma PassClosed(s: string, i: nat, l: Lexeme, keeps: seq<bool>, isAlnum: char -> bool)
    requires Passes(s, i, i, Code, keeps, isAlnum) && ClosedAt(s, i, l, isAlnum)
    ensures Width(s, i, l) > 0 && Passes(s, i, i + Width(s, i, l), Code, keeps, isAlnum)
  {
    hide Keeps, Turn;
    match l
    case LineComment(text, ended) => PassLineComment(s, i, text, ended, keeps, isAlnum);
    case BlockComment(items) => PassBlockComment(s, i, items, keeps, isAlnum);
    case StringLiteral(parts) => PassStringLiteral(s, i, parts, keeps, isAlnum);
    case RawString(prefix, n, body) => PassRawString(s, i, prefix, n, body, keeps, isAlnum);
    case CharText(t) =>
      TurnsChar(s, i, t, isAlnum);
      OneTurn(s, i, Code, Stride(i + |t|, Code, false), keeps, isAlnum);
  }

  // ---- Openers that are never closed -------------------------------------------------

  /** Where the lexer, inside a comment or string at `i`, is back in code. */
  function Exit(s: string, i: nat, mode: Mode, isAlnum: char -> bool): (r: Option<nat>)
    requires i <= |s| && mode != Code
    ensures r.Some? ==> i < r.value <= |s|
    decreases |s| - i
  {
    if i == |s| then None
    else
      var t := Turn(s, i, mode, isAlnum);
      if t.mode == Code then Some(t.next) else Exit(s, t.next, t.mode, isAlnum)
  }

  lemma {:induction false} NoExitKeepsNothing(s: string, i: nat, mode: Mode, keeps: seq<bool>, isAlnum: char -> bool)
    requires mode != Code && Passes(s, i, i, mode, keeps, isAlnum) && Exit(s, i, mode, isAlnum).None?
    ensures forall k | i <= k < |s| :: !keeps[k]
    decreases |s| - i
  {
    if i < |s| {
      var t := Turn(s, i, mode, isAlnum);
      KeepsTurn(s, i, mode, isAlnum, keeps);
      NoExitKeepsNothing(s, t.next, t.mode, keeps, isAlnum);
    }
  }

  lemma ItemsCons(s: string, i: nat, item: Item, rest: seq<Item>)
    requires ItemAt(s, i, item) && ItemsAt(s, i + ItemLen(item), rest)
    ensures ItemsAt(s, i, [item] + rest) && Len([item] + rest) == ItemLen(item) + Len(rest)
  {
    assert ([item] + rest)[1..] == rest;
  }

  lemma BlockExit(s: string, i: nat, depth: nat, isAlnum: char -> bool)
    requires i < |s| && depth >= 1
    ensures At(s, i, "/*") ==> Exit(s, i, Block(depth), isAlnum) == Exit(s, i + 2, Block(depth + 1), isAlnum)
    ensures At(s, i, "*/") && depth > 1 ==> Exit(s, i, Block(depth), isAlnum) == Exit(s, i + 2, Block(depth - 1), isAlnum)
    ensures !At(s, i, "*/") && !At(s, i, "/*") ==> Exit(s, i, Block(depth), isAlnum) == Exit(s, i + 1, Block(depth), isAlnum)
  {
    if At(s, i, "*/") {
      CharsOf(s, i, "*/");
      NotAt(s, i, "/*", 0);
    }
  }

  lemma ExitNeedsText(s: string, i: nat, depth: nat, isAlnum: char -> bool)
    requires i <= |s| && Exit(s, i, Block(depth), isAlnum).Some?
    ensures i < |s|
  {
  }

  lemma NoItems(s: string, i: nat)
    ensures ItemsAt(s, i, []) && Len([]) == 0
  {
  }

  lemma {:induction false} BuildItems(s: string, i: nat, depth: nat, isAlnum: char -> bool, e: Option<nat>) returns (items: seq<Item>)
    requires i <= |s| && depth >= 1 && Exit(s, i, Block(depth), isAlnum) == e && e.Some?
    ensures ItemsAt(s, i, items) && At(s, i + Len(items), "*/")
    ensures depth > 1 ==> Exit(s, i + Len(items) + 2, Block(depth - 1), isAlnum) == e
    decreases |s| - i
  {
    hide Exit, ItemsAt, Len;
    ExitNeedsText(s, i, depth, isAlnum);
    BlockExit(s, i, depth, isAlnum);
    if At(s, i, "*/") {
      NoItems(s, i);
      return [];
    }
    var item := Plain(s[i]);
    if At(s, i, "/*") {
      var inner := BuildItems(s, i + 2, depth + 1, isAlnum, e);
      item := Nested(inner);
    }
    var rest := BuildItems(s, i + ItemLen(item), depth, isAlnum, e);
    ItemsCons(s, i, item, rest);
    items := [item] + rest;
  }

  lemma {:induction false} BuildStr(s: string, i: nat, isAlnum: char -> bool) returns (parts: seq<StrItem>)
    requires i <= |s| && Exit(s, i, Str, isAlnum).Some?
    ensures StrAt(s, i, parts) && At(s, i + StrLen(parts), "\"")
    decreases |s| - i
  {
    if s[i] == '"' {
      parts := [];
      assert s[i..i + 1] == "\"";
    } else {
      var t := Turn(s, i, Str, isAlnum);
      var rest := BuildStr(s, t.next, isAlnum);
      parts := [if s[i] == '\\' then Escape(s[i + 1]) else Lit(s[i])] + rest;
      assert parts[1..] == rest;
    }
  }

  lemma {:induction false} BuildRaw(s: string, i: nat, n: nat, isAlnum: char -> bool) returns (m: nat)
    requires i <= |s| && Exit(s, i, Raw(n), isAlnum).Some?
    ensures i <= m <= |s| && At(s, m, RawClose(n)) && forall p | i <= p < m :: !At(s, p, RawClose(n))
    decreases |s| - i
  {
    if At(s, i, RawClose(n)) {
      m := i;
    } else {
      assert Turn(s, i, Raw(n), isAlnum) == Stride(i + 1, Raw(n), false);
      m := BuildRaw(s, i + 1, n, isAlnum);
    }
  }

  lemma ClosedBlock(s: string, i: nat, isAlnum: char -> bool)
    requires At(s, i, "/*") && Exit(s, i + 2, Block(1), isAlnum).Some?
    ensures exists l :: ClosedAt(s, i, l, isAlnum)
  {
    hide Exit;
    var items := BuildItems(s, i + 2, 1, isAlnum, Exit(s, i + 2, Block(1), isAlnum));
    assert ClosedAt(s, i, BlockComment(items), isAlnum);
  }

  lemma ClosedString(s: string, i: nat, isAlnum: char -> bool)
    requires At(s, i, "\"") && Exit(s, i + 1, Str, isAlnum).Some?
    ensures exists l :: ClosedAt(s, i, l, isAlnum)
  {
    hide Exit;
    var parts := BuildStr(s, i + 1, isAlnum);
    assert ClosedAt(s, i, StringLiteral(parts), isAlnum);
  }

  lemma ClosedRaw(s: string, i: nat, prefix: string, n: nat, from: nat, isAlnum: char -> bool)
    requires OpensRaw(s, i, prefix, n, isAlnum) && from == i + |RawOpen(prefix, n)| && Exit(s, from, Raw(n), isAlnum).Some?
    ensures exists l :: ClosedAt(s, i, l, isAlnum)
  {
    hide Exit;
    var m := BuildRaw(s, from, n, isAlnum);
    assert ClosedAt(s, i, RawString(prefix, n, s[from..m]), isAlnum);
  }

  /** The mode an opener puts the lexer in, and where. */
  lemma Enters(s: string, i: nat, isAlnum: char -> bool) returns (t: Stride)
    requires i < |s| && Opens(s, i, isAlnum)
    ensures t == Turn(s, i, Code, isAlnum) && t.mode != Code && !t.keep
    ensures Exit(s, t.next, t.mode, isAlnum).Some? ==> exists l :: ClosedAt(s, i, l, isAlnum)
  {
    hide Exit, ClosedAt, Turn;
    t := Turn(s, i, Code, isAlnum);
    if At(s, i, "/*") {
      TurnsBlock(s, i, isAlnum);
      if Exit(s, t.next, t.mode, isAlnum).Some? {
        ClosedBlock(s, i, isAlnum);
      }
    } else if At(s, i, "\"") {
      TurnsStr(s, i, isAlnum);
      if Exit(s, t.next, t.mode, isAlnum).Some? {
        ClosedString(s, i, isAlnum);
      }
    } else {
      var prefix, n :| OpensRaw(s, i, prefix, n, isAlnum);
      TurnsRaw(s, i, prefix, n, isAlnum);
      if Exit(s, t.next, t.mode, isAlnum).Some? {
        ClosedRaw(s, i, prefix, n, t.next, isAlnum);
      }
    }
  }

  lemma UnfinishedKeepsNothing(s: string, i: nat, keeps: seq<bool>, isAlnum: char -> bool)
    requires Passes(s, i, i, Code, keeps, isAlnum) && LexemeAt(s, i, Unfinished, isAlnum)
    ensures Passes(s, i, |s|, Code, keeps, isAlnum)
  {
    hide Keeps, Turn;
    var t := Enters(s, i, isAlnum);
    KeepsTurn(s, i, Code, isAlnum, keeps);
    NoExitKeepsNothing(s, t.next, t.mode, keeps, isAlnum);
  }

  lemma QuoteIsAt(s: string, i: nat)
    requires i < |s| && s[i] == '"'
    ensures At(s, i, "\"")
  {
    assert s[i..i + 1] == "\"";
  }

  lemma CodeCharIsKept(s: string, i: nat, keeps: seq<bool>, isAlnum: char -> bool)
    requires Passes(s, i, i, Code, keeps, isAlnum) && LexemeAt(s, i, CodeChar, isAlnum)
    ensures keeps[i] && Passes(s, i + 1, i + 1, Code, keeps, isAlnum)
  {
    hide Keeps;
    if s[i] == '"' {
      QuoteIsAt(s, i);
    }
    if CharLiteral(s, i).Some? {
      FoundIsCharText(s, i);
    }
    if RawAt(s, i, isAlnum).Some? {
      var prefix, n := FoundOpensRaw(s, i, isAlnum);
    }
    KeepsTurn(s, i, Code, isAlnum, keeps);
  }

  // ---- The two together --------------------------------------------------------------

  /** Exactly the code characters of a division into lexemes, from `i` on. */
  function KeptOf(s: string, i: nat, ls: seq<Lexeme>): seq<bool>
    requires i <= |s|
    decreases |ls|
  {
    if ls == [] then []
    else
      var w := Width(s, i, ls[0]);
      seq(w, _ => ls[0].CodeChar?) + if i + w <= |s| then KeptOf(s, i + w, ls[1..]) else []
  }

  lemma StepsOver(s: string, i: nat, l: Lexeme, keeps: seq<bool>, isAlnum: char -> bool)
    requires LexemeAt(s, i, l, isAlnum) && Passes(s, i, i, Code, keeps, isAlnum)
    ensures var j := i + Width(s, i, l);
      Passes(s, j, j, Code, keeps, isAlnum) && forall k | i <= k < j :: keeps[k] == l.CodeChar?
  {
    hide Keeps;
    match l
    case CodeChar => CodeCharIsKept(s, i, keeps, isAlnum);
    case Unfinished => UnfinishedKeepsNothing(s, i, keeps, isAlnum);
    case _ => PassClosed(s, i, l, keeps, isAlnum);
  }

  lemma Joined(keeps: seq<bool>, i: nat, w: nat, kept: bool, rest: seq<bool>)
    requires i + w <= |keeps| && (forall k | i <= k < i + w :: keeps[k] == kept) && keeps[i + w..] == rest
    ensures keeps[i..] == seq(w, _ => kept) + rest
  {
    assert keeps[i..] == keeps[i..i + w] + keeps[i + w..];
    assert keeps[i..i + w] == seq(w, _ => kept);
  }

  lemma CoversUnfold(s: string, i: nat, ls: seq<Lexeme>, isAlnum: char -> bool)
    requires Covers(s, i, ls, isAlnum)
    ensures i <= |s|
    ensures if ls == [] then i == |s| && KeptOf(s, i, ls) == []
      else
        var j := i + Width(s, i, ls[0]);
        && LexemeAt(s, i, ls[0], isAlnum) && j <= |s| && Covers(s, j, ls[1..], isAlnum)
        && KeptOf(s, i, ls) == seq(j - i, _ => ls[0].CodeChar?) + KeptOf(s, j, ls[1..])
  {
    hide LexemeAt, Width;
  }

  lemma {:induction false} KeepsFollow(s: string, i: nat, ls: seq<Lexeme>, keeps: seq<bool>, isAlnum: char -> bool)
    requires Covers(s, i, ls, isAlnum) && Passes(s, i, i, Code, keeps, isAlnum)
    ensures keeps[i..] == KeptOf(s, i, ls)
    decreases |ls|
  {
    hide Keeps, LexemeAt, Width, Covers, KeptOf;
    CoversUnfold(s, i, ls, isAlnum);
    if ls != [] {
      var w := Width(s, i, ls[0]);
      StepsOver(s, i, ls[0], keeps, isAlnum);
      KeepsFollow(s, i + w, ls[1..], keeps, isAlnum);
      Joined(keeps, i, w, ls[0].CodeChar?, KeptOf(s, i + w, ls[1..]));
    }
  }

  /** However a source divides into lexemes, the lexer keeps exactly the code characters. */
  lemma MaskFollowsGrammar(s: string, ls: seq<Lexeme>, isAlnum: char -> bool)
    requires Covers(s, 0, ls, isAlnum)
    ensures Keeps(s, 0, Code, isAlnum) == KeptOf(s, 0, ls)
  {
    var keeps := Keeps(s, 0, Code, isAlnum);
    assert keeps[0..] == keeps;
    KeepsFollow(s, 0, ls, keeps, isAlnum);
  }

  /** And every source divides into lexemes. */
  lemma {:induction false} EverySourceDivides(s: string, i: nat, isAlnum: char -> bool) returns (ls: seq<Lexeme>)
    requires i <= |s|
    ensures Covers(s, i, ls, isAlnum)
    decreases |s| - i
  {
    if i == |s| {
      ls := [];
    } else {
      var l := NextLexeme(s, i, isAlnum);
      var rest := EverySourceDivides(s, i + Width(s, i, l), isAlnum);
      ls := [l] + rest;
      assert ls[1..] == rest;
    }
  }

  lemma NextLexeme(s: string, i: nat, isAlnum: char -> bool) returns (l: Lexeme)
    requires i < |s|
    ensures LexemeAt(s, i, l, isAlnum) && 0 < Width(s, i, l) <= |s| - i
  {
    var keeps := seq(i, _ => false) + Keeps(s, i, Code, isAlnum);
    assert keeps[i..] == Keeps(s, i, Code, isAlnum);
    if l' :| ClosedAt(s, i, l', isAlnum) {
      l := l';
      PassClosed(s, i, l, keeps, isAlnum);
    } else if Opens(s, i, isAlnum) {
      l := Unfinished;
    } else {
      l := CodeChar;
      if At(s, i, "//") {
        var j := LineEnd(s, i + 2);
        assert ClosedAt(s, i, LineComment(s[i + 2..j], j < |s|), isAlnum);
      }
      forall t
        ensures !CharTextAt(s, i, t)
      {
        assert !ClosedAt(s, i, CharText(t), isAlnum);
      }
    }
  }

  lemma {:induction false} LineEnd(s: string, i: nat) returns (j: nat)
    requires i <= |s|
    ensures i <= j <= |s| && '\n' !in s[i..j] && (j < |s| ==> At(s, j, "\n"))
    decreases |s| - i
  {
    if i == |s| || s[i] == '\n' {
      j := i;
      if i < |s| {
        assert s[i..i + 1] == "\n";
      }
    } else {
      j := LineEnd(s, i + 1);
      assert s[i..j] == [s[i]] + s[i + 1..j];
    }
  }
}
