/** What the platform gate's lexer reads, said by a grammar: a source is a sequence of pieces,
    each the longest of its kind, and the tokens are those of the pieces. */
module CfgGrammar {
  import opened Wrappers
  import opened Characters
  import opened Brackets
  import opened CfgLex
  import Mask
  import MaskGrammar

  datatype Piece =
    | White(c: char)
    | Note(text: string)
    | Comment(items: seq<MaskGrammar.Item>)
    | RawText(prefix: string, hashes: nat, body: string)
    | PlainText(prefix: string, parts: seq<MaskGrammar.StrItem>)
    | CharLit(text: string)
    | Lifetime(text: string)
    | Name(text: string)
    | Number(text: string)
    | Mark(text: string)

  // ---- The grammar -------------------------------------------------------------------

  /** The text of a string as it is written, escapes and all. */
  function Written(parts: seq<MaskGrammar.StrItem>): string {
    if parts == [] then ""
    else (if parts[0].Lit? then [parts[0].c] else ['\\', parts[0].c]) + Written(parts[1..])
  }

  ghost predicate CommentAt(s: string, i: nat, items: seq<MaskGrammar.Item>) {
    && Mask.At(s, i, "/*") && MaskGrammar.ItemsAt(s, i + 2, items)
    && Mask.At(s, i + 2 + MaskGrammar.Len(items), "*/")
  }

  ghost predicate PlainOpenAt(s: string, i: nat, prefix: string) {
    prefix in {"", "b", "c"} && Mask.At(s, i, prefix + "\"")
  }

  ghost predicate PlainTextAt(s: string, i: nat, prefix: string, parts: seq<MaskGrammar.StrItem>) {
    var from := i + |prefix| + 1;
    && PlainOpenAt(s, i, prefix) && MaskGrammar.StrAt(s, from, parts)
    && Mask.At(s, from + MaskGrammar.StrLen(parts), "\"")
  }

  ghost predicate RawTextAt(s: string, i: nat, prefix: string, n: nat, body: string) {
    var from := i + |MaskGrammar.RawOpen(prefix, n)|;
    && MaskGrammar.RawOpenAt(s, i, prefix, n) && Mask.At(s, from, body)
    && Mask.At(s, from + |body|, MaskGrammar.RawClose(n))
    && forall p | from <= p < from + |body| :: !Mask.At(s, p, MaskGrammar.RawClose(n))
  }

  ghost predicate OpensString(s: string, i: nat) {
    (exists prefix, n :: MaskGrammar.RawOpenAt(s, i, prefix, n)) || exists prefix :: PlainOpenAt(s, i, prefix)
  }

  /** On one line: a quote, one character or one escape, a quote; perhaps a byte's. */
  predicate IsCharLit(t: string) {
    var u := if t != "" && t[0] == 'b' then t[1..] else t;
    MaskGrammar.IsCharText(u) && '\n' !in u
  }

  predicate AllNameChars(t: string) {
    forall k | 0 <= k < |t| :: IsNameChar(t[k])
  }

  predicate IsLifetime(t: string) {
    |t| > 1 && t[0] == '\'' && IsNameStart(t[1]) && AllNameChars(t[1..])
  }

  predicate IsNumber(t: string) {
    t != "" && IsDigit(t[0]) && AllNameChars(t)
  }

  predicate IsMark(t: string) {
    |t| == 1 || t in {"::", "->", "=>", "==", "!=", "<=", ">=", "&&", "||", ".."}
  }

  datatype Word = ACharLit | ALifetime | AName | ANumber | AMark

  ghost predicate WordAt(s: string, i: nat, word: Word, t: string) {
    && Mask.At(s, i, t)
    && match word
       case ACharLit => IsCharLit(t)
       case ALifetime => IsLifetime(t)
       case AName => IsName(t)
       case ANumber => IsNumber(t)
       case AMark => IsMark(t)
  }

  ghost predicate HasWord(s: string, i: nat, word: Word) {
    exists t :: WordAt(s, i, word, t)
  }

  ghost predicate Longest(s: string, i: nat, word: Word, t: string) {
    WordAt(s, i, word, t) && forall u :: WordAt(s, i, word, u) ==> |u| <= |t|
  }

  /** A piece is told from another that starts alike: strings and characters come before
      names, characters before lifetimes, and a mark is what nothing else claims. */
  ghost predicate PieceAt(s: string, i: nat, p: Piece) {
    match p
    case White(c) => i < |s| && s[i] == c && IsSpace(c)
    case Note(text) =>
      var end := i + 2 + |text|;
      && Mask.At(s, i, "//") && Mask.At(s, i + 2, text) && '\n' !in text
      && (end == |s| || Mask.At(s, end, "\n"))
    case Comment(items) => CommentAt(s, i, items)
    case RawText(prefix, n, body) => RawTextAt(s, i, prefix, n, body)
    case PlainText(prefix, parts) => PlainTextAt(s, i, prefix, parts)
    case CharLit(t) => WordAt(s, i, ACharLit, t)
    case Lifetime(t) => Longest(s, i, ALifetime, t) && !HasWord(s, i, ACharLit)
    case Name(t) => Longest(s, i, AName, t) && !OpensString(s, i) && !HasWord(s, i, ACharLit)
    case Number(t) => Longest(s, i, ANumber, t)
    case Mark(t) =>
      && Longest(s, i, AMark, t) && !IsSpace(s[i]) && !Mask.At(s, i, "//") && !Mask.At(s, i, "/*")
      && !OpensString(s, i) && forall word | word != AMark :: !HasWord(s, i, word)
  }

  function Span(p: Piece): nat {
    match p
    case White(_) => 1
    case Note(text) => 2 + |text|
    case Comment(items) => 4 + MaskGrammar.Len(items)
    case RawText(prefix, n, body) => |MaskGrammar.RawOpen(prefix, n)| + |body| + |MaskGrammar.RawClose(n)|
    case PlainText(prefix, parts) => |prefix| + 2 + MaskGrammar.StrLen(parts)
    case CharLit(t) => |t|
    case Lifetime(t) => |t|
    case Name(t) => |t|
    case Number(t) => |t|
    case Mark(t) => |t|
  }

  function TokenOf(p: Piece): Option<Tok> {
    match p
    case White(_) => None
    case Note(_) => None
    case Comment(_) => None
    case RawText(_, _, body) => Some(Tok(Str, body))
    case PlainText(_, parts) => Some(Tok(Str, Written(parts)))
    case CharLit(t) => Some(Tok(Lit, t))
    case Lifetime(t) => Some(Tok(Lit, t))
    case Name(t) => Some(Tok(Ident, t))
    case Number(t) => Some(Tok(Lit, t))
    case Mark(t) => Some(Tok(Punct, t))
  }

  function TokensOf(pieces: seq<Piece>): seq<Tok> {
    if pieces == [] then []
    else (if TokenOf(pieces[0]).Some? then [TokenOf(pieces[0]).value] else []) + TokensOf(pieces[1..])
  }

  /** The text from `i` to `j` is these pieces, one after the other. */
  ghost predicate Divides(s: string, i: nat, pieces: seq<Piece>, j: nat)
    decreases |pieces|
  {
    if pieces == [] then i == j <= |s|
    else PieceAt(s, i, pieces[0]) && Divides(s, i + Span(pieces[0]), pieces[1..], j)
  }

  /** At `i` something is opened that nothing in the source closes. */
  ghost predicate OpenAt(s: string, i: nat, fault: LexFault) {
    match fault
    case OpenComment => Mask.At(s, i, "/*") && forall items :: !CommentAt(s, i, items)
    case OpenRawString =>
      (exists prefix, n :: MaskGrammar.RawOpenAt(s, i, prefix, n)) && forall prefix, n, body :: !RawTextAt(s, i, prefix, n, body)
    case OpenString => (exists prefix :: PlainOpenAt(s, i, prefix)) && forall prefix, parts :: !PlainTextAt(s, i, prefix, parts)
  }

  // ---- Comments ----------------------------------------------------------------------

  lemma FirstChar(s: string, i: nat, t: string)
    requires t != "" && Mask.At(s, i, t)
    ensures i < |s| && s[i] == t[0]
    ensures |t| > 1 ==> i + 1 < |s| && s[i + 1] == t[1]
  {
    assert s[i..i + |t|][0] == s[i];
    assert |t| > 1 ==> s[i..i + |t|][1] == s[i + 1];
  }

  lemma AtSelf(s: string, i: nat, e: nat)
    requires i <= e <= |s|
    ensures Mask.At(s, i, s[i..e])
  {
  }

  lemma {:induction false} LineEndIs(s: string, i: nat, e: nat)
    requires i <= e <= |s| && (forall k | i <= k < e :: s[k] != '\n') && (e < |s| ==> s[e] == '\n')
    ensures LineEnd(s, i) == e
    decreases e - i
  {
    if i < e {
      LineEndIs(s, i + 1, e);
    }
  }

  lemma {:induction false} LineEndStops(s: string, i: nat)
    requires i <= |s|
    ensures (forall k | i <= k < LineEnd(s, i) :: s[k] != '\n') && (LineEnd(s, i) < |s| ==> s[LineEnd(s, i)] == '\n')
    decreases |s| - i
  {
    if i < |s| && s[i] != '\n' {
      LineEndStops(s, i + 1);
    }
  }

  lemma {:induction false} PassItems(s: string, i: nat, items: seq<MaskGrammar.Item>, depth: nat)
    requires depth >= 1 && MaskGrammar.ItemsAt(s, i, items)
    ensures BlockEnd(s, i, depth) == BlockEnd(s, i + MaskGrammar.Len(items), depth)
    decreases items, 1
  {
    hide BlockEnd;
    if items != [] {
      PassItem(s, i, items[0], depth);
      PassItems(s, i + MaskGrammar.ItemLen(items[0]), items[1..], depth);
    }
  }

  lemma {:induction false} PassItem(s: string, i: nat, item: MaskGrammar.Item, depth: nat)
    requires depth >= 1 && MaskGrammar.ItemAt(s, i, item)
    ensures BlockEnd(s, i, depth) == BlockEnd(s, i + MaskGrammar.ItemLen(item), depth)
    decreases item, 0
  {
    hide BlockEnd;
    match item
    case Plain(_) => BlockTurn(s, i, depth);
    case Nested(items) =>
      BlockTurn(s, i, depth);
      PassItems(s, i + 2, items, depth + 1);
      BlockTurn(s, i + 2 + MaskGrammar.Len(items), depth + 1);
  }

  lemma BlockTurn(s: string, i: nat, depth: nat)
    requires depth >= 1
    ensures Mask.At(s, i, "/*") ==> BlockEnd(s, i, depth) == BlockEnd(s, i + 2, depth + 1)
    ensures Mask.At(s, i, "*/") ==> BlockEnd(s, i, depth) == BlockEnd(s, i + 2, depth - 1)
    ensures i < |s| && !Mask.At(s, i, "*/") && !Mask.At(s, i, "/*") ==> BlockEnd(s, i, depth) == BlockEnd(s, i + 1, depth)
    ensures i >= |s| ==> BlockEnd(s, i, depth) == None
    ensures BlockEnd(s, i, 0) == Some(i)
  {
    if Mask.At(s, i, "*/") {
      FirstChar(s, i, "*/");
      MaskGrammar.NotAt(s, i, "/*", 0);
    }
  }

  lemma {:induction false} BuildItems(s: string, i: nat, depth: nat, e: Option<nat>) returns (items: seq<MaskGrammar.Item>)
    requires depth >= 1 && BlockEnd(s, i, depth) == e && e.Some?
    ensures MaskGrammar.ItemsAt(s, i, items) && Mask.At(s, i + MaskGrammar.Len(items), "*/")
    ensures BlockEnd(s, i + MaskGrammar.Len(items) + 2, depth - 1) == e
    decreases |s| - i
  {
    hide BlockEnd, MaskGrammar.ItemsAt, MaskGrammar.Len;
    BlockTurn(s, i, depth);
    if Mask.At(s, i, "*/") {
      MaskGrammar.NoItems(s, i);
      return [];
    }
    var item := MaskGrammar.Plain(s[i]);
    if Mask.At(s, i, "/*") {
      var inner := BuildItems(s, i + 2, depth + 1, e);
      item := MaskGrammar.Nested(inner);
    }
    var rest := BuildItems(s, i + MaskGrammar.ItemLen(item), depth, e);
    MaskGrammar.ItemsCons(s, i, item, rest);
    items := [item] + rest;
  }

  lemma CommentEnds(s: string, i: nat, items: seq<MaskGrammar.Item>)
    requires CommentAt(s, i, items)
    ensures BlockEnd(s, i + 2, 1) == Some(i + 4 + MaskGrammar.Len(items))
  {
    hide BlockEnd, MaskGrammar.ItemsAt, MaskGrammar.Len;
    PassItems(s, i + 2, items, 1);
    BlockTurn(s, i + 2 + MaskGrammar.Len(items), 1);
    BlockTurn(s, i + 4 + MaskGrammar.Len(items), 1);
  }

  lemma EndIsComment(s: string, i: nat) returns (items: seq<MaskGrammar.Item>)
    requires Mask.At(s, i, "/*") && BlockEnd(s, i + 2, 1).Some?
    ensures CommentAt(s, i, items) && BlockEnd(s, i + 2, 1) == Some(i + 4 + MaskGrammar.Len(items))
  {
    hide BlockEnd, MaskGrammar.ItemsAt, MaskGrammar.Len;
    items := BuildItems(s, i + 2, 1, BlockEnd(s, i + 2, 1));
    CommentEnds(s, i, items);
  }

  // ---- Strings -----------------------------------------------------------------------

  lemma {:induction false} PassStr(s: string, i: nat, parts: seq<MaskGrammar.StrItem>)
    requires i <= |s| && MaskGrammar.StrAt(s, i, parts)
    ensures StringEnd(s, i) == StringEnd(s, i + MaskGrammar.StrLen(parts))
    decreases |parts|
  {
    if parts != [] {
      PassStr(s, i + (if parts[0].Lit? then 1 else 2), parts[1..]);
    }
  }

  lemma {:induction false} WrittenIsThere(s: string, i: nat, parts: seq<MaskGrammar.StrItem>)
    requires i <= |s| && MaskGrammar.StrAt(s, i, parts)
    ensures Mask.At(s, i, Written(parts)) && |Written(parts)| == MaskGrammar.StrLen(parts)
    decreases |parts|
  {
    if parts == [] {
      assert s[i..i] == "";
    } else {
      var m := i + (if parts[0].Lit? then 1 else 2);
      WrittenIsThere(s, m, parts[1..]);
      hide MaskGrammar.StrAt;
      AtJoins(s, i, if parts[0].Lit? then [parts[0].c] else ['\\', parts[0].c], Written(parts[1..]));
    }
  }

  lemma AtJoins(s: string, i: nat, a: string, b: string)
    requires i + |a| <= |s| && (forall k | 0 <= k < |a| :: s[i + k] == a[k]) && Mask.At(s, i + |a|, b)
    ensures Mask.At(s, i, a + b)
  {
    var m, e := i + |a|, i + |a| + |b|;
    assert s[i..m] == a;
    assert s[i..e] == s[i..m] + s[m..e];
  }

  lemma QuoteEnds(s: string, j: nat)
    requires Mask.At(s, j, "\"")
    ensures StringEnd(s, j) == Some(j)
  {
    FirstChar(s, j, "\"");
  }

  lemma {:induction false} BuildStr(s: string, i: nat) returns (parts: seq<MaskGrammar.StrItem>)
    requires StringEnd(s, i).Some?
    ensures MaskGrammar.StrAt(s, i, parts) && i + MaskGrammar.StrLen(parts) == StringEnd(s, i).value
    decreases |s| - i
  {
    if s[i] == '"' {
      parts := [];
    } else {
      var rest := BuildStr(s, if s[i] == '\\' then i + 2 else i + 1);
      parts := [if s[i] == '\\' then MaskGrammar.Escape(s[i + 1]) else MaskGrammar.Lit(s[i])] + rest;
      assert parts[1..] == rest;
    }
  }

  lemma PlainOpenStarts(s: string, i: nat, prefix: string)
    requires PlainOpenAt(s, i, prefix)
    ensures i < |s| && PlainStart(s, i) == Some(i + |prefix| + 1)
    ensures Mask.RawStart(s, i).None? && s[i] == (prefix + "\"")[0]
  {
    FirstChar(s, i, prefix + "\"");
  }

  lemma StartIsPlainOpen(s: string, i: nat) returns (prefix: string)
    requires i < |s| && PlainStart(s, i).Some?
    ensures PlainOpenAt(s, i, prefix) && PlainStart(s, i) == Some(i + |prefix| + 1)
  {
    if s[i] == '"' {
      assert s[i..i + 1] == "" + "\"";
      return "";
    }
    prefix := if s[i] == 'b' then "b" else "c";
    assert s[i..i + 2] == prefix + "\"";
  }

  lemma PlainTextEnds(s: string, i: nat, prefix: string, parts: seq<MaskGrammar.StrItem>)
    requires PlainTextAt(s, i, prefix, parts)
    ensures var from := i + |prefix| + 1;
      && from <= |s| && StringEnd(s, from) == Some(from + MaskGrammar.StrLen(parts))
      && s[from..from + MaskGrammar.StrLen(parts)] == Written(parts)
  {
    hide StringEnd, MaskGrammar.StrAt, MaskGrammar.StrLen, Written;
    var from := i + |prefix| + 1;
    PassStr(s, from, parts);
    WrittenIsThere(s, from, parts);
    QuoteEnds(s, from + MaskGrammar.StrLen(parts));
  }

  lemma EndIsPlainText(s: string, i: nat, prefix: string) returns (parts: seq<MaskGrammar.StrItem>)
    requires PlainOpenAt(s, i, prefix) && StringEnd(s, i + |prefix| + 1).Some?
    ensures PlainTextAt(s, i, prefix, parts)
  {
    var from := i + |prefix| + 1;
    parts := BuildStr(s, from);
    MaskGrammar.QuoteIsAt(s, StringEnd(s, from).value);
  }

  lemma RawTextEnds(s: string, i: nat, prefix: string, n: nat, body: string)
    requires RawTextAt(s, i, prefix, n, body)
    ensures var from := i + |MaskGrammar.RawOpen(prefix, n)|;
      && Mask.RawStart(s, i) == Some((n, from)) && s[from..from + |body|] == body
      && Find(s, MaskGrammar.RawClose(n), from) == Some(from + |body|)
  {
    hide Find;
    MaskGrammar.RawOpenStarts(s, i, prefix, n);
  }

  lemma EndIsRawText(s: string, i: nat, prefix: string, n: nat) returns (body: string)
    requires MaskGrammar.RawOpenAt(s, i, prefix, n)
    requires Find(s, MaskGrammar.RawClose(n), i + |MaskGrammar.RawOpen(prefix, n)|).Some?
    ensures RawTextAt(s, i, prefix, n, body)
  {
    hide Find;
    var from := i + |MaskGrammar.RawOpen(prefix, n)|;
    body := s[from..Find(s, MaskGrammar.RawClose(n), from).value];
  }

  // ---- Characters, lifetimes, names, numbers and marks -------------------------------

  lemma CharTextNewlines(t: string)
    requires MaskGrammar.IsCharText(t)
    ensures '\n' in t <==> (|t| == 3 && t[1] == '\n') || (|t| == 4 && t[2] == '\n')
  {
    if |t| == 6 {
      assert t[0] == t[..3][0] && t[1] == t[..3][1] && t[2] == t[..3][2];
    } else if |t| >= 7 {
      assert t[0] == t[..4][0] && t[1] == t[..4][1] && t[2] == t[..4][2] && t[3] == t[..4][3];
    }
  }

  lemma QuotedIsCharLiteral(s: string, q: nat)
    ensures var c := Mask.CharLiteral(s, q);
      Quoted(s, q) == if c.Some? && '\n' !in s[q..c.value] then c else None
  {
    hide Mask.HexRun, MaskGrammar.IsCharText;
    if q < |s| {
      assert s[q..q + 1] == [s[q]];
    }
    if q + 2 < |s| {
      assert s[q + 2..q + 3] == [s[q + 2]];
    }
    var c := Mask.CharLiteral(s, q);
    if c.Some? {
      var t := s[q..c.value];
      MaskGrammar.FoundIsCharText(s, q);
      CharTextNewlines(t);
      assert t[1] == s[q + 1] && t[2] == s[q + 2];
      MarkedEscape(s, q + 2);
    }
  }

  lemma MarkedEscape(s: string, i: nat)
    requires i < |s|
    ensures s[i] != 'u' ==> !Mask.At(s, i, "u{")
  {
    if s[i] != 'u' {
      MaskGrammar.NotAt(s, i, "u{", 0);
    }
  }

  lemma CharLitEnds(s: string, i: nat, t: string)
    requires IsCharLit(t) && Mask.At(s, i, t)
    ensures i < |s| && CharEnd(s, i) == Some(i + |t|)
    ensures Mask.RawStart(s, i).None? && PlainStart(s, i).None? && s[i] in {'b', '\''}
  {
    hide Quoted, Mask.At, Mask.RawStart, PlainStart;
    if t != "" && t[0] == 'b' {
      AtTail(s, i, t, 1);
      CharTextIsQuoted(s, i + 1, t[1..]);
    } else {
      CharTextIsQuoted(s, i, t);
    }
    FirstChar(s, i, t);
    QuoteOpensNoString(s, i);
  }

  lemma AtTail(s: string, i: nat, t: string, k: nat)
    requires Mask.At(s, i, t) && k <= |t|
    ensures Mask.At(s, i + k, t[k..])
  {
    assert s[i..i + |t|][k..] == s[i + k..i + |t|];
  }

  lemma CharTextIsQuoted(s: string, q: nat, u: string)
    requires MaskGrammar.IsCharText(u) && '\n' !in u && Mask.At(s, q, u)
    ensures q < |s| && s[q] == '\'' && Quoted(s, q) == Some(q + |u|)
  {
    hide Quoted, Mask.CharLiteral, MaskGrammar.IsCharText;
    MaskGrammar.CharTextIsFound(s, q, u);
    QuotedIsCharLiteral(s, q);
  }

  lemma QuoteOpensNoString(s: string, i: nat)
    requires i < |s| && (s[i] == '\'' || (s[i] == 'b' && i + 1 < |s| && s[i + 1] == '\''))
    ensures Mask.RawStart(s, i).None? && PlainStart(s, i).None?
  {
    hide Mask.HashRun;
  }

  lemma EndIsCharLit(s: string, i: nat)
    requires i < |s| && CharEnd(s, i).Some?
    ensures IsCharLit(s[i..CharEnd(s, i).value])
  {
    hide Quoted, Mask.CharLiteral, MaskGrammar.IsCharText;
    var q := if s[i] == 'b' then i + 1 else i;
    QuotedIsCharLiteral(s, q);
    MaskGrammar.FoundIsCharText(s, q);
    var e := CharEnd(s, i).value;
    assert s[i] == 'b' ==> s[i..e][1..] == s[q..e];
  }

  lemma RunIsLongest(s: string, i: nat, t: string)
    requires AllNameChars(t) && Mask.At(s, i, t)
    ensures i + |t| <= RunEnd(s, i)
  {
    hide RunEnd;
    MaskGrammar.CharsOf(s, i, t);
    forall k | i <= k < i + |t|
      ensures IsNameChar(s[k])
    {
      assert s[i + (k - i)] == t[k - i];
    }
  }

  lemma NameBody(t: string)
    requires IsName(t)
    ensures AllNameChars(if "r#" <= t then t[2..] else t)
  {
  }

  lemma NameIsLongest(s: string, i: nat, t: string)
    requires IsName(t) && Mask.At(s, i, t)
    ensures i < |s| && NameEnd(s, i).Some? && i + |t| <= NameEnd(s, i).value
  {
    hide RunEnd;
    FirstChar(s, i, t);
    if "r#" <= t {
      var u := t[2..];
      assert s[i..i + |t|][..2] == s[i..i + 2];
      assert s[i + 2..i + |t|] == u by {
        assert s[i..i + |t|][2..] == u;
      }
      FirstChar(s, i + 2, u);
      NameBody(t);
      RunIsLongest(s, i + 2, u);
    } else {
      NameBody(t);
      RunIsLongest(s, i, t);
      if Mask.At(s, i, "r#") {
        FirstChar(s, i, "r#");
      }
    }
  }

  lemma LifetimeIsLongest(s: string, i: nat, t: string)
    requires IsLifetime(t) && Mask.At(s, i, t)
    ensures i < |s| && LifetimeEnd(s, i).Some? && i + |t| <= LifetimeEnd(s, i).value
  {
    hide RunEnd;
    FirstChar(s, i, t);
    assert s[i + 1..i + |t|] == t[1..] by {
      assert s[i..i + |t|][1..] == t[1..];
    }
    RunIsLongest(s, i + 1, t[1..]);
  }

  lemma EndIsLifetime(s: string, i: nat)
    requires i < |s| && LifetimeEnd(s, i).Some?
    ensures IsLifetime(s[i..LifetimeEnd(s, i).value])
  {
    hide RunEnd;
    var e := LifetimeEnd(s, i).value;
    assert e > i + 1;
    assert s[i..e][1..] == s[i + 1..e];
  }

  lemma MarkIsLongest(s: string, i: nat, t: string)
    requires IsMark(t) && Mask.At(s, i, t)
    ensures i < |s| && i + |t| <= PunctEnd(s, i)
  {
  }

  lemma EndIsMark(s: string, i: nat)
    requires i < |s|
    ensures IsMark(s[i..PunctEnd(s, i)])
  {
  }

  function WordEnd(s: string, i: nat, word: Word): (e: Option<nat>)
    requires i < |s|
    ensures e.Some? ==> i < e.value <= |s|
  {
    match word
    case ACharLit => CharEnd(s, i)
    case ALifetime => LifetimeEnd(s, i)
    case AName => NameEnd(s, i)
    case ANumber => if IsDigit(s[i]) then Some(RunEnd(s, i)) else None
    case AMark => Some(PunctEnd(s, i))
  }

  lemma WordIsWithin(s: string, i: nat, word: Word, t: string)
    requires WordAt(s, i, word, t)
    ensures i < |s| && WordEnd(s, i, word).Some? && i + |t| <= WordEnd(s, i, word).value
    ensures word.ACharLit? ==> WordEnd(s, i, word) == Some(i + |t|)
  {
    hide RunEnd, CharEnd, LifetimeEnd, NameEnd, PunctEnd, IsCharLit, IsName, Mask.RawStart, Mask.At;
    match word
    case ACharLit => CharLitEnds(s, i, t);
    case ALifetime => LifetimeIsLongest(s, i, t);
    case AName => NameIsLongest(s, i, t);
    case ANumber =>
      FirstChar(s, i, t);
      RunIsLongest(s, i, t);
    case AMark => MarkIsLongest(s, i, t);
  }

  lemma EndIsWord(s: string, i: nat, word: Word)
    requires i < |s| && WordEnd(s, i, word).Some?
    ensures WordAt(s, i, word, s[i..WordEnd(s, i, word).value])
  {
    hide RunEnd, CharEnd, LifetimeEnd, NameEnd, PunctEnd, IsCharLit, IsName, IsLifetime, IsMark;
    match word
    case ACharLit => EndIsCharLit(s, i);
    case ALifetime => EndIsLifetime(s, i);
    case AName =>
    case ANumber =>
    case AMark => EndIsMark(s, i);
  }

  /** A word stands where the lexer finds an end for it, and its end is that of the longest. */
  lemma WordsEnd(s: string, i: nat, word: Word)
    requires i < |s|
    ensures HasWord(s, i, word) <==> WordEnd(s, i, word).Some?
    ensures WordEnd(s, i, word).Some? ==> Longest(s, i, word, s[i..WordEnd(s, i, word).value])
  {
    hide WordEnd, WordAt;
    if WordEnd(s, i, word).Some? {
      EndIsWord(s, i, word);
    }
    forall t | WordAt(s, i, word, t)
      ensures WordEnd(s, i, word).Some? && i + |t| <= WordEnd(s, i, word).value
    {
      WordIsWithin(s, i, word, t);
    }
  }

  lemma LongestEnds(s: string, i: nat, word: Word, t: string)
    requires Longest(s, i, word, t)
    ensures i < |s| && t != "" && WordEnd(s, i, word) == Some(i + |t|) && s[i..i + |t|] == t
  {
    hide WordEnd, WordAt;
    WordIsWithin(s, i, word, t);
    WordsEnd(s, i, word);
    WordIsText(s, i, word, t);
  }

  lemma WordIsText(s: string, i: nat, word: Word, t: string)
    requires WordAt(s, i, word, t)
    ensures i + |t| <= |s| && s[i..i + |t|] == t
  {
    hide IsCharLit, IsLifetime, IsName, IsNumber, IsMark;
  }

  lemma StringsOpen(s: string, i: nat)
    requires i < |s|
    ensures OpensString(s, i) <==> Mask.RawStart(s, i).Some? || PlainStart(s, i).Some?
  {
    hide Mask.RawStart, PlainStart, PlainOpenAt, MaskGrammar.RawOpenAt;
    if prefix, n :| MaskGrammar.RawOpenAt(s, i, prefix, n) {
      MaskGrammar.RawOpenStarts(s, i, prefix, n);
    } else if prefix :| PlainOpenAt(s, i, prefix) {
      PlainOpenStarts(s, i, prefix);
    } else if Mask.RawStart(s, i).Some? {
      var prefix, n := MaskGrammar.StartIsRawOpen(s, i);
    } else if PlainStart(s, i).Some? {
      var prefix := StartIsPlainOpen(s, i);
    }
  }

  // ---- One turn of the lexer is one piece --------------------------------------------

  /** The lexer's own order of trying, past comments and raw strings. */
  lemma TurnsPlain(s: string, i: nat)
    requires i < |s| && !IsSpace(s[i]) && !Mask.At(s, i, "//") && !Mask.At(s, i, "/*") && Mask.RawStart(s, i).None?
    ensures Step(s, i) == PlainStep(s, i)
  {
    hide PlainStep, IsSpace, LineEnd, BlockEnd, Find, Mask.At, Mask.RawStart;
  }

  lemma TurnsWord(s: string, i: nat, word: Word, e: nat)
    requires i < |s| && PlainStart(s, i).None? && WordEnd(s, i, word) == Some(e)
    requires forall w | Before(w, word) :: WordEnd(s, i, w).None?
    ensures PlainStep(s, i) == Ok(Stride(Some(Tok(KindOf(word), s[i..e])), e))
  {
    hide PlainStart, CharEnd, LifetimeEnd, NameEnd, RunEnd, PunctEnd;
    assert word != ACharLit ==> WordEnd(s, i, ACharLit).None?;
    assert word.AName? || word.ANumber? || word.AMark? ==> WordEnd(s, i, ALifetime).None?;
    assert word.ANumber? || word.AMark? ==> WordEnd(s, i, AName).None?;
    assert word.AMark? ==> WordEnd(s, i, ANumber).None?;
  }

  ghost predicate Before(w: Word, word: Word) {
    match word
    case ACharLit => false
    case ALifetime => w.ACharLit?
    case AName => w.ACharLit? || w.ALifetime?
    case ANumber => w.ACharLit? || w.ALifetime? || w.AName?
    case AMark => !w.AMark?
  }

  function KindOf(word: Word): Kind {
    match word
    case AName => Ident
    case AMark => Punct
    case _ => Lit
  }

  lemma NoSpace(c: char)
    requires IsNameChar(c) || c == '"' || c == '\''
    ensures !IsSpace(c) && c != '/'
  {
  }

  lemma DigitOpens(s: string, i: nat)
    requires i < |s| && IsDigit(s[i])
    ensures Mask.RawStart(s, i).None? && PlainStart(s, i).None?
    ensures forall w | Before(w, ANumber) :: WordEnd(s, i, w).None?
  {
    hide Mask.HashRun, RunEnd;
    if Mask.At(s, i, "r#") {
      FirstChar(s, i, "r#");
    }
  }

  lemma WhiteStep(s: string, i: nat, c: char)
    requires PieceAt(s, i, White(c))
    ensures Step(s, i) == Ok(Stride(None, i + 1))
  {
    hide LineEnd, BlockEnd, PlainStep, Find, Mask.RawStart, Mask.At;
  }

  lemma NoteStep(s: string, i: nat, text: string)
    requires PieceAt(s, i, Note(text))
    ensures i < |s| && Step(s, i) == Ok(Stride(None, i + 2 + |text|))
  {
    hide LineEnd, BlockEnd, PlainStep, Find, Mask.RawStart;
    var e := i + 2 + |text|;
    FirstChar(s, i, "//");
    MaskGrammar.CharsOf(s, i + 2, text);
    forall k | i + 2 <= k < e
      ensures s[k] != '\n'
    {
      assert s[i + 2 + (k - i - 2)] == text[k - i - 2];
    }
    if e < |s| {
      FirstChar(s, e, "\n");
    }
    LineEndIs(s, i + 2, e);
  }

  lemma CommentTurns(s: string, i: nat)
    requires Mask.At(s, i, "/*")
    ensures i < |s| && Step(s, i) == match BlockEnd(s, i + 2, 1) case None => Err(OpenComment) case Some(e) => Ok(Stride(None, e))
  {
    hide BlockEnd, LineEnd, PlainStep, Find, Mask.RawStart;
    FirstChar(s, i, "/*");
    MaskGrammar.NotAt(s, i, "//", 1);
  }

  lemma RawTurns(s: string, i: nat, n: nat, from: nat)
    requires i < |s| && Mask.RawStart(s, i) == Some((n, from))
    ensures Step(s, i) == match Find(s, MaskGrammar.RawClose(n), from)
                          case None => Err(OpenRawString)
                          case Some(e) => Ok(Stride(Some(Tok(Str, s[from..e])), e + |MaskGrammar.RawClose(n)|))
  {
    hide Find, PlainStep, IsSpace, LineEnd, BlockEnd, Mask.RawStart, Mask.At, Mask.Hashes;
    RawIsTried(s, i);
  }

  lemma RawIsTried(s: string, i: nat)
    requires i < |s| && Mask.RawStart(s, i).Some?
    ensures !IsSpace(s[i]) && !Mask.At(s, i, "//") && !Mask.At(s, i, "/*")
  {
    hide IsSpace, Mask.RawStart, Mask.At;
    RawOpensWithALetter(s, i);
    NoSpace(s[i]);
    NoComment(s, i);
  }

  lemma RawOpensWithALetter(s: string, i: nat)
    requires i < |s| && Mask.RawStart(s, i).Some?
    ensures s[i] in {'r', 'b', 'c'}
  {
    hide Mask.HashRun;
  }

  lemma PlainOpensNoRaw(s: string, i: nat)
    requires i < |s| && PlainStart(s, i).Some?
    ensures Mask.RawStart(s, i).None? && (IsNameChar(s[i]) || s[i] == '"')
  {
    hide Mask.HashRun;
  }

  lemma PlainTurns(s: string, i: nat)
    requires i < |s| && PlainStart(s, i).Some?
    ensures var from := PlainStart(s, i).value;
      Step(s, i) == match StringEnd(s, from)
                    case None => Err(OpenString)
                    case Some(e) => Ok(Stride(Some(Tok(Str, s[from..e])), e + 1))
  {
    hide StringEnd, Step, PlainStart, IsSpace, IsNameChar, CharEnd, LifetimeEnd, NameEnd, RunEnd, PunctEnd, Mask.RawStart, Mask.At;
    PlainOpensNoRaw(s, i);
    NoSpace(s[i]);
    NoComment(s, i);
    TurnsPlain(s, i);
  }

  lemma CharLitStep(s: string, i: nat, t: string)
    requires WordAt(s, i, ACharLit, t)
    ensures i < |s| && t != "" && Step(s, i) == Ok(Stride(Some(Tok(Lit, t)), i + |t|))
  {
    hide WordEnd, Step, PlainStep, PlainStart, IsSpace, Mask.RawStart, IsCharLit, CharEnd, Mask.At;
    WordIsWithin(s, i, ACharLit, t);
    CharLitEnds(s, i, t);
    NoSpace(s[i]);
    NoComment(s, i);
    TurnsPlain(s, i);
    TurnsWord(s, i, ACharLit, i + |t|);
    AtIs(s, i, t);
  }

  lemma AtIs(s: string, i: nat, t: string)
    requires Mask.At(s, i, t)
    ensures i + |t| <= |s| && s[i..i + |t|] == t
  {
  }

  lemma NumberOpens(s: string, i: nat)
    requires i < |s| && WordEnd(s, i, ANumber).Some?
    ensures IsDigit(s[i])
  {
  }

  lemma NumberStep(s: string, i: nat, t: string)
    requires Longest(s, i, ANumber, t)
    ensures i < |s| && t != "" && Step(s, i) == Ok(Stride(Some(Tok(Lit, t)), i + |t|))
  {
    hide Longest, WordEnd, Before, Step, PlainStep, PlainStart, IsSpace, RunEnd, Mask.At, Mask.RawStart;
    LongestEnds(s, i, ANumber, t);
    NumberOpens(s, i);
    DigitOpens(s, i);
    NoSpace(s[i]);
    NoComment(s, i);
    TurnsPlain(s, i);
    TurnsWord(s, i, ANumber, i + |t|);
  }

  lemma LifetimeStep(s: string, i: nat, t: string)
    requires Longest(s, i, ALifetime, t) && !HasWord(s, i, ACharLit)
    ensures i < |s| && t != "" && Step(s, i) == Ok(Stride(Some(Tok(Lit, t)), i + |t|))
  {
    hide Longest, HasWord, Step, PlainStep, RunEnd, CharEnd, Mask.At;
    LongestEnds(s, i, ALifetime, t);
    WordsEnd(s, i, ACharLit);
    NoComment(s, i);
    TurnsPlain(s, i);
    TurnsWord(s, i, ALifetime, i + |t|);
  }

  lemma NameOpens(s: string, i: nat)
    requires i < |s| && NameEnd(s, i).Some?
    ensures IsNameStart(s[i])
  {
    hide RunEnd;
    if Mask.At(s, i, "r#") {
      FirstChar(s, i, "r#");
    }
  }

  lemma NameStep(s: string, i: nat, t: string)
    requires Longest(s, i, AName, t) && !OpensString(s, i) && !HasWord(s, i, ACharLit)
    ensures i < |s| && t != "" && Step(s, i) == Ok(Stride(Some(Tok(Ident, t)), i + |t|))
  {
    hide Longest, HasWord, IsSpace, Step, PlainStep, NameEnd, RunEnd, CharEnd, Mask.At, Mask.RawStart, PlainStart, OpensString;
    LongestEnds(s, i, AName, t);
    NameOpens(s, i);
    NoSpace(s[i]);
    WordsEnd(s, i, ACharLit);
    StringsOpen(s, i);
    NoComment(s, i);
    TurnsPlain(s, i);
    TurnsWord(s, i, AName, i + |t|);
  }

  lemma MarkStep(s: string, i: nat, t: string)
    requires i < |s| && !IsSpace(s[i]) && !Mask.At(s, i, "//") && !Mask.At(s, i, "/*") && !OpensString(s, i)
    requires Longest(s, i, AMark, t) && forall word | word != AMark :: !HasWord(s, i, word)
    ensures t != "" && Step(s, i) == Ok(Stride(Some(Tok(Punct, t)), i + |t|))
  {
    hide Longest, HasWord, IsSpace, Step, PlainStep, WordEnd, Mask.At, Mask.RawStart, PlainStart, OpensString;
    LongestEnds(s, i, AMark, t);
    forall w | Before(w, AMark)
      ensures WordEnd(s, i, w).None?
    {
      WordsEnd(s, i, w);
    }
    StringsOpen(s, i);
    TurnsPlain(s, i);
    TurnsWord(s, i, AMark, i + |t|);
  }

  lemma CommentStep(s: string, i: nat, items: seq<MaskGrammar.Item>)
    requires CommentAt(s, i, items)
    ensures i < |s| && Step(s, i) == Ok(Stride(None, i + 4 + MaskGrammar.Len(items)))
  {
    CommentTurns(s, i);
    CommentEnds(s, i, items);
  }

  lemma RawTextStep(s: string, i: nat, prefix: string, n: nat, body: string)
    requires RawTextAt(s, i, prefix, n, body)
    ensures i < |s| && Step(s, i) == Ok(Stride(Some(Tok(Str, body)), i + Span(RawText(prefix, n, body))))
  {
    hide Step, Find, Mask.RawStart;
    FirstChar(s, i, MaskGrammar.RawOpen(prefix, n));
    RawTextEnds(s, i, prefix, n, body);
    RawTurns(s, i, n, i + |MaskGrammar.RawOpen(prefix, n)|);
  }

  lemma PlainTextStep(s: string, i: nat, prefix: string, parts: seq<MaskGrammar.StrItem>)
    requires PlainTextAt(s, i, prefix, parts)
    ensures i < |s| && Step(s, i) == Ok(Stride(Some(Tok(Str, Written(parts))), i + Span(PlainText(prefix, parts))))
  {
    hide Step, StringEnd, PlainStart, Mask.RawStart, Mask.At, MaskGrammar.StrAt, MaskGrammar.StrLen, Written;
    PlainOpenStarts(s, i, prefix);
    PlainTextEnds(s, i, prefix, parts);
    PlainTurns(s, i);
  }

  lemma PieceIsStepped(s: string, i: nat, p: Piece)
    requires PieceAt(s, i, p)
    ensures i < |s| && Span(p) > 0 && Step(s, i) == Ok(Stride(TokenOf(p), i + Span(p)))
  {
    hide Step, CommentAt, RawTextAt, PlainTextAt, Longest, HasWord, WordAt, OpensString;
    match p
    case White(c) => WhiteStep(s, i, c);
    case Note(text) => NoteStep(s, i, text);
    case Comment(items) => CommentStep(s, i, items);
    case RawText(prefix, n, body) => RawTextStep(s, i, prefix, n, body);
    case PlainText(prefix, parts) => PlainTextStep(s, i, prefix, parts);
    case CharLit(t) => CharLitStep(s, i, t);
    case Lifetime(t) => LifetimeStep(s, i, t);
    case Name(t) => NameStep(s, i, t);
    case Number(t) => NumberStep(s, i, t);
    case Mark(t) =>
      LongestEnds(s, i, AMark, t);
      MarkStep(s, i, t);
  }

  lemma OpenIsRefused(s: string, i: nat, fault: LexFault)
    requires OpenAt(s, i, fault)
    ensures i < |s| && Step(s, i) == Err(fault)
  {
    hide CommentAt, RawTextAt, PlainTextAt, Step, BlockEnd, StringEnd, Find, Mask.RawStart, PlainStart;
    match fault
    case OpenComment =>
      CommentTurns(s, i);
      if BlockEnd(s, i + 2, 1).Some? {
        var items := EndIsComment(s, i);
      }
    case OpenRawString =>
      var prefix, n :| MaskGrammar.RawOpenAt(s, i, prefix, n);
      FirstChar(s, i, MaskGrammar.RawOpen(prefix, n));
      MaskGrammar.RawOpenStarts(s, i, prefix, n);
      RawTurns(s, i, n, i + |MaskGrammar.RawOpen(prefix, n)|);
      if Find(s, MaskGrammar.RawClose(n), i + |MaskGrammar.RawOpen(prefix, n)|).Some? {
        var body := EndIsRawText(s, i, prefix, n);
      }
    case OpenString =>
      var prefix :| PlainOpenAt(s, i, prefix);
      PlainOpenStarts(s, i, prefix);
      PlainTurns(s, i);
      if StringEnd(s, i + |prefix| + 1).Some? {
        var parts := EndIsPlainText(s, i, prefix);
      }
  }

  /** Wherever the lexer stands there is a piece, or something opened and never closed. */
  lemma PieceOrOpen(s: string, i: nat)
    requires i < |s|
    ensures (exists p :: PieceAt(s, i, p)) || exists fault :: OpenAt(s, i, fault)
  {
    hide CommentAt, RawTextAt, PlainTextAt, Longest, HasWord, WordAt, OpensString, Mask.RawStart, PlainStart, Mask.At;
    if IsSpace(s[i]) {
      assert PieceAt(s, i, White(s[i]));
    } else if Mask.At(s, i, "//") {
      NoteIsThere(s, i);
    } else if Mask.At(s, i, "/*") {
      if items :| CommentAt(s, i, items) {
        assert PieceAt(s, i, Comment(items));
      } else {
        assert OpenAt(s, i, OpenComment);
      }
    } else if prefix, n :| MaskGrammar.RawOpenAt(s, i, prefix, n) {
      if prefix, n, body :| RawTextAt(s, i, prefix, n, body) {
        assert PieceAt(s, i, RawText(prefix, n, body));
      } else {
        assert OpenAt(s, i, OpenRawString);
      }
    } else if prefix :| PlainOpenAt(s, i, prefix) {
      if prefix, parts :| PlainTextAt(s, i, prefix, parts) {
        assert PieceAt(s, i, PlainText(prefix, parts));
      } else {
        assert OpenAt(s, i, OpenString);
      }
    } else {
      OpensNoString(s, i);
      WordIsThere(s, i);
    }
  }

  lemma OpensNoString(s: string, i: nat)
    requires (forall prefix, n :: !MaskGrammar.RawOpenAt(s, i, prefix, n)) && forall prefix :: !PlainOpenAt(s, i, prefix)
    ensures !OpensString(s, i)
  {
  }

  lemma NoteIsThere(s: string, i: nat)
    requires Mask.At(s, i, "//")
    ensures exists p :: PieceAt(s, i, p)
  {
    LineEndStops(s, i + 2);
    var e := LineEnd(s, i + 2);
    var text := s[i + 2..e];
    assert e < |s| ==> s[e..e + 1] == "\n";
    assert PieceAt(s, i, Note(text));
  }

  lemma WordIsThere(s: string, i: nat)
    requires i < |s| && !IsSpace(s[i]) && !Mask.At(s, i, "//") && !Mask.At(s, i, "/*") && !OpensString(s, i)
    ensures exists p :: PieceAt(s, i, p)
  {
    hide Longest, HasWord, WordAt, OpensString, WordEnd, Mask.At;
    forall word: Word
      ensures HasWord(s, i, word) <==> WordEnd(s, i, word).Some?
      ensures WordEnd(s, i, word).Some? ==> Longest(s, i, word, s[i..WordEnd(s, i, word).value])
    {
      WordsEnd(s, i, word);
    }
    if HasWord(s, i, ACharLit) {
      LongestIsAt(s, i, ACharLit, s[i..WordEnd(s, i, ACharLit).value]);
      assert PieceAt(s, i, CharLit(s[i..WordEnd(s, i, ACharLit).value]));
    } else if HasWord(s, i, ALifetime) {
      assert PieceAt(s, i, Lifetime(s[i..WordEnd(s, i, ALifetime).value]));
    } else if HasWord(s, i, AName) {
      assert PieceAt(s, i, Name(s[i..WordEnd(s, i, AName).value]));
    } else if HasWord(s, i, ANumber) {
      assert PieceAt(s, i, Number(s[i..WordEnd(s, i, ANumber).value]));
    } else {
      MarkIsThere(s, i);
    }
  }

  lemma LongestIsAt(s: string, i: nat, word: Word, t: string)
    requires Longest(s, i, word, t)
    ensures WordAt(s, i, word, t)
  {
  }

  lemma MarkIsThere(s: string, i: nat)
    requires i < |s| && !IsSpace(s[i]) && !Mask.At(s, i, "//") && !Mask.At(s, i, "/*") && !OpensString(s, i)
    requires forall word | word != AMark :: !HasWord(s, i, word)
    ensures exists p :: PieceAt(s, i, p)
  {
    WordsEnd(s, i, AMark);
    var t := s[i..PunctEnd(s, i)];
    hide Longest, HasWord, OpensString, Mask.At;
    assert PieceAt(s, i, Mark(t));
  }

  // ---- The two together --------------------------------------------------------------

  lemma DividesUnfold(s: string, i: nat, pieces: seq<Piece>, j: nat)
    requires pieces != [] && Divides(s, i, pieces, j)
    ensures PieceAt(s, i, pieces[0]) && Divides(s, i + Span(pieces[0]), pieces[1..], j)
  {
  }

  lemma {:induction false} DivisionIsRead(s: string, i: nat, pieces: seq<Piece>, j: nat)
    requires Divides(s, i, pieces, j)
    ensures Reads(s, i, TokensOf(pieces), j)
    decreases |pieces|
  {
    hide LexFrom, PieceAt, Step, Reads;
    if pieces == [] {
      ReadsNothing(s, i);
    } else {
      DividesUnfold(s, i, pieces, j);
      hide Divides;
      var p := pieces[0];
      PieceIsStepped(s, i, p);
      ReadsStep(s, i, TokenOf(p), i + Span(p));
      DivisionIsRead(s, i + Span(p), pieces[1..], j);
      ReadsOn(s, i, Listed(TokenOf(p)), i + Span(p), TokensOf(pieces[1..]), j);
    }
  }

  lemma ReadsNothing(s: string, i: nat)
    requires i <= |s|
    ensures Reads(s, i, [], i)
  {
    ThenNothing(LexFrom(s, i));
  }

  /** Every source, from any point, is pieces up to its end or up to something left open. */
  lemma {:induction false} EverySourceDivides(s: string, i: nat) returns (pieces: seq<Piece>, j: nat, fault: Option<LexFault>)
    requires i <= |s|
    ensures Divides(s, i, pieces, j) && if fault.None? then j == |s| else OpenAt(s, j, fault.value)
    decreases |s| - i
  {
    hide PieceAt, OpenAt, Span, Step, TokenOf;
    if i == |s| {
      return [], i, None;
    }
    PieceOrOpen(s, i);
    if p :| PieceAt(s, i, p) {
      PieceIsStepped(s, i, p);
      var rest;
      rest, j, fault := EverySourceDivides(s, i + Span(p));
      pieces := [p] + rest;
      assert pieces[1..] == rest;
    } else {
      var open :| OpenAt(s, i, open);
      return [], i, Some(open);
    }
  }

  lemma DivisionLexes(s: string, pieces: seq<Piece>)
    requires Divides(s, 0, pieces, |s|)
    ensures Lex(s) == Ok(TokensOf(pieces))
  {
    hide Divides;
    DivisionIsRead(s, 0, pieces, |s|);
    assert TokensOf(pieces) + [] == TokensOf(pieces);
  }

  lemma OpenFails(s: string, pieces: seq<Piece>, j: nat, fault: LexFault)
    requires Divides(s, 0, pieces, j) && OpenAt(s, j, fault)
    ensures Lex(s) == Err(fault)
  {
    hide Divides, OpenAt;
    DivisionIsRead(s, 0, pieces, j);
    OpenIsRefused(s, j, fault);
  }

  ghost predicate DividedBefore(s: string, pieces: seq<Piece>, j: nat, fault: LexFault) {
    Divides(s, 0, pieces, j) && OpenAt(s, j, fault)
  }

  /** The lexer's tokens are exactly those of a division of the source into pieces, and it
      fails exactly where pieces lead up to a comment or string that is never closed. */
  lemma LexIsTheDivision(s: string, toks: seq<Tok>, fault: LexFault)
    ensures Lex(s) == Ok(toks) <==> exists pieces :: Divides(s, 0, pieces, |s|) && TokensOf(pieces) == toks
    ensures Lex(s) == Err(fault) <==> exists pieces, j :: DividedBefore(s, pieces, j, fault)
  {
    hide Divides, OpenAt, Lex;
    forall pieces | Divides(s, 0, pieces, |s|)
      ensures Lex(s) == Ok(TokensOf(pieces))
    {
      DivisionLexes(s, pieces);
    }
    forall pieces, j, f | DividedBefore(s, pieces, j, f)
      ensures Lex(s) == Err(f)
    {
      OpenFails(s, pieces, j, f);
    }
    var pieces, j, f := EverySourceDivides(s, 0);
    if f.Some? {
      assert DividedBefore(s, pieces, j, f.value);
    }
  }
}
