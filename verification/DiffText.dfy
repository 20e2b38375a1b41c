/** Unified git diffs as text: the parser of the mutation gate, and a printer to parse back. */
module DiffText {
  import opened Wrappers
  import opened Characters
  import opened HunkMarks

  datatype DiffError =
    | NoGitHeader | BinaryDiff(line: string) | Unnamed(line: string) | BadTarget(line: string)
    | BadHunkHeader(line: string) | HunkWithoutFile(line: string)
    | HunkTooShort | HunkTooLong | NotAHunkLine(line: string)

  // ---- Lines -------------------------------------------------------------------------

  /** `text.split("\n")`, without the empty piece after a final newline. */
  function SplitLines(text: string): seq<string> {
    var pieces := SplitNewlines(text);
    if pieces[|pieces| - 1] == "" then pieces[..|pieces| - 1] else pieces
  }

  function SplitNewlines(text: string): (pieces: seq<string>)
    ensures pieces != []
  {
    if text == "" then [""]
    else
      var rest := SplitNewlines(text[1..]);
      if text[0] == '\n' then [""] + rest else [[text[0]] + rest[0]] + rest[1..]
  }

  function Unlines(lines: seq<string>): string {
    if lines == [] then "" else lines[0] + "\n" + Unlines(lines[1..])
  }

  lemma {:induction false} SplitFirst(line: string, rest: string)
    requires '\n' !in line
    ensures SplitNewlines(line + "\n" + rest) == [line] + SplitNewlines(rest)
  {
    var text := line + "\n" + rest;
    if line == "" {
      assert text == "\n" + rest && text[1..] == rest;
    } else {
      SplitFirst(line[1..], rest);
      assert text[1..] == line[1..] + "\n" + rest;
      assert [text[0]] + line[1..] == line;
    }
  }

  lemma {:induction false} SplitUnlines(lines: seq<string>)
    requires forall l | l in lines :: '\n' !in l
    ensures SplitNewlines(Unlines(lines)) == lines + [""]
  {
    if lines != [] {
      SplitUnlines(lines[1..]);
      SplitFirst(lines[0], Unlines(lines[1..]));
    }
  }

  lemma LinesRoundTrip(lines: seq<string>)
    requires forall l | l in lines :: '\n' !in l
    ensures SplitLines(Unlines(lines)) == lines
  {
    SplitUnlines(lines);
    assert (lines + [""])[..|lines|] == lines;
  }

  lemma {:induction false} SplitTail(lines: seq<string>, last: string)
    requires (forall l | l in lines :: '\n' !in l) && '\n' !in last
    ensures SplitNewlines(Unlines(lines) + last) == lines + [last]
  {
    if lines == [] {
      assert Unlines(lines) + last == last;
      SplitNone(last);
    } else {
      SplitTail(lines[1..], last);
      var rest := Unlines(lines[1..]) + last;
      SplitFirst(lines[0], rest);
      assert Unlines(lines) + last == lines[0] + "\n" + rest;
      assert lines == [lines[0]] + lines[1..];
    }
  }

  lemma {:induction false} SplitNone(line: string)
    requires '\n' !in line
    ensures SplitNewlines(line) == [line]
  {
    if line != "" {
      SplitNone(line[1..]);
      assert [line[0]] + line[1..] == line;
    }
  }

  /** A last line without its newline is a line all the same. */
  lemma UnfinishedLineIsKept(lines: seq<string>, last: string)
    requires (forall l | l in lines :: '\n' !in l) && '\n' !in last && last != ""
    ensures SplitLines(Unlines(lines) + last) == lines + [last]
  {
    SplitTail(lines, last);
  }

  // ---- Numbers -----------------------------------------------------------------------

  function DigitRun(s: string): (n: nat)
    ensures n <= |s| && forall i | 0 <= i < n :: IsDigit(s[i])
    ensures n < |s| ==> !IsDigit(s[n])
  {
    if s == "" || !IsDigit(s[0]) then 0 else 1 + DigitRun(s[1..])
  }

  function DigitValue(c: char): nat
    requires IsDigit(c)
  {
    c as int - '0' as int
  }

  function Value(digits: string): nat
    requires forall i | 0 <= i < |digits| :: IsDigit(digits[i])
  {
    if digits == "" then 0
    else 10 * Value(digits[..|digits| - 1]) + DigitValue(digits[|digits| - 1])
  }

  /** The leading number of `s` and what follows it. */
  function Number(s: string): Option<(nat, string)> {
    var n := DigitRun(s);
    if n == 0 then None else Some((Value(s[..n]), s[n..]))
  }

  function Decimal(n: nat): (s: string)
    ensures s != "" && forall i | 0 <= i < |s| :: IsDigit(s[i])
    ensures Value(s) == n
  {
    var last := ('0' as int + n % 10) as char;
    if n < 10 then assert [last][..0] == ""; [last]
    else
      var s := Decimal(n / 10) + [last];
      assert s[..|s| - 1] == Decimal(n / 10);
      s
  }

  lemma {:induction false} DigitRunStops(digits: string, rest: string)
    requires forall i | 0 <= i < |digits| :: IsDigit(digits[i])
    requires rest != "" ==> !IsDigit(rest[0])
    ensures DigitRun(digits + rest) == |digits|
  {
    if digits == "" {
      assert digits + rest == rest;
    } else {
      assert (digits + rest)[1..] == digits[1..] + rest;
      DigitRunStops(digits[1..], rest);
    }
  }

  lemma NumberReadsDecimal(n: nat, rest: string)
    requires rest != "" ==> !IsDigit(rest[0])
    ensures Number(Decimal(n) + rest) == Some((n, rest))
  {
    DigitRunStops(Decimal(n), rest);
    assert (Decimal(n) + rest)[..|Decimal(n)|] == Decimal(n);
  }

  // ---- Hunk headers ------------------------------------------------------------------

  datatype Header = Header(olds: nat, start: nat, news: nat)

  function After(s: string, prefix: string): Option<string> {
    if StartsWith(s, prefix) then Some(s[|prefix|..]) else None
  }

  /** A start and an optional count, which defaults to one. */
  function Range(s: string): Option<(nat, nat, string)> {
    match Number(s)
    case None => None
    case Some((start, rest)) =>
      match After(rest, ",")
      case None => Some((start, 1, rest))
      case Some(more) =>
        match Number(more)
        case None => None
        case Some((count, rest')) => Some((start, count, rest'))
  }

  function ParseHeader(line: string): Option<Header> {
    match After(line, "@@ -")
    case None => None
    case Some(s) =>
      match Range(s)
      case None => None
      case Some((_, olds, s1)) =>
        match After(s1, " +")
        case None => None
        case Some(s2) =>
          match Range(s2)
          case None => None
          case Some((start, news, s3)) => if StartsWith(s3, " @@") then Some(Header(olds, start, news)) else None
  }

  function PrintRange(start: nat, count: nat, brief: bool): string {
    if brief && count == 1 then Decimal(start) else Decimal(start) + "," + Decimal(count)
  }

  function PrintHeader(oldStart: nat, h: Header, brief: bool, tail: string): string {
    "@@ -" + (PrintRange(oldStart, h.olds, brief) + (" +" + (PrintRange(h.start, h.news, brief) + (" @@" + tail))))
  }

  lemma AfterItself(prefix: string, rest: string)
    ensures After(prefix + rest, prefix) == Some(rest)
  {
    assert (prefix + rest)[..|prefix|] == prefix;
  }

  lemma RangeRoundTrip(start: nat, count: nat, brief: bool, rest: string)
    requires rest != "" && !IsDigit(rest[0]) && rest[0] != ','
    ensures Range(PrintRange(start, count, brief) + rest) == Some((start, count, rest))
  {
    if brief && count == 1 {
      NumberReadsDecimal(start, rest);
      assert After(rest, ",") == None;
    } else {
      var more := Decimal(count) + rest;
      Append3(Decimal(start), ",", Decimal(count), rest);
      NumberReadsDecimal(start, "," + more);
      NumberReadsDecimal(count, rest);
      AfterItself(",", more);
    }
  }

  lemma Append3(a: string, b: string, c: string, d: string)
    ensures a + b + c + d == a + (b + (c + d))
  {
  }

  lemma HeaderRoundTrip(oldStart: nat, h: Header, brief: bool, tail: string)
    ensures ParseHeader(PrintHeader(oldStart, h, brief, tail)) == Some(h)
  {
    var s3 := " @@" + tail;
    var s2 := PrintRange(h.start, h.news, brief) + s3;
    var s1 := " +" + s2;
    AfterItself("@@ -", PrintRange(oldStart, h.olds, brief) + s1);
    RangeRoundTrip(oldStart, h.olds, brief, s1);
    AfterItself(" +", s2);
    RangeRoundTrip(h.start, h.news, brief, s3);
  }

  ghost predicate Digits(s: string) {
    s != "" && forall i | 0 <= i < |s| :: IsDigit(s[i])
  }

  ghost predicate RangeText(s: string, start: nat, count: nat) {
    || (Digits(s) && Value(s) == start && count == 1)
    || exists a, b :: Digits(a) && Digits(b) && s == a + ("," + b) && Value(a) == start && Value(b) == count
  }

  /** The shape of a hunk header: two ranges between its marks, and anything after. */
  ghost predicate HeaderText(line: string, h: Header) {
    exists a, b, tail, oldStart: nat ::
      && RangeText(a, oldStart, h.olds) && RangeText(b, h.start, h.news)
      && line == "@@ -" + (a + (" +" + (b + (" @@" + tail))))
  }

  lemma NumberReadsDigits(digits: string, rest: string)
    requires Digits(digits) && (rest != "" ==> !IsDigit(rest[0]))
    ensures Number(digits + rest) == Some((Value(digits), rest))
  {
    DigitRunStops(digits, rest);
    assert (digits + rest)[..|digits|] == digits;
  }

  lemma RangeReadsText(s: string, start: nat, count: nat, rest: string)
    requires RangeText(s, start, count) && rest != "" && !IsDigit(rest[0]) && rest[0] != ','
    ensures Range(s + rest) == Some((start, count, rest))
  {
    hide Value;
    if Digits(s) && Value(s) == start && count == 1 {
      NumberReadsDigits(s, rest);
      assert After(rest, ",") == None;
    } else {
      var a, b :| Digits(a) && Digits(b) && s == a + ("," + b) && Value(a) == start && Value(b) == count;
      assert s + rest == a + ("," + (b + rest));
      NumberReadsDigits(a, "," + (b + rest));
      NumberReadsDigits(b, rest);
      AfterItself(",", b + rest);
    }
  }

  lemma NumberIsText(s: string)
    requires Number(s).Some?
    ensures var n := DigitRun(s); Digits(s[..n]) && Number(s).value == (Value(s[..n]), s[n..]) && s == s[..n] + s[n..]
  {
  }

  lemma RangeIsText(s: string) returns (text: string)
    requires Range(s).Some?
    ensures RangeText(text, Range(s).value.0, Range(s).value.1) && s == text + Range(s).value.2
  {
    hide Value, DigitRun;
    NumberIsText(s);
    var n := DigitRun(s);
    var a, rest := s[..n], s[n..];
    if After(rest, ",").None? {
      text := a;
    } else {
      var more := After(rest, ",").value;
      NumberIsText(more);
      var m := DigitRun(more);
      var b := more[..m];
      text := a + ("," + b);
      assert rest == "," + more;
      assert s == text + more[m..];
    }
  }

  lemma HeaderTextIsParsed(line: string, h: Header)
    requires HeaderText(line, h)
    ensures ParseHeader(line) == Some(h)
  {
    hide RangeText, Range;
    var a, b, tail, oldStart: nat :|
      && RangeText(a, oldStart, h.olds) && RangeText(b, h.start, h.news)
      && line == "@@ -" + (a + (" +" + (b + (" @@" + tail))));
    var s3 := " @@" + tail;
    var s2 := b + s3;
    var s1 := " +" + s2;
    AfterItself("@@ -", a + s1);
    RangeReadsText(a, oldStart, h.olds, s1);
    AfterItself(" +", s2);
    RangeReadsText(b, h.start, h.news, s3);
  }

  lemma ParsedIsHeaderText(line: string, h: Header)
    requires ParseHeader(line) == Some(h)
    ensures HeaderText(line, h)
  {
    hide RangeText, Range;
    var s := After(line, "@@ -").value;
    var a := RangeIsText(s);
    var s1 := Range(s).value.2;
    var s2 := After(s1, " +").value;
    var b := RangeIsText(s2);
    var s3 := Range(s2).value.2;
    var tail := s3[3..];
    WasAfter(line, "@@ -");
    WasAfter(s1, " +");
    WasAfter(s3, " @@");
    assert line == "@@ -" + (a + (" +" + (b + (" @@" + tail))));
  }

  lemma WasAfter(s: string, text: string)
    requires After(s, text).Some?
    ensures s == text + After(s, text).value
  {
  }

  /** A line is a hunk header exactly when it has that shape. */
  lemma HeaderIsItsText(line: string, h: Header)
    ensures ParseHeader(line) == Some(h) <==> HeaderText(line, h)
  {
    if HeaderText(line, h) {
      HeaderTextIsParsed(line, h);
    }
    if ParseHeader(line) == Some(h) {
      ParsedIsHeaderText(line, h);
    }
  }

  lemma NoNewlines(a: string, b: string)
    requires '\n' !in a && '\n' !in b
    ensures '\n' !in a + b
  {
  }

  lemma HeaderIsOneLine(oldStart: nat, h: Header, brief: bool, tail: string)
    requires '\n' !in tail
    ensures '\n' !in PrintHeader(oldStart, h, brief, tail)
  {
    RangeIsOneLine(oldStart, h.olds, brief);
    RangeIsOneLine(h.start, h.news, brief);
    var s3 := " @@" + tail;
    var s2 := PrintRange(h.start, h.news, brief) + s3;
    var s1 := " +" + s2;
    NoNewlines(" @@", tail);
    NoNewlines(PrintRange(h.start, h.news, brief), s3);
    NoNewlines(" +", s2);
    NoNewlines(PrintRange(oldStart, h.olds, brief), s1);
    NoNewlines("@@ -", PrintRange(oldStart, h.olds, brief) + s1);
  }

  lemma RangeIsOneLine(start: nat, count: nat, brief: bool)
    ensures '\n' !in PrintRange(start, count, brief)
  {
    hide Decimal, Value;
    assert '\n' !in Decimal(start) by { DigitsAreOneLine(Decimal(start)); }
    assert '\n' !in Decimal(count) by { DigitsAreOneLine(Decimal(count)); }
  }

  lemma DigitsAreOneLine(s: string)
    requires forall i | 0 <= i < |s| :: IsDigit(s[i])
    ensures '\n' !in s
  {
  }

  // ---- Hunk bodies -------------------------------------------------------------------

  /** The body of a hunk that declares `olds` and `news` lines: its kinds, and how many lines
      it took. An empty line is context; a line starting with a backslash counts for nothing. */
  function ReadHunk(lines: seq<string>, olds: nat, news: nat): (r: Result<(Kinds, nat), DiffError>)
    ensures r.Ok? ==> r.value.1 <= |lines|
    decreases |lines|
  {
    if olds == 0 && news == 0 then Ok(("", 0))
    else if lines == [] then Err(HunkTooShort)
    else
      var kind := if lines[0] == "" then ' ' else lines[0][0];
      var lessOld := if kind == '+' then 0 else 1;
      var lessNew := if kind == '-' then 0 else 1;
      if kind == '\\' then Taking("", ReadHunk(lines[1..], olds, news))
      else if kind !in {' ', '-', '+'} then Err(NotAHunkLine(lines[0]))
      else if olds < lessOld || news < lessNew then Err(HunkTooLong)
      else Taking([kind], ReadHunk(lines[1..], olds - lessOld, news - lessNew))
  }

  function Taking(kinds: Kinds, rest: Result<(Kinds, nat), DiffError>): Result<(Kinds, nat), DiffError> {
    match rest
    case Err(e) => Err(e)
    case Ok((more, n)) => Ok((kinds + more, n + 1))
  }

  // ---- The file sections -------------------------------------------------------------

  datatype Section = Section(line: string, target: Option<string>, rename: Option<string>, deleted: bool)

  type Changed = map<string, set<nat>>

  datatype State = State(
    changed: Changed, paths: set<string>, section: Option<Section>, path: Option<string>, haveHeader: bool)

  const INITIAL := State(map[], {}, None, None, false)

  /** The path of a `diff --git a/P b/P` line. */
  function HeaderPath(line: string): Option<string>
    requires StartsWith(line, "diff --git ")
  {
    var rest := line[11..];
    if |rest| < 7 then None
    else
      var size := (|rest| - 5) / 2;
      var name := rest[2..2 + size];
      if rest == "a/" + name + " b/" + name then Some(name) else None
  }

  function Close(st: State): Result<set<string>, DiffError>
    requires st.section.Some? ==> StartsWith(st.section.value.line, "diff --git ")
  {
    if st.section.None? || st.section.value.deleted then Ok(st.paths)
    else
      var s := st.section.value;
      var name := if s.target.Some? then s.target
                  else if s.rename.Some? && s.rename.value != "" then s.rename
                  else HeaderPath(s.line);
      if name.None? then Err(Unnamed(s.line)) else Ok(st.paths + {name.value})
  }

  predicate IsBinary(line: string) {
    || line == "GIT binary patch"
    || (StartsWith(line, "Binary files ") && EndsWith(line, " differ") && |line| >= 20)
  }

  function TrimTabs(s: string): string {
    if s != "" && s[|s| - 1] == '\t' then TrimTabs(s[..|s| - 1]) else s
  }

  datatype LineKind = Binary | Git | DeletedMode | RenameTo(name: string) | Target(name: string) | HunkStart | Stray | Quiet

  /** Which branch of the parser a line outside a hunk takes. */
  function KindOf(line: string, inSection: bool): LineKind {
    if IsBinary(line) then Binary
    else if StartsWith(line, "diff --git ") then Git
    else if inSection && StartsWith(line, "deleted file mode ") then DeletedMode
    else if inSection && StartsWith(line, "rename to ") then RenameTo(line[10..])
    else if StartsWith(line, "+++ ") then Target(TrimTabs(line[4..]))
    else if StartsWith(line, "@@") then HunkStart
    else if line != "" && line[0] in {' ', '+', '-'} && !StartsWith(line, "--- ") then Stray
    else Quiet
  }

  function SetTarget(st: State, line: string, name: string): Result<State, DiffError> {
    if name == "/dev/null" then
      Ok(st.(path := None, haveHeader := true,
             section := if st.section.Some? then Some(st.section.value.(deleted := true)) else None))
    else if StartsWith(name, "b/") && |name| > 2 then
      Ok(st.(path := Some(name[2..]), haveHeader := true,
             section := if st.section.Some? then Some(st.section.value.(target := Some(name[2..]))) else None))
    else Err(BadTarget(line))
  }

  function AddMarks(changed: Changed, path: Option<string>, marks: set<nat>): Changed {
    if path.Some? && EndsWith(path.value, ".rs")
    then changed[path.value := (if path.value in changed then changed[path.value] else {}) + marks]
    else changed
  }

  ghost predicate Wf(st: State) {
    st.section.Some? ==> StartsWith(st.section.value.line, "diff --git ")
  }

  function ParseHunk(line: string, after: seq<string>, st: State): (r: Result<(State, nat), DiffError>)
    requires Wf(st)
    ensures r.Ok? ==> 0 < r.value.1 <= |after| + 1 && Wf(r.value.0)
  {
    match ParseHeader(line)
    case None => Err(BadHunkHeader(line))
    case Some(h) =>
      if !st.haveHeader then Err(HunkWithoutFile(line))
      else match ReadHunk(after, h.olds, h.news)
        case Err(e) => Err(e)
        case Ok((body, n)) =>
          Ok((st.(changed := AddMarks(st.changed, st.path, Marks(body, 0, FirstLine(h.start, h.news == 0)))), n + 1))
  }

  /** One line outside a hunk, or one whole hunk: the next state and the lines taken. */
  function ParseOne(lines: seq<string>, st: State): (r: Result<(State, nat), DiffError>)
    requires lines != [] && Wf(st)
    ensures r.Ok? ==> 0 < r.value.1 <= |lines| && Wf(r.value.0)
  {
    var line := lines[0];
    match KindOf(line, st.section.Some?)
    case Binary => Err(BinaryDiff(line))
    case Git =>
      (match Close(st)
       case Err(e) => Err(e)
       case Ok(paths) => Ok((State(st.changed, paths, Some(Section(line, None, None, false)), None, false), 1)))
    case DeletedMode => Ok((st.(section := Some(st.section.value.(deleted := true))), 1))
    case RenameTo(name) => Ok((st.(section := Some(st.section.value.(rename := Some(name)))), 1))
    case Target(name) =>
      (match SetTarget(st, line, name)
       case Err(e) => Err(e)
       case Ok(st') => Ok((st', 1)))
    case HunkStart => ParseHunk(line, lines[1..], st)
    case Stray => Err(HunkTooLong)
    case Quiet => Ok((st, 1))
  }

  function ParseLines(lines: seq<string>, st: State): Result<(Changed, set<string>), DiffError>
    requires Wf(st)
    decreases |lines|
  {
    if lines == [] then
      match Close(st)
      case Err(e) => Err(e)
      case Ok(paths) => Ok((st.changed, paths))
    else
      match ParseOne(lines, st)
      case Err(e) => Err(e)
      case Ok((st', n)) => ParseLines(lines[n..], st')
  }

  predicate Blank(line: string, isSpace: char -> bool) {
    forall i | 0 <= i < |line| :: isSpace(line[i])
  }

  /** The parser, for any notion of white space. */
  function Parse(text: string, isSpace: char -> bool): Result<(Changed, set<string>), DiffError> {
    var lines := SplitLines(text);
    if forall i | 0 <= i < |lines| :: Blank(lines[i], isSpace) then Ok((map[], {}))
    else if forall i | 0 <= i < |lines| :: !StartsWith(lines[i], "diff --git ") then Err(NoGitHeader)
    else ParseLines(lines, INITIAL)
  }

  // ---- What each line is, and what is refused ----------------------------------------

  /** A git line names a file exactly when it names it twice. */
  lemma HeaderPathNamesItTwice(line: string, p: string)
    requires StartsWith(line, "diff --git ")
    ensures HeaderPath(line) == Some(p) <==> p != "" && line == "diff --git " + ("a/" + p + " b/" + p)
  {
    var rest := line[11..];
    assert line == "diff --git " + rest;
    if p != "" && line == "diff --git " + ("a/" + p + " b/" + p) {
      assert rest == "a/" + p + " b/" + p && |rest| == 2 * |p| + 5;
      assert rest[2..2 + |p|] == p;
    }
  }

  /** All the tabs at the end go, and nothing else. */
  lemma {:induction false} TrimsEveryTab(s: string) returns (tabs: string)
    ensures s == TrimTabs(s) + tabs && (forall k | 0 <= k < |tabs| :: tabs[k] == '\t')
    ensures TrimTabs(s) == "" || TrimTabs(s)[|TrimTabs(s)| - 1] != '\t'
  {
    if s != "" && s[|s| - 1] == '\t' {
      var more := TrimsEveryTab(s[..|s| - 1]);
      tabs := more + "\t";
      assert s == s[..|s| - 1] + "\t";
    } else {
      tabs := "";
    }
  }

  lemma BinaryLinesAre(line: string)
    ensures IsBinary(line) <==> line == "GIT binary patch" || exists mid :: line == "Binary files " + mid + " differ"
  {
    if StartsWith(line, "Binary files ") && EndsWith(line, " differ") && |line| >= 20 {
      assert line == "Binary files " + line[13..|line| - 7] + " differ";
    }
    if mid :| line == "Binary files " + mid + " differ" {
      assert line[..13] == "Binary files " && line[|line| - 7..] == " differ";
    }
  }

  /** A section has no name exactly when it is not deleted, was given no target, no new name,
      and its git line does not name one file twice. */
  lemma UnnamedSections(st: State)
    requires Wf(st)
    ensures Close(st).Err? <==>
      && st.section.Some? && !st.section.value.deleted && st.section.value.target.None?
      && (st.section.value.rename.None? || st.section.value.rename.value == "")
      && forall p :: p != "" ==> st.section.value.line != "diff --git " + ("a/" + p + " b/" + p)
  {
    if st.section.Some? {
      var line := st.section.value.line;
      if HeaderPath(line).Some? {
        HeaderPathNamesItTwice(line, HeaderPath(line).value);
      }
      forall p | p != "" && line == "diff --git " + ("a/" + p + " b/" + p)
        ensures HeaderPath(line) == Some(p)
      {
        HeaderPathNamesItTwice(line, p);
      }
    }
  }

  /** What ends a parse where it stands: a binary change, a hunk before its file is named or
      without the shape of a header, a target that is neither nothing nor under `b/`, and a
      section that turns out to have no name. */
  lemma RefusedWhereItStands(line: string, rest: seq<string>, st: State)
    requires Wf(st)
    ensures IsBinary(line) ==> ParseLines([line] + rest, st).Err?
    ensures StartsWith(line, "@@") && (!st.haveHeader || forall h :: !HeaderText(line, h)) ==> ParseLines([line] + rest, st).Err?
    ensures StartsWith(line, "+++ ") &&
              (var name := TrimTabs(line[4..]); name != "/dev/null" && !(StartsWith(name, "b/") && |name| > 2)) ==>
              ParseLines([line] + rest, st).Err?
    ensures Close(st).Err? ==> ParseLines([], st).Err? && (StartsWith(line, "diff --git ") ==> ParseLines([line] + rest, st).Err?)
  {
    hide HeaderText, TrimTabs, ReadHunk, AddMarks, Close, ParseHeader;
    var lines := [line] + rest;
    assert lines[0] == line && lines[1..] == rest;
    if ParseHeader(line).Some? {
      HeaderIsItsText(line, ParseHeader(line).value);
    }
    if StartsWith(line, "@@") {
      assert line[0] == "@@"[0];
    }
    if StartsWith(line, "+++ ") {
      assert line[0] == "+++ "[0];
    }
    assert ParseOne(lines, st).Err? ==> ParseLines(lines, st).Err?;
  }

  /** Text of white space alone is no change; any other text without a git line is refused. */
  lemma TextWithoutAGitLine(text: string, isSpace: char -> bool)
    requires forall l | l in SplitLines(text) :: !StartsWith(l, "diff --git ")
    ensures var lines := SplitLines(text);
      if forall l | l in lines :: Blank(l, isSpace) then Parse(text, isSpace) == Ok((map[], {}))
      else Parse(text, isSpace) == Err(NoGitHeader)
  {
    hide SplitLines, ParseLines;
    var lines := SplitLines(text);
    assert (forall l | l in lines :: Blank(l, isSpace)) <==> forall i | 0 <= i < |lines| :: Blank(lines[i], isSpace);
  }
}
