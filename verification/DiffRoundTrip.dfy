/** Printing a list of file changes as a git diff and parsing it back. */
module DiffRoundTrip {
  import opened Wrappers
  import opened Characters
  import opened HunkMarks
  import opened DiffText

  /** A body line of arbitrary text; git writes an empty context line with or without its
      space, and notes such as the missing final newline count for nothing. */
  datatype BodyLine = Context(text: string) | BlankContext | Deleted(text: string) | Added(text: string) | Note(text: string)

  datatype Hunk = Hunk(oldStart: nat, newStart: nat, body: seq<BodyLine>, brief: bool, tail: string)

  datatype FileDiff = FileDiff(
    oldPath: string, newPath: string, extras: seq<string>, renamed: bool, deleted: bool,
    oldTarget: string, tab: bool, hunks: seq<Hunk>)

  function PrintBodyLine(b: BodyLine): string {
    match b
    case Context(t) => " " + t
    case BlankContext => ""
    case Deleted(t) => "-" + t
    case Added(t) => "+" + t
    case Note(t) => "\\" + t
  }

  function KindsOfLine(b: BodyLine): Kinds {
    match b
    case Context(_) => " "
    case BlankContext => " "
    case Deleted(_) => "-"
    case Added(_) => "+"
    case Note(_) => ""
  }

  function KindsOf(body: seq<BodyLine>): Kinds {
    if body == [] then "" else KindsOfLine(body[0]) + KindsOf(body[1..])
  }

  function OldCount(body: seq<BodyLine>): nat {
    if body == [] then 0 else (if body[0].Added? || body[0].Note? then 0 else 1) + OldCount(body[1..])
  }

  function NewCount(body: seq<BodyLine>): nat {
    if body == [] then 0 else (if body[0].Deleted? || body[0].Note? then 0 else 1) + NewCount(body[1..])
  }

  function PrintBody(body: seq<BodyLine>): (lines: seq<string>)
    ensures |lines| == |body|
  {
    if body == [] then [] else [PrintBodyLine(body[0])] + PrintBody(body[1..])
  }

  function HeaderOf(h: Hunk): Header {
    Header(OldCount(h.body), h.newStart, NewCount(h.body))
  }

  function PrintHunk(h: Hunk): seq<string> {
    [PrintHeader(h.oldStart, HeaderOf(h), h.brief, h.tail)] + PrintBody(h.body)
  }

  function PrintHunks(hunks: seq<Hunk>): seq<string> {
    if hunks == [] then [] else PrintHunk(hunks[0]) + PrintHunks(hunks[1..])
  }

  function PrintPreamble(f: FileDiff): seq<string> {
    f.extras
    + (if f.deleted then ["deleted file mode 100644"] else [])
    + (if f.renamed then ["rename from " + f.oldPath, "rename to " + f.newPath] else [])
  }

  function PrintTargets(f: FileDiff): seq<string> {
    if f.hunks == [] then []
    else ["--- " + f.oldTarget,
          "+++ " + (if f.deleted then "/dev/null" else "b/" + f.newPath + (if f.tab then "\t" else ""))]
  }

  function GitLine(f: FileDiff): string {
    "diff --git " + ("a/" + f.oldPath + " b/" + f.newPath)
  }

  function PrintFile(f: FileDiff): seq<string> {
    [GitLine(f)] + (PrintPreamble(f) + (PrintTargets(f) + PrintHunks(f.hunks)))
  }

  function PrintFiles(files: seq<FileDiff>): seq<string> {
    if files == [] then [] else PrintFile(files[0]) + PrintFiles(files[1..])
  }

  /** What git guarantees of an unquoted section: a name that needs no quoting, header lines
      of its own kinds only, and equal names when nothing else names the file. */
  ghost predicate Printable(f: FileDiff) {
    && f.newPath != "" && f.newPath[|f.newPath| - 1] != '\t'
    && (forall l | l in f.extras :: KindOf(l, true) == Quiet)
    && (f.hunks == [] && !f.renamed && !f.deleted ==> f.oldPath == f.newPath)
  }

  ghost predicate OneLineEach(files: seq<FileDiff>) {
    forall l | l in PrintFiles(files) :: '\n' !in l
  }

  // ---- What the diff says ------------------------------------------------------------

  function MarksOf(h: Hunk): set<nat> {
    Marks(KindsOf(h.body), 0, FirstLine(h.newStart, NewCount(h.body) == 0))
  }

  function CollectHunks(changed: Changed, path: Option<string>, hunks: seq<Hunk>): Changed
    decreases |hunks|
  {
    if hunks == [] then changed
    else CollectHunks(AddMarks(changed, path, MarksOf(hunks[0])), path, hunks[1..])
  }

  function CollectFile(changed: Changed, f: FileDiff): Changed {
    CollectHunks(changed, if f.deleted then None else Some(f.newPath), f.hunks)
  }

  function Collect(changed: Changed, files: seq<FileDiff>): Changed
    decreases |files|
  {
    if files == [] then changed else Collect(CollectFile(changed, files[0]), files[1..])
  }

  function NewPaths(files: seq<FileDiff>): set<string> {
    set i | 0 <= i < |files| && !files[i].deleted :: files[i].newPath
  }

  /** Some hunk of a live Rust file at `path` marks line `l`. */
  ghost predicate MarkedIn(files: seq<FileDiff>, path: string, l: nat) {
    exists i, j :: HunkAt(files, path, i, j) && l in MarksOf(files[i].hunks[j])
  }

  ghost predicate HunkAt(files: seq<FileDiff>, path: string, i: int, j: int) {
    && 0 <= i < |files| && 0 <= j < |files[i].hunks|
    && !files[i].deleted && files[i].newPath == path && EndsWith(path, ".rs")
  }

  /** `changed` holds what `before` held and exactly these further marks. */
  ghost predicate Adds(before: Changed, changed: Changed, path: string, has: bool, marks: iset<nat>) {
    && (path in changed <==> path in before || has)
    && (path in changed ==>
          forall l :: l in changed[path] <==> (path in before && l in before[path]) || l in marks)
  }

  ghost predicate MarkedByAny(hunks: seq<Hunk>, l: nat) {
    exists j :: 0 <= j < |hunks| && l in MarksOf(hunks[j])
  }

  lemma {:induction false} CollectHunksAdds(changed: Changed, at: Option<string>, hunks: seq<Hunk>, path: string)
    ensures var here := at == Some(path) && EndsWith(path, ".rs");
      Adds(changed, CollectHunks(changed, at, hunks), path, here && hunks != [],
           iset l | here && MarkedByAny(hunks, l))
    decreases |hunks|
  {
    if hunks != [] {
      var next := AddMarks(changed, at, MarksOf(hunks[0]));
      CollectHunksAdds(next, at, hunks[1..], path);
      forall l
        ensures MarkedByAny(hunks, l) <==> l in MarksOf(hunks[0]) || MarkedByAny(hunks[1..], l)
      {
        if j :| 0 <= j < |hunks| && l in MarksOf(hunks[j]) {
          if j > 0 {
            assert hunks[1..][j - 1] == hunks[j];
          }
        }
      }
    }
  }

  lemma {:induction false} CollectAdds(changed: Changed, files: seq<FileDiff>, path: string)
    ensures Adds(changed, Collect(changed, files), path, exists i, j :: HunkAt(files, path, i, j),
                 iset l | MarkedIn(files, path, l))
    decreases |files|
  {
    if files != [] {
      var f, rest := files[0], files[1..];
      var next := CollectFile(changed, f);
      CollectHunksAdds(changed, if f.deleted then None else Some(f.newPath), f.hunks, path);
      CollectAdds(next, rest, path);
      HunksSplit(files, path);
    }
  }

  lemma HunksSplit(files: seq<FileDiff>, path: string)
    requires files != []
    ensures var f, rest := files[0], files[1..];
      var here := !f.deleted && f.newPath == path && EndsWith(path, ".rs");
      && ((exists i, j :: HunkAt(files, path, i, j)) <==>
          (here && f.hunks != []) || exists i, j :: HunkAt(rest, path, i, j))
      && (forall l :: MarkedIn(files, path, l) <==>
          (here && MarkedByAny(f.hunks, l)) || MarkedIn(rest, path, l))
  {
    var f, rest := files[0], files[1..];
    forall i, j | HunkAt(rest, path, i, j)
      ensures HunkAt(files, path, i + 1, j) && rest[i] == files[i + 1]
    {
    }
    forall i, j | HunkAt(files, path, i, j) && i > 0
      ensures HunkAt(rest, path, i - 1, j) && rest[i - 1] == files[i]
    {
    }
    if !f.deleted && f.newPath == path && EndsWith(path, ".rs") && f.hunks != [] {
      assert HunkAt(files, path, 0, 0);
    }
    forall l
      ensures MarkedIn(files, path, l) <==>
          (!f.deleted && f.newPath == path && EndsWith(path, ".rs") && MarkedByAny(f.hunks, l)) || MarkedIn(rest, path, l)
    {
      if i, j :| HunkAt(files, path, i, j) && l in MarksOf(files[i].hunks[j]) {
        if i > 0 {
          assert HunkAt(rest, path, i - 1, j);
        }
      }
      if j :| 0 <= j < |f.hunks| && l in MarksOf(f.hunks[j]) {
        assert !f.deleted && f.newPath == path && EndsWith(path, ".rs") ==> HunkAt(files, path, 0, j);
      }
      if i, j :| HunkAt(rest, path, i, j) && l in MarksOf(rest[i].hunks[j]) {
        assert HunkAt(files, path, i + 1, j);
      }
    }
  }

  // ---- Parsing it back ---------------------------------------------------------------

  lemma ReadsLine(b: BodyLine, more: seq<string>, olds: nat, news: nat, olds': nat, news': nat)
    requires olds > 0 || news > 0
    requires olds == olds' + (if b.Added? || b.Note? then 0 else 1)
    requires news == news' + (if b.Deleted? || b.Note? then 0 else 1)
    ensures ReadHunk([PrintBodyLine(b)] + more, olds, news) == Taking(KindsOfLine(b), ReadHunk(more, olds', news'))
  {
    var lines := [PrintBodyLine(b)] + more;
    assert lines[0] == PrintBodyLine(b) && lines[1..] == more;
    if !b.BlankContext? {
      assert lines[0][0] == match b case Context(_) => ' ' case Deleted(_) => '-' case Added(_) => '+' case Note(_) => '\\';
    }
  }

  /** A body read under its own counts gives its kinds; only trailing notes are left over. */
  lemma {:induction false} ReadsBack(body: seq<BodyLine>, rest: seq<string>)
    ensures var r := ReadHunk(PrintBody(body) + rest, OldCount(body), NewCount(body));
      && r.Ok? && r.value.0 == KindsOf(body) && r.value.1 <= |body|
      && forall i | r.value.1 <= i < |body| :: body[i].Note?
    decreases |body|
  {
    if OldCount(body) == 0 && NewCount(body) == 0 {
      OnlyNotes(body);
    } else {
      hide ReadHunk, KindsOfLine, PrintBodyLine;
      var more := PrintBody(body[1..]) + rest;
      ReadsBack(body[1..], rest);
      ReadsLine(body[0], more, OldCount(body), NewCount(body), OldCount(body[1..]), NewCount(body[1..]));
      assert PrintBody(body) + rest == [PrintBodyLine(body[0])] + more;
    }
  }

  lemma {:induction false} OnlyNotes(body: seq<BodyLine>)
    requires OldCount(body) == 0 && NewCount(body) == 0
    ensures KindsOf(body) == "" && forall i | 0 <= i < |body| :: body[i].Note?
  {
    if body != [] {
      OnlyNotes(body[1..]);
    }
  }

  lemma {:induction false} NotesAreSkipped(notes: seq<BodyLine>, rest: seq<string>, st: State)
    requires Wf(st) && forall i | 0 <= i < |notes| :: notes[i].Note?
    ensures ParseLines(PrintBody(notes) + rest, st) == ParseLines(rest, st)
    decreases |notes|
  {
    hide IsBinary, ParseHunk, Close;
    if notes == [] {
      assert PrintBody(notes) + rest == rest;
    } else {
      var lines := PrintBody(notes) + rest;
      assert lines[0] == "\\" + notes[0].text && lines[0][0] == '\\';
      NotBinary(lines[0]);
      assert KindOf(lines[0], st.section.Some?) == Quiet;
      assert lines[1..] == PrintBody(notes[1..]) + rest;
      NotesAreSkipped(notes[1..], rest, st);
    }
  }

  lemma {:induction false} PrintBodySuffix(body: seq<BodyLine>, n: nat)
    requires n <= |body|
    ensures PrintBody(body)[n..] == PrintBody(body[n..])
  {
    if n > 0 {
      PrintBodySuffix(body[1..], n - 1);
      assert body[1..][n - 1..] == body[n..];
      assert PrintBody(body)[n..] == PrintBody(body)[1..][n - 1..];
    }
  }

  lemma HeaderLineKind(oldStart: nat, h: Header, brief: bool, tail: string, inSection: bool)
    ensures KindOf(PrintHeader(oldStart, h, brief, tail), inSection) == HunkStart
  {
    var line := PrintHeader(oldStart, h, brief, tail);
    hide PrintRange, IsBinary;
    assert line[0] == '@' && line[1] == '@';
    assert line[..2] == "@@";
    NotBinary(line);
  }

  lemma HunkAccepted(h: Hunk, rest: seq<string>, st: State) returns (n: nat)
    requires Wf(st) && st.haveHeader
    ensures var line := PrintHeader(h.oldStart, HeaderOf(h), h.brief, h.tail);
      ParseHunk(line, PrintBody(h.body) + rest, st) ==
      Ok((st.(changed := AddMarks(st.changed, st.path, MarksOf(h))), n + 1))
    ensures n <= |h.body| && forall i | n <= i < |h.body| :: h.body[i].Note?
  {
    hide ReadHunk, PrintBody, Marks, KindsOf, OldCount, NewCount, PrintHeader, ParseHeader;
    HeaderRoundTrip(h.oldStart, HeaderOf(h), h.brief, h.tail);
    ReadsBack(h.body, rest);
    n := ReadHunk(PrintBody(h.body) + rest, OldCount(h.body), NewCount(h.body)).value.1;
  }

  lemma ParsesOn(lines: seq<string>, st: State, st': State, n: nat, rest: seq<string>)
    requires Wf(st) && Wf(st') && lines != [] && ParseOne(lines, st) == Ok((st', n))
    requires n <= |lines| && lines[n..] == rest
    ensures ParseLines(lines, st) == ParseLines(rest, st')
  {
  }

  lemma ParsesAsHunk(line: string, after: seq<string>, st: State)
    requires Wf(st) && KindOf(line, st.section.Some?) == HunkStart
    ensures ParseOne([line] + after, st) == ParseHunk(line, after, st)
  {
    hide ParseHunk, IsBinary, TrimTabs, Close;
    assert ([line] + after)[1..] == after;
  }

  lemma HunkLeads(line: string, body: seq<BodyLine>, n: nat, rest: seq<string>, st: State, st': State)
    requires Wf(st) && Wf(st') && KindOf(line, st.section.Some?) == HunkStart
    requires ParseHunk(line, PrintBody(body) + rest, st) == Ok((st', n + 1))
    requires n <= |body| && forall i | n <= i < |body| :: body[i].Note?
    ensures ParseLines([line] + PrintBody(body) + rest, st) == ParseLines(rest, st')
  {
    var after := PrintBody(body) + rest;
    LeftAfter(line, body, n, rest);
    ParsesAsHunk(line, after, st);
    ParsesOn([line] + after, st, st', n + 1, PrintBody(body[n..]) + rest);
    NotesAreSkipped(body[n..], rest, st');
  }

  lemma LeftAfter(line: string, body: seq<BodyLine>, n: nat, rest: seq<string>)
    requires n <= |body|
    ensures [line] + PrintBody(body) + rest == [line] + (PrintBody(body) + rest)
    ensures ([line] + (PrintBody(body) + rest))[n + 1..] == PrintBody(body[n..]) + rest
  {
    PrintBodySuffix(body, n);
    DropAfter(line, PrintBody(body), n, rest);
  }

  lemma DropAfter<T>(x: T, a: seq<T>, n: nat, rest: seq<T>)
    requires n <= |a|
    ensures [x] + a + rest == [x] + (a + rest)
    ensures ([x] + (a + rest))[n + 1..] == a[n..] + rest
  {
  }

  lemma HunkReadsBack(h: Hunk, rest: seq<string>, st: State)
    requires Wf(st) && st.haveHeader
    ensures ParseLines(PrintHunk(h) + rest, st) ==
            ParseLines(rest, st.(changed := AddMarks(st.changed, st.path, MarksOf(h))))
  {
    hide ParseLines, PrintBody, MarksOf, AddMarks, ParseHunk;
    var line := PrintHeader(h.oldStart, HeaderOf(h), h.brief, h.tail);
    HeaderLineKind(h.oldStart, HeaderOf(h), h.brief, h.tail, st.section.Some?);
    var n := HunkAccepted(h, rest, st);
    HunkLeads(line, h.body, n, rest, st, st.(changed := AddMarks(st.changed, st.path, MarksOf(h))));
  }

  lemma {:induction false} HunksReadBack(hunks: seq<Hunk>, rest: seq<string>, st: State)
    requires Wf(st) && (hunks != [] ==> st.haveHeader)
    ensures ParseLines(PrintHunks(hunks) + rest, st) ==
            ParseLines(rest, st.(changed := CollectHunks(st.changed, st.path, hunks)))
    decreases |hunks|
  {
    hide ParseLines, PrintHunk, MarksOf, AddMarks;
    if hunks == [] {
      assert PrintHunks(hunks) + rest == rest;
    } else {
      var more := PrintHunks(hunks[1..]) + rest;
      assert PrintHunks(hunks) + rest == PrintHunk(hunks[0]) + more;
      HunkReadsBack(hunks[0], more, st);
      HunksReadBack(hunks[1..], rest, st.(changed := AddMarks(st.changed, st.path, MarksOf(hunks[0]))));
    }
  }

  lemma {:induction false} QuietLinesAreSkipped(quiet: seq<string>, rest: seq<string>, st: State)
    requires Wf(st) && st.section.Some? && forall l | l in quiet :: KindOf(l, true) == Quiet
    ensures ParseLines(quiet + rest, st) == ParseLines(rest, st)
    decreases |quiet|
  {
    if quiet == [] {
      assert quiet + rest == rest;
    } else {
      assert quiet[0] in quiet && (quiet + rest)[1..] == quiet[1..] + rest;
      QuietLinesAreSkipped(quiet[1..], rest, st);
    }
  }

  lemma OneLine(line: string, rest: seq<string>, st: State, st': State)
    requires Wf(st) && ParseOne([line] + rest, st) == Ok((st', 1))
    ensures ParseLines([line] + rest, st) == ParseLines(rest, st')
  {
    assert ([line] + rest)[1..] == rest;
  }

  lemma GitLineKind(f: FileDiff, inSection: bool)
    ensures StartsWith(GitLine(f), "diff --git ") && KindOf(GitLine(f), inSection) == Git
    ensures f.newPath != "" && f.oldPath == f.newPath ==> HeaderPath(GitLine(f)) == Some(f.newPath)
  {
    hide IsBinary;
    var line := GitLine(f);
    assert line[..11] == "diff --git ";
    assert line[0] == 'd';
    NotBinary(line);
    if f.newPath != "" && f.oldPath == f.newPath {
      var rest := "a/" + f.oldPath + " b/" + f.newPath;
      assert line[11..] == rest;
      assert |rest| == 2 * |f.newPath| + 5;
      assert rest[2..2 + |f.newPath|] == f.newPath;
    }
  }

  lemma PreambleReadsBack(f: FileDiff, rest: seq<string>, st: State)
    requires Wf(st) && st.section.Some? && !st.section.value.deleted && st.section.value.rename == None
    requires forall l | l in f.extras :: KindOf(l, true) == Quiet
    ensures ParseLines(PrintPreamble(f) + rest, st) ==
            ParseLines(rest, st.(section := Some(st.section.value.(
              deleted := f.deleted, rename := if f.renamed then Some(f.newPath) else None))))
  {
    var renames := if f.renamed then ["rename from " + f.oldPath, "rename to " + f.newPath] else [];
    var modes := if f.deleted then ["deleted file mode 100644"] else [];
    var st1 := st.(section := Some(st.section.value.(deleted := f.deleted)));
    assert PrintPreamble(f) + rest == f.extras + (modes + (renames + rest));
    QuietLinesAreSkipped(f.extras, modes + (renames + rest), st);
    ModeReadsBack(f.deleted, renames + rest, st);
    RenameReadsBack(f, rest, st1);
  }

  lemma ModeReadsBack(deleted: bool, rest: seq<string>, st: State)
    requires Wf(st) && st.section.Some? && !st.section.value.deleted
    ensures ParseLines((if deleted then ["deleted file mode 100644"] else []) + rest, st) ==
            ParseLines(rest, st.(section := Some(st.section.value.(deleted := deleted))))
  {
    if deleted {
      var line := "deleted file mode 100644";
      assert line[..18] == "deleted file mode " && line[0] == 'd' && line[1] == 'e';
      assert KindOf(line, true) == DeletedMode;
      OneLine(line, rest, st, st.(section := Some(st.section.value.(deleted := true))));
    } else {
      assert [] + rest == rest;
    }
  }

  lemma RenameReadsBack(f: FileDiff, rest: seq<string>, st: State)
    requires Wf(st) && st.section.Some? && st.section.value.rename == None
    ensures ParseLines((if f.renamed then ["rename from " + f.oldPath, "rename to " + f.newPath] else []) + rest, st) ==
            ParseLines(rest, st.(section := Some(st.section.value.(rename := if f.renamed then Some(f.newPath) else None))))
  {
    if f.renamed {
      var a, b := "rename from " + f.oldPath, "rename to " + f.newPath;
      assert a[0] == 'r' && a[7] == 'f' && KindOf(a, true) == Quiet;
      assert b[0] == 'r' && b[..10] == "rename to " && b[10..] == f.newPath;
      assert KindOf(b, true) == RenameTo(f.newPath);
      assert [a, b] + rest == [a] + ([b] + rest);
      OneLine(a, [b] + rest, st, st);
      OneLine(b, rest, st, st.(section := Some(st.section.value.(rename := Some(f.newPath)))));
    } else {
      assert [] + rest == rest;
    }
  }

  lemma TrimsOneTab(s: string, tab: bool)
    requires s != "" && s[|s| - 1] != '\t'
    ensures TrimTabs(s + (if tab then "\t" else "")) == s
  {
    if tab {
      var t := s + "\t";
      assert t[|t| - 1] == '\t' && t[..|t| - 1] == s;
    } else {
      assert s + "" == s;
    }
  }

  /** The state once the `+++` line is read. */
  function Targeted(st: State, f: FileDiff): State
    requires st.section.Some?
  {
    if f.deleted then st.(path := None, haveHeader := true, section := Some(st.section.value.(deleted := true)))
    else st.(path := Some(f.newPath), haveHeader := true, section := Some(st.section.value.(target := Some(f.newPath))))
  }

  lemma NotBinary(line: string)
    requires line != "" && line[0] != 'G' && line[0] != 'B'
    ensures !IsBinary(line)
  {
  }

  lemma TargetLineKind(f: FileDiff)
    requires Printable(f)
    ensures var line := "+++ " + (if f.deleted then "/dev/null" else "b/" + f.newPath + (if f.tab then "\t" else ""));
      KindOf(line, true) == Target(if f.deleted then "/dev/null" else "b/" + f.newPath)
  {
    hide TrimTabs, IsBinary;
    var name := if f.deleted then "/dev/null" else "b/" + f.newPath;
    var end := if !f.deleted && f.tab then "\t" else "";
    var line := "+++ " + (if f.deleted then "/dev/null" else "b/" + f.newPath + (if f.tab then "\t" else ""));
    assert line[0] == '+' && line[..4] == "+++ ";
    assert line[4..] == name + end;
    assert name[|name| - 1] == if f.deleted then 'l' else f.newPath[|f.newPath| - 1];
    TrimsOneTab(name, !f.deleted && f.tab);
    NotBinary(line);
  }

  lemma TargetIsSet(f: FileDiff, line: string, st: State)
    requires Printable(f) && st.section.Some?
    ensures SetTarget(st, line, if f.deleted then "/dev/null" else "b/" + f.newPath) == Ok(Targeted(st, f))
  {
    if !f.deleted {
      var name := "b/" + f.newPath;
      assert name[0] == 'b' && name[..2] == "b/" && name[2..] == f.newPath;
    }
  }

  lemma TargetLineReadsBack(f: FileDiff, rest: seq<string>, st: State)
    requires Printable(f) && Wf(st) && st.section.Some?
    ensures var line := "+++ " + (if f.deleted then "/dev/null" else "b/" + f.newPath + (if f.tab then "\t" else ""));
      ParseLines([line] + rest, st) == ParseLines(rest, Targeted(st, f))
  {
    var name := if f.deleted then "/dev/null" else "b/" + f.newPath;
    var line := "+++ " + (if f.deleted then "/dev/null" else "b/" + f.newPath + (if f.tab then "\t" else ""));
    TargetLineKind(f);
    TargetIsSet(f, line, st);
    ParsesTarget(line, name, rest, st, Targeted(st, f));
  }

  lemma ParsesTarget(line: string, name: string, rest: seq<string>, st: State, st': State)
    requires Wf(st) && Wf(st') && st.section.Some?
    requires KindOf(line, true) == Target(name) && SetTarget(st, line, name) == Ok(st')
    ensures ParseLines([line] + rest, st) == ParseLines(rest, st')
  {
    OneLine(line, rest, st, st');
  }

  lemma TargetsReadBack(f: FileDiff, rest: seq<string>, st: State)
    requires Printable(f) && f.hunks != [] && Wf(st) && st.section.Some?
    ensures ParseLines(PrintTargets(f) + rest, st) == ParseLines(rest, Targeted(st, f))
  {
    var a := "--- " + f.oldTarget;
    var b := "+++ " + (if f.deleted then "/dev/null" else "b/" + f.newPath + (if f.tab then "\t" else ""));
    assert a[0] == '-' && a[..4] == "--- " && KindOf(a, true) == Quiet;
    assert PrintTargets(f) + rest == [a] + ([b] + rest);
    OneLine(a, [b] + rest, st, st);
    TargetLineReadsBack(f, rest, st);
  }

  /** The state at a section's first line, after its preamble, and at its hunks. */
  function Begun(f: FileDiff, changed: Changed, paths: set<string>): State {
    State(changed, paths, Some(Section(GitLine(f), None, None, false)), None, false)
  }

  function Introduced(f: FileDiff, changed: Changed, paths: set<string>): State {
    State(changed, paths, Some(Section(GitLine(f), None, if f.renamed then Some(f.newPath) else None, f.deleted)), None, false)
  }

  function AtHunks(f: FileDiff, changed: Changed, paths: set<string>): State {
    if f.hunks == [] then Introduced(f, changed, paths) else Targeted(Introduced(f, changed, paths), f)
  }

  lemma SectionsAreWf(f: FileDiff, changed: Changed, paths: set<string>)
    ensures Wf(Begun(f, changed, paths)) && Wf(Introduced(f, changed, paths)) && Wf(AtHunks(f, changed, paths))
  {
    GitLineKind(f, true);
  }

  lemma SectionCloses(f: FileDiff, changed: Changed, paths: set<string>)
    requires Printable(f)
    ensures Wf(AtHunks(f, changed, paths)) && AtHunks(f, changed, paths).changed == changed
    ensures Close(AtHunks(f, changed, paths)) == Ok(paths + (if f.deleted then {} else {f.newPath}))
  {
    SectionsAreWf(f, changed, paths);
    GitLineKind(f, true);
    assert paths + {} == paths;
  }

  lemma SectionBegins(f: FileDiff, rest: seq<string>, st: State, paths: set<string>)
    requires Wf(st) && Close(st) == Ok(paths) && Wf(Begun(f, st.changed, paths))
    ensures ParseLines([GitLine(f)] + rest, st) == ParseLines(rest, Begun(f, st.changed, paths))
  {
    GitLineKind(f, st.section.Some?);
    ParsesGit(GitLine(f), rest, st, paths);
  }

  lemma ParsesGit(line: string, rest: seq<string>, st: State, paths: set<string>)
    requires Wf(st) && Close(st) == Ok(paths) && KindOf(line, st.section.Some?) == Git
    requires StartsWith(line, "diff --git ")
    ensures ParseLines([line] + rest, st) ==
            ParseLines(rest, State(st.changed, paths, Some(Section(line, None, None, false)), None, false))
  {
    OneLine(line, rest, st, State(st.changed, paths, Some(Section(line, None, None, false)), None, false));
  }

  lemma TargetsLead(f: FileDiff, rest: seq<string>, changed: Changed, paths: set<string>)
    requires Printable(f) && Wf(Introduced(f, changed, paths)) && Wf(AtHunks(f, changed, paths))
    ensures ParseLines(PrintTargets(f) + rest, Introduced(f, changed, paths)) == ParseLines(rest, AtHunks(f, changed, paths))
  {
    if f.hunks == [] {
      assert PrintTargets(f) + rest == rest;
    } else {
      TargetsReadBack(f, rest, Introduced(f, changed, paths));
    }
  }

  lemma HunksLead(f: FileDiff, rest: seq<string>, changed: Changed, paths: set<string>)
    requires Wf(AtHunks(f, changed, paths))
    ensures Wf(AtHunks(f, CollectFile(changed, f), paths))
    ensures ParseLines(PrintHunks(f.hunks) + rest, AtHunks(f, changed, paths)) ==
            ParseLines(rest, AtHunks(f, CollectFile(changed, f), paths))
  {
    var st := AtHunks(f, changed, paths);
    HunksReadBack(f.hunks, rest, st);
    assert CollectHunks(st.changed, st.path, f.hunks) == CollectFile(changed, f);
  }

  /** One section, from any state whose own section closes. */
  lemma FileReadsBack(f: FileDiff, rest: seq<string>, st: State, paths: set<string>)
    requires Printable(f) && Wf(st) && Close(st) == Ok(paths)
    ensures Wf(AtHunks(f, CollectFile(st.changed, f), paths))
    ensures ParseLines(PrintFile(f) + rest, st) == ParseLines(rest, AtHunks(f, CollectFile(st.changed, f), paths))
  {
    hide ParseLines, PrintHunks, PrintTargets, PrintPreamble, CollectFile, Close;
    var hunkLines := PrintHunks(f.hunks) + rest;
    var targetLines := PrintTargets(f) + hunkLines;
    var preamble := PrintPreamble(f) + targetLines;
    assert PrintFile(f) + rest == [GitLine(f)] + preamble;
    SectionsAreWf(f, st.changed, paths);
    SectionBegins(f, preamble, st, paths);
    PreambleReadsBack(f, targetLines, Begun(f, st.changed, paths));
    TargetsLead(f, hunkLines, st.changed, paths);
    HunksLead(f, rest, st.changed, paths);
  }

  lemma {:induction false} FilesReadBack(files: seq<FileDiff>, st: State, paths: set<string>)
    requires Wf(st) && Close(st) == Ok(paths) && forall f | f in files :: Printable(f)
    ensures ParseLines(PrintFiles(files), st) == Ok((Collect(st.changed, files), paths + NewPaths(files)))
    decreases |files|
  {
    hide ParseLines, PrintFile, CollectFile, NewPaths, Close, Printable, AtHunks;
    if files == [] {
      NoFilesLeft(st, paths);
    } else {
      var f, rest := files[0], files[1..];
      var changed := CollectFile(st.changed, f);
      var paths' := paths + (if f.deleted then {} else {f.newPath});
      FileReadsBack(f, PrintFiles(rest), st, paths);
      SectionCloses(f, changed, paths);
      FilesReadBack(rest, AtHunks(f, changed, paths), paths');
      NewPathsSplit(files);
      assert paths' + NewPaths(rest) == paths + NewPaths(files);
    }
  }

  lemma NoFilesLeft(st: State, paths: set<string>)
    requires Wf(st) && Close(st) == Ok(paths)
    ensures ParseLines([], st) == Ok((st.changed, paths + NewPaths([])))
  {
    assert paths + NewPaths([]) == paths;
  }

  lemma NewPathsSplit(files: seq<FileDiff>)
    requires files != []
    ensures NewPaths(files) == (if files[0].deleted then {} else {files[0].newPath}) + NewPaths(files[1..])
  {
    var rest := files[1..];
    forall p | p in NewPaths(rest)
      ensures p in NewPaths(files)
    {
      var i :| 0 <= i < |rest| && !rest[i].deleted && rest[i].newPath == p;
      assert files[i + 1] == rest[i];
    }
    forall p | p in NewPaths(files)
      ensures p in (if files[0].deleted then {} else {files[0].newPath}) + NewPaths(rest)
    {
      var i :| 0 <= i < |files| && !files[i].deleted && files[i].newPath == p;
      if i > 0 {
        assert rest[i - 1] == files[i];
      }
    }
  }

  /** `changed` says exactly what the hunks of `files` say. */
  ghost predicate Reports(changed: Changed, files: seq<FileDiff>) {
    && (forall path :: path in changed <==> exists i, j :: HunkAt(files, path, i, j))
    && (forall path, l | path in changed :: l in changed[path] <==> MarkedIn(files, path, l))
  }

  lemma CollectReports(files: seq<FileDiff>)
    ensures Reports(Collect(map[], files), files)
  {
    var changed := Collect(map[], files);
    forall path: string
      ensures path in changed <==> exists i, j :: HunkAt(files, path, i, j)
      ensures path in changed ==> forall l :: l in changed[path] <==> MarkedIn(files, path, l)
    {
      CollectAdds(map[], files, path);
    }
  }

  lemma PrintedIsNotBlank(files: seq<FileDiff>, isSpace: char -> bool)
    requires files != [] && !isSpace('d')
    ensures var lines := PrintFiles(files);
      |lines| > 0 && !Blank(lines[0], isSpace) && StartsWith(lines[0], "diff --git ")
  {
    GitLineKind(files[0], false);
    var lines := PrintFiles(files);
    assert lines[0] == GitLine(files[0]) && lines[0][0] == 'd';
  }

  /** For arbitrary line text: the parse of a printed diff names exactly the files that
      still exist, and marks exactly the lines its hunks mark. */
  lemma DiffParsesBack(files: seq<FileDiff>, isSpace: char -> bool)
    requires (forall f | f in files :: Printable(f)) && OneLineEach(files) && !isSpace('d')
    ensures var r := Parse(Unlines(PrintFiles(files)), isSpace);
      r.Ok? && r.value.1 == NewPaths(files) && Reports(r.value.0, files)
  {
    hide PrintFiles, Collect, ParseLines, Unlines, SplitLines, Printable;
    CollectReports(files);
    LinesRoundTrip(PrintFiles(files));
    if files == [] {
      NoFilesParse(isSpace);
    } else {
      PrintedIsNotBlank(files, isSpace);
      FilesReadBack(files, INITIAL, {});
      assert {} + NewPaths(files) == NewPaths(files);
      ParsesNonBlank(Unlines(PrintFiles(files)), isSpace);
    }
  }

  lemma NoFilesParse(isSpace: char -> bool)
    ensures Parse(Unlines(PrintFiles([])), isSpace) == Ok((Collect(map[], []), NewPaths([])))
  {
    LinesRoundTrip(PrintFiles([]));
    assert NewPaths([]) == {};
  }

  lemma ParsesNonBlank(text: string, isSpace: char -> bool)
    requires var lines := SplitLines(text);
      |lines| > 0 && !Blank(lines[0], isSpace) && StartsWith(lines[0], "diff --git ")
    ensures Parse(text, isSpace) == ParseLines(SplitLines(text), INITIAL)
  {
  }
}
