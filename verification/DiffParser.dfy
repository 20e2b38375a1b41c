/** The diff parser in its own form, and what it does with a hunk whose body does not match
    its header. */
module DiffParser {
  import opened Wrappers
  import opened Characters
  import opened HunkMarks
  import opened DiffText
  import opened DiffRoundTrip

  function Resume(body: Kinds, taken: nat, rest: Result<(Kinds, nat), DiffError>): Result<(Kinds, nat), DiffError> {
    match rest
    case Err(e) => Err(e)
    case Ok((more, n)) => Ok((body + more, taken + n))
  }

  lemma ResumeTaking(body: Kinds, taken: nat, kinds: Kinds, rest: Result<(Kinds, nat), DiffError>)
    ensures Resume(body, taken, Taking(kinds, rest)) == Resume(body + kinds, taken + 1, rest)
  {
    if rest.Ok? {
      assert body + (kinds + rest.value.0) == body + kinds + rest.value.0;
    }
  }

  /** The inner loop: body lines until both counts are used up. */
  method ReadHunkBody(lines: seq<string>, from: nat, olds: nat, news: nat)
    returns (r: Result<(Kinds, nat), DiffError>)
    requires from <= |lines|
    ensures r == ReadHunk(lines[from..], olds, news)
  {
    var i, o, n := from, olds, news;
    var body: Kinds := "";
    assert Resume("", 0, ReadHunk(lines[from..], o, n)) == ReadHunk(lines[from..], o, n) by {
      var rest := ReadHunk(lines[from..], o, n);
      if rest.Ok? {
        assert "" + rest.value.0 == rest.value.0;
      }
    }
    while o > 0 || n > 0
      invariant from <= i <= |lines|
      invariant Resume(body, i - from, ReadHunk(lines[i..], o, n)) == ReadHunk(lines[from..], olds, news)
      decreases |lines| - i
    {
      if i >= |lines| {
        return Err(HunkTooShort);
      }
      var text := lines[i];
      ghost var rest := lines[i..];
      assert rest[0] == text && rest[1..] == lines[i + 1..];
      var kind := if text == "" then ' ' else text[0];
      if kind == '\\' {
        ResumeTaking(body, i - from, "", ReadHunk(lines[i + 1..], o, n));
        assert body + "" == body;
      } else if kind !in {' ', '-', '+'} {
        return Err(NotAHunkLine(text));
      } else {
        var lessOld := if kind == '+' then 0 else 1;
        var lessNew := if kind == '-' then 0 else 1;
        if o < lessOld || n < lessNew {
          return Err(HunkTooLong);
        }
        o, n := o - lessOld, n - lessNew;
        ResumeTaking(body, i - from, [kind], ReadHunk(lines[i + 1..], o, n));
        body := body + [kind];
      }
      i := i + 1;
    }
    r := Ok((body, i - from));
    assert body + "" == body;
  }

  /** The outer loop, line by line over the file sections. */
  method ParseDiff(text: string, isSpace: char -> bool) returns (r: Result<(Changed, set<string>), DiffError>)
    ensures r == Parse(text, isSpace)
  {
    var lines := SplitLines(text);
    if forall i | 0 <= i < |lines| :: Blank(lines[i], isSpace) {
      return Ok((map[], {}));
    }
    if forall i | 0 <= i < |lines| :: !StartsWith(lines[i], "diff --git ") {
      return Err(NoGitHeader);
    }
    r := ParseSections(lines);
  }

  method ParseSections(lines: seq<string>) returns (r: Result<(Changed, set<string>), DiffError>)
    ensures r == ParseLines(lines, INITIAL)
  {
    hide ParseLines, ParseOne, Close;
    var st := INITIAL;
    var i := 0;
    ghost var parsed := ParseLines(lines, INITIAL);
    assert lines[0..] == lines;
    while i < |lines|
      invariant 0 <= i <= |lines| && Wf(st)
      invariant ParseLines(lines[i..], st) == parsed
      decreases |lines| - i
    {
      var step := ParseNext(lines, i, st);
      if step.Err? {
        ParseStops(lines[i..], st);
        return Err(step.error);
      }
      var (st', n) := step.value;
      assert lines[i..][n..] == lines[i + n..];
      ParsesOn(lines[i..], st, st', n, lines[i + n..]);
      st, i := st', i + n;
    }
    r := Finish(st);
    assert lines[i..] == [];
    ParseEnds(st);
  }

  function Finish(st: State): Result<(Changed, set<string>), DiffError>
    requires Wf(st)
  {
    match Close(st)
    case Err(e) => Err(e)
    case Ok(paths) => Ok((st.changed, paths))
  }

  lemma ParseEnds(st: State)
    requires Wf(st)
    ensures ParseLines([], st) == Finish(st)
  {
  }

  lemma ParseStops(lines: seq<string>, st: State)
    requires lines != [] && Wf(st) && ParseOne(lines, st).Err?
    ensures ParseLines(lines, st) == Err(ParseOne(lines, st).error)
  {
  }

  /** One turn of the outer loop. */
  method ParseNext(lines: seq<string>, i: nat, st: State) returns (r: Result<(State, nat), DiffError>)
    requires i < |lines| && Wf(st)
    ensures r == ParseOne(lines[i..], st)
    ensures r.Ok? ==> 0 < r.value.1 <= |lines| - i && Wf(r.value.0)
  {
    var line := lines[i];
    assert lines[i..][0] == line && lines[i..][1..] == lines[i + 1..];
    if IsBinary(line) {
      return Err(BinaryDiff(line));
    }
    if StartsWith(line, "diff --git ") {
      match Close(st)
      case Err(e) => return Err(e);
      case Ok(paths) => return Ok((State(st.changed, paths, Some(Section(line, None, None, false)), None, false), 1));
    } else if st.section.Some? && StartsWith(line, "deleted file mode ") {
      return Ok((st.(section := Some(st.section.value.(deleted := true))), 1));
    } else if st.section.Some? && StartsWith(line, "rename to ") {
      return Ok((st.(section := Some(st.section.value.(rename := Some(line[10..])))), 1));
    } else if StartsWith(line, "+++ ") {
      var target := SetTarget(st, line, TrimTabs(line[4..]));
      return if target.Ok? then Ok((target.value, 1)) else Err(target.error);
    } else if StartsWith(line, "@@") {
      r := ParseHunkAt(lines, i, st);
    } else if line != "" && line[0] in {' ', '+', '-'} && !StartsWith(line, "--- ") {
      return Err(HunkTooLong);
    } else {
      return Ok((st, 1));
    }
  }

  method ParseHunkAt(lines: seq<string>, i: nat, st: State) returns (r: Result<(State, nat), DiffError>)
    requires i < |lines| && Wf(st)
    ensures r == ParseHunk(lines[i], lines[i + 1..], st)
  {
    hide ReadHunk, Marks, ParseHeader, AddMarks;
    var header := ParseHeader(lines[i]);
    if header.None? {
      return Err(BadHunkHeader(lines[i]));
    }
    var h := header.value;
    if !st.haveHeader {
      return Err(HunkWithoutFile(lines[i]));
    }
    var body := ReadHunkBody(lines, i + 1, h.olds, h.news);
    if body.Err? {
      return Err(body.error);
    }
    var marks := HunkLines(body.value.0, h.start, h.news == 0);
    r := Ok((st.(changed := AddMarks(st.changed, st.path, marks)), body.value.1 + 1));
  }

  // ---- Bodies that disagree with their header ----------------------------------------

  ghost predicate Uses(body: seq<BodyLine>, k: nat, olds: nat, news: nat)
    requires k <= |body|
  {
    OldCount(body[..k]) == olds && NewCount(body[..k]) == news
  }

  ghost predicate SomePrefixUses(body: seq<BodyLine>, olds: nat, news: nat) {
    exists k :: 0 <= k <= |body| && Uses(body, k, olds, news)
  }

  /** What may come after a hunk's body: nothing, or a line that is no body line. */
  ghost predicate EndsBody(rest: seq<string>) {
    rest == [] || (rest[0] != "" && rest[0][0] !in {' ', '-', '+', '\\'})
  }

  /** A body is accepted under declared counts exactly when some prefix of it uses them up;
      in particular a body shorter than its header is always refused. */
  lemma {:induction false} AcceptedIffAPrefixFits(body: seq<BodyLine>, rest: seq<string>, olds: nat, news: nat)
    requires EndsBody(rest)
    ensures ReadHunk(PrintBody(body) + rest, olds, news).Ok? <==> SomePrefixUses(body, olds, news)
    decreases |body|
  {
    var lines := PrintBody(body) + rest;
    if olds == 0 && news == 0 {
      assert Uses(body, 0, 0, 0);
    } else if body == [] {
      assert lines == rest;
    } else {
      assert lines[1..] == PrintBody(body[1..]) + rest;
      var lessOld := if body[0].Added? || body[0].Note? then 0 else 1;
      var lessNew := if body[0].Deleted? || body[0].Note? then 0 else 1;
      PrefixesShift(body, olds, news, lessOld, lessNew);
      if lessOld <= olds && lessNew <= news {
        AcceptedIffAPrefixFits(body[1..], rest, olds - lessOld, news - lessNew);
      }
    }
  }

  lemma PrefixesShift(body: seq<BodyLine>, olds: nat, news: nat, lessOld: nat, lessNew: nat)
    requires body != [] && (olds > 0 || news > 0)
    requires lessOld == if body[0].Added? || body[0].Note? then 0 else 1
    requires lessNew == if body[0].Deleted? || body[0].Note? then 0 else 1
    ensures SomePrefixUses(body, olds, news) <==>
            lessOld <= olds && lessNew <= news && SomePrefixUses(body[1..], olds - lessOld, news - lessNew)
  {
    if k :| 0 <= k <= |body| && Uses(body, k, olds, news) {
      assert k > 0;
      assert body[..k][1..] == body[1..][..k - 1];
      assert lessOld <= olds && lessNew <= news && Uses(body[1..], k - 1, olds - lessOld, news - lessNew);
    }
    if lessOld <= olds && lessNew <= news {
      var o, n := olds - lessOld, news - lessNew;
      if k :| 0 <= k <= |body[1..]| && Uses(body[1..], k, o, n) {
        assert body[..k + 1][1..] == body[1..][..k];
        assert Uses(body, k + 1, olds, news);
      }
    }
  }

  /** The body lines that outlast their header and are let through: an empty line, a
      deletion of text that begins "-- ", an addition that reads as a file header, and a
      note. Every other left-over line is refused where it stands. */
  predicate Slips(b: BodyLine) {
    match b
    case Context(_) => false
    case BlankContext => true
    case Deleted(t) => StartsWith(t, "-- ")
    case Added(t) =>
      StartsWith(t, "++ ") &&
      var name := TrimTabs(t[3..]);
      name == "/dev/null" || (StartsWith(name, "b/") && |name| > 2)
    case Note(_) => true
  }

  /** The branch such a line takes. */
  function LeftOverKind(b: BodyLine): LineKind {
    match b
    case Context(_) => Stray
    case BlankContext => Quiet
    case Deleted(t) => if StartsWith(t, "-- ") then Quiet else Stray
    case Added(t) => if StartsWith(t, "++ ") then Target(TrimTabs(t[3..])) else Stray
    case Note(_) => Quiet
  }

  lemma LeftOverTakes(b: BodyLine, inSection: bool)
    ensures KindOf(PrintBodyLine(b), inSection) == LeftOverKind(b)
  {
    hide TrimTabs, IsBinary;
    var line := PrintBodyLine(b);
    if b.BlankContext? {
      assert !IsBinary("") by { EmptyIsNotBinary(); }
    } else {
      var t := b.text;
      assert line[1..] == t && line[0] in {' ', '-', '+', '\\'};
      NotBinary(line);
      if b.Deleted? {
        PrefixOfRest(line, "--- ", t, "-- ");
      } else if b.Added? {
        PrefixOfRest(line, "+++ ", t, "++ ");
        assert StartsWith(t, "++ ") ==> line[4..] == t[3..];
      }
    }
  }

  lemma EmptyIsNotBinary()
    ensures !IsBinary("")
  {
  }

  lemma LeftOverLineRefusedUnlessItSlips(b: BodyLine, rest: seq<string>, st: State)
    requires Wf(st)
    ensures ParseOne([PrintBodyLine(b)] + rest, st).Ok? <==> Slips(b)
  {
    hide KindOf, TrimTabs, ParseHunk, Close;
    LeftOverTakes(b, st.section.Some?);
  }

  lemma PrefixOfRest(line: string, prefix: string, rest: string, tail: string)
    requires line != "" && prefix != "" && line[0] == prefix[0] && line[1..] == rest && prefix[1..] == tail
    ensures StartsWith(line, prefix) <==> StartsWith(rest, tail)
  {
    if StartsWith(rest, tail) {
      assert line == [line[0]] + rest && prefix == [prefix[0]] + tail;
      assert line[..|prefix|] == [line[0]] + rest[..|tail|];
    }
    if StartsWith(line, prefix) {
      assert rest[..|tail|] == line[..|prefix|][1..];
    }
  }

  // ---- A whole hunk under any header -------------------------------------------------

  /** The state after such a line: an addition that reads as a file header renames the file. */
  function AfterSlip(st: State, b: BodyLine): (st': State)
    requires Wf(st) && Slips(b)
    ensures Wf(st')
  {
    if b.Added? then SetTarget(st, PrintBodyLine(b), TrimTabs(b.text[3..])).value else st
  }

  predicate AllSlip(bs: seq<BodyLine>) {
    forall k | 0 <= k < |bs| :: Slips(bs[k])
  }

  function AfterSlips(st: State, bs: seq<BodyLine>): (st': State)
    requires Wf(st) && AllSlip(bs)
    ensures Wf(st')
    decreases |bs|
  {
    if bs == [] then st else AfterSlips(AfterSlip(st, bs[0]), bs[1..])
  }

  lemma SlipIsParsed(b: BodyLine, rest: seq<string>, st: State)
    requires Wf(st) && Slips(b)
    ensures ParseOne([PrintBodyLine(b)] + rest, st) == Ok((AfterSlip(st, b), 1))
  {
    hide KindOf, TrimTabs, ParseHunk, Close;
    LeftOverTakes(b, st.section.Some?);
  }

  /** Left-over lines are passed over when all of them slip, and refused when one does not. */
  lemma {:induction false} LeftOvers(bs: seq<BodyLine>, rest: seq<string>, st: State)
    requires Wf(st)
    ensures AllSlip(bs) ==> ParseLines(PrintBody(bs) + rest, st) == ParseLines(rest, AfterSlips(st, bs))
    ensures !AllSlip(bs) ==> ParseLines(PrintBody(bs) + rest, st).Err?
    decreases |bs|
  {
    if bs == [] {
      assert PrintBody(bs) + rest == rest;
    } else {
      hide ParseLines, ParseOne, Slips, AfterSlip, PrintBodyLine;
      var more := PrintBody(bs[1..]) + rest;
      var lines := [PrintBodyLine(bs[0])] + more;
      assert PrintBody(bs) + rest == lines;
      LeftOverLineRefusedUnlessItSlips(bs[0], more, st);
      if Slips(bs[0]) {
        var st' := AfterSlip(st, bs[0]);
        SlipIsParsed(bs[0], more, st);
        OneLine(PrintBodyLine(bs[0]), more, st, st');
        LeftOvers(bs[1..], rest, st');
        assert AllSlip(bs) <==> AllSlip(bs[1..]);
      } else {
        ParseStops(lines, st);
      }
    }
  }

  /** `k` is the first point of the body where the declared counts are used up. */
  ghost predicate FirstUse(body: seq<BodyLine>, k: nat, olds: nat, news: nat) {
    k <= |body| && Uses(body, k, olds, news) && forall j | 0 <= j < k :: !Uses(body, j, olds, news)
  }

  lemma UsesShift(body: seq<BodyLine>, k: nat, olds: nat, news: nat)
    requires 0 < k <= |body|
    ensures var lessOld := if body[0].Added? || body[0].Note? then 0 else 1;
      var lessNew := if body[0].Deleted? || body[0].Note? then 0 else 1;
      Uses(body, k, olds, news) <==>
        lessOld <= olds && lessNew <= news && Uses(body[1..], k - 1, olds - lessOld, news - lessNew)
  {
    assert body[..k][1..] == body[1..][..k - 1];
  }

  lemma FirstUseShift(body: seq<BodyLine>, k: nat, olds: nat, news: nat)
    requires FirstUse(body, k, olds, news) && k > 0
    ensures var lessOld := if body[0].Added? || body[0].Note? then 0 else 1;
      var lessNew := if body[0].Deleted? || body[0].Note? then 0 else 1;
      lessOld <= olds && lessNew <= news && FirstUse(body[1..], k - 1, olds - lessOld, news - lessNew)
  {
    hide Uses;
    var lessOld := if body[0].Added? || body[0].Note? then 0 else 1;
    var lessNew := if body[0].Deleted? || body[0].Note? then 0 else 1;
    UsesShift(body, k, olds, news);
    var tail, o, n := body[1..], olds - lessOld, news - lessNew;
    forall j | 0 <= j < k - 1
      ensures !Uses(tail, j, o, n)
    {
      UsesShift(body, j + 1, olds, news);
      assert !Uses(body, j + 1, olds, news);
    }
  }

  /** The body loop stops exactly there. */
  lemma {:induction false} ReadsToFirstUse(body: seq<BodyLine>, k: nat, rest: seq<string>, olds: nat, news: nat)
    requires FirstUse(body, k, olds, news)
    ensures ReadHunk(PrintBody(body) + rest, olds, news) == Ok((KindsOf(body[..k]), k))
    decreases |body|
  {
    hide Uses, ReadHunk, FirstUse, PrintBodyLine, KindsOfLine;
    if olds == 0 && news == 0 {
      NoUseIsFirst(body, k, PrintBody(body) + rest);
    } else {
      FirstUseIsLater(body, k, olds, news);
      FirstUseShift(body, k, olds, news);
      var olds' := olds - if body[0].Added? || body[0].Note? then 0 else 1;
      var news' := news - if body[0].Deleted? || body[0].Note? then 0 else 1;
      var more := PrintBody(body[1..]) + rest;
      ReadsToFirstUse(body[1..], k - 1, rest, olds', news');
      ReadsLine(body[0], more, olds, news, olds', news');
      assert PrintBody(body) + rest == [PrintBodyLine(body[0])] + more;
      assert body[..k][1..] == body[1..][..k - 1];
    }
  }

  lemma NoUseIsFirst(body: seq<BodyLine>, k: nat, lines: seq<string>)
    requires FirstUse(body, k, 0, 0)
    ensures ReadHunk(lines, 0, 0) == Ok((KindsOf(body[..k]), k))
  {
    assert Uses(body, 0, 0, 0);
  }

  lemma FirstUseIsLater(body: seq<BodyLine>, k: nat, olds: nat, news: nat)
    requires FirstUse(body, k, olds, news) && (olds > 0 || news > 0)
    ensures 0 < k <= |body|
  {
    assert body[..0] == [];
  }

  lemma {:induction false} SomeFirstUse(body: seq<BodyLine>, n: nat, olds: nat, news: nat) returns (k: nat)
    requires n <= |body| && Uses(body, n, olds, news)
    ensures FirstUse(body, k, olds, news)
  {
    hide Uses;
    if j :| 0 <= j < n && Uses(body, j, olds, news) {
      k := SomeFirstUse(body, j, olds, news);
    } else {
      k := n;
    }
  }

  /** The counts are used up somewhere, and every line after that point slips. */
  ghost predicate Passes(body: seq<BodyLine>, olds: nat, news: nat) {
    exists k: nat :: PassesAt(body, k, olds, news)
  }

  ghost predicate PassesAt(body: seq<BodyLine>, k: nat, olds: nat, news: nat) {
    FirstUse(body, k, olds, news) && AllSlip(body[k..])
  }

  /** The state once the first `k` body lines are read under header `h`. */
  function Marked(st: State, h: Header, read: seq<BodyLine>): (st': State)
    requires Wf(st)
    ensures Wf(st')
  {
    st.(changed := AddMarks(st.changed, st.path, Marks(KindsOf(read), 0, FirstLine(h.start, h.news == 0))))
  }

  lemma ReadUnderHeader(oldStart: nat, h: Header, brief: bool, tail: string, body: seq<BodyLine>, k: nat,
                        rest: seq<string>, st: State)
    requires Wf(st) && st.haveHeader && FirstUse(body, k, h.olds, h.news)
    ensures var line := PrintHeader(oldStart, h, brief, tail);
      ParseLines([line] + PrintBody(body) + rest, st) == ParseLines(PrintBody(body[k..]) + rest, Marked(st, h, body[..k]))
  {
    hide ParseLines, FirstUse, ReadHunk, PrintHeader, ParseHeader, AddMarks, Marks;
    var line := PrintHeader(oldStart, h, brief, tail);
    var after := PrintBody(body) + rest;
    assert k <= |body| by { FirstUseFits(body, k, h.olds, h.news); }
    HeaderLineKind(oldStart, h, brief, tail, st.section.Some?);
    HeaderRoundTrip(oldStart, h, brief, tail);
    ReadsToFirstUse(body, k, rest, h.olds, h.news);
    ParsesAsHunk(line, after, st);
    LeftAfter(line, body, k, rest);
    ParsesOn([line] + after, st, Marked(st, h, body[..k]), k + 1, PrintBody(body[k..]) + rest);
  }

  lemma FirstUseFits(body: seq<BodyLine>, k: nat, olds: nat, news: nat)
    requires FirstUse(body, k, olds, news)
    ensures k <= |body| && SomePrefixUses(body, olds, news)
  {
  }

  lemma UnusedIsRefused(oldStart: nat, h: Header, brief: bool, tail: string, body: seq<BodyLine>, rest: seq<string>, st: State)
    requires Wf(st) && st.haveHeader && EndsBody(rest) && !SomePrefixUses(body, h.olds, h.news)
    ensures ParseLines([PrintHeader(oldStart, h, brief, tail)] + PrintBody(body) + rest, st).Err?
  {
    hide ReadHunk, PrintHeader, ParseHeader, SomePrefixUses;
    var line := PrintHeader(oldStart, h, brief, tail);
    var after := PrintBody(body) + rest;
    HeaderLineKind(oldStart, h, brief, tail, st.section.Some?);
    HeaderRoundTrip(oldStart, h, brief, tail);
    AcceptedIffAPrefixFits(body, rest, h.olds, h.news);
    ParsesAsHunk(line, after, st);
    assert [line] + PrintBody(body) + rest == [line] + after;
    ParseStops([line] + after, st);
  }

  /** A hunk under any header, at any point of a diff where a file is named: what follows it is
      reached exactly when the declared counts are used up somewhere and every line after that
      point slips; otherwise the diff is refused. */
  lemma HunkPassesIffTheRestSlips(oldStart: nat, h: Header, brief: bool, tail: string, body: seq<BodyLine>,
                                  rest: seq<string>, st: State)
    requires Wf(st) && st.haveHeader && EndsBody(rest)
    ensures var all := [PrintHeader(oldStart, h, brief, tail)] + PrintBody(body) + rest;
      && (!Passes(body, h.olds, h.news) ==> ParseLines(all, st).Err?)
      && (forall k: nat | PassesAt(body, k, h.olds, h.news) ::
            ParseLines(all, st) == ParseLines(rest, AfterSlips(Marked(st, h, body[..k]), body[k..])))
      && (ParseLines(all, st).Ok? <==>
            exists k: nat :: PassesAt(body, k, h.olds, h.news)
                             && ParseLines(rest, AfterSlips(Marked(st, h, body[..k]), body[k..])).Ok?)
  {
    hide ParseLines, FirstUse, Marked, SomePrefixUses, AfterSlips, AllSlip, EndsBody;
    var all := [PrintHeader(oldStart, h, brief, tail)] + PrintBody(body) + rest;
    forall k: nat | FirstUse(body, k, h.olds, h.news)
      ensures k <= |body|
      ensures ParseLines(all, st) == ParseLines(PrintBody(body[k..]) + rest, Marked(st, h, body[..k]))
    {
      FirstUseFits(body, k, h.olds, h.news);
      ReadUnderHeader(oldStart, h, brief, tail, body, k, rest, st);
    }
    forall k: nat | PassesAt(body, k, h.olds, h.news)
      ensures ParseLines(all, st) == ParseLines(rest, AfterSlips(Marked(st, h, body[..k]), body[k..]))
    {
      LeftOvers(body[k..], rest, Marked(st, h, body[..k]));
    }
    if !Passes(body, h.olds, h.news) {
      if SomePrefixUses(body, h.olds, h.news) {
        var k := FirstOfSome(body, h.olds, h.news);
        FirstUseFits(body, k, h.olds, h.news);
        assert !PassesAt(body, k, h.olds, h.news);
        LeftOvers(body[k..], rest, Marked(st, h, body[..k]));
      } else {
        UnusedIsRefused(oldStart, h, brief, tail, body, rest, st);
      }
    }
  }

  lemma FirstOfSome(body: seq<BodyLine>, olds: nat, news: nat) returns (k: nat)
    requires SomePrefixUses(body, olds, news)
    ensures FirstUse(body, k, olds, news)
  {
    var n :| 0 <= n <= |body| && Uses(body, n, olds, news);
    k := SomeFirstUse(body, n, olds, news);
  }

  /** A hunk that agrees with its header always passes. */
  lemma AgreeingHunkPasses(body: seq<BodyLine>)
    ensures Passes(body, OldCount(body), NewCount(body))
  {
    assert body[..|body|] == body;
    var k := SomeFirstUse(body, |body|, OldCount(body), NewCount(body));
    CountsSplit(body, k);
    OnlyNotes(body[k..]);
    assert PassesAt(body, k, OldCount(body), NewCount(body));
  }

  lemma {:induction false} CountsSplit(body: seq<BodyLine>, k: nat)
    requires k <= |body|
    ensures OldCount(body) == OldCount(body[..k]) + OldCount(body[k..])
    ensures NewCount(body) == NewCount(body[..k]) + NewCount(body[k..])
  {
    if k == 0 {
      assert body[..0] == [] && body[0..] == body;
    } else {
      CountsSplit(body[1..], k - 1);
      assert body[..k][1..] == body[1..][..k - 1] && body[1..][k - 1..] == body[k..];
    }
  }

  // ---- A diff that slips -------------------------------------------------------------

  /** One file, one hunk that declares one context line. */
  const SHORT := FileDiff("a.rs", "a.rs", [], false, false, "a/a.rs", false, [Hunk(1, 1, [Context("t")], false, "")])

  lemma ShortHunkThenMore()
    ensures Printable(SHORT)
    ensures ParseLines(PrintFile(SHORT) + ["--- x"], INITIAL).Ok?
  {
    hide ParseLines, PrintFile, CollectFile, Close;
    ClosesInitially();
    FileReadsBack(SHORT, ["--- x"], INITIAL, {});
    var changed := CollectFile(INITIAL.changed, SHORT);
    SectionCloses(SHORT, changed, {});
    var st := AtHunks(SHORT, changed, {});
    var line := "--- x";
    assert line[0] == '-' && line[..4] == "--- ";
    NotBinary(line);
    assert KindOf(line, st.section.Some?) == Quiet;
    assert [line] + [] == [line];
    OneLine(line, [], st, st);
    ParseEnds(st);
  }

  lemma ClosesInitially()
    ensures Wf(INITIAL) && Close(INITIAL) == Ok({})
  {
  }

  lemma ShortBodies()
    ensures PrintBody([Context("t")]) == [" t"] && PrintBody([Context("t"), Deleted("-- x")]) == [" t", "--- x"]
    ensures OldCount([Context("t")]) == 1 && NewCount([Context("t")]) == 1
  {
    var one, two := [Context("t")], [Context("t"), Deleted("-- x")];
    assert " " + "t" == " t" && "-" + "-- x" == "--- x";
    assert one[1..] == [] && two[1..] == [Deleted("-- x")] && two[1..][1..] == [];
    assert PrintBody(two[1..]) == ["--- x"];
  }

  lemma ShortHunks()
    ensures PrintHunks(SHORT.hunks) == [PrintHeader(1, Header(1, 1, 1), false, ""), " t"]
  {
    hide PrintHeader, PrintBody, OldCount, NewCount;
    ShortBodies();
    assert SHORT.hunks[1..] == [];
  }

  lemma ShortTargets()
    ensures PrintPreamble(SHORT) == [] && PrintTargets(SHORT) == ["--- a/a.rs", "+++ b/a.rs"]
  {
    assert "--- " + "a/a.rs" == "--- a/a.rs";
    assert "b/" + "a.rs" + "" == "b/a.rs" && "+++ " + "b/a.rs" == "+++ b/a.rs";
  }

  lemma ShortLines()
    ensures PrintFile(SHORT) + ["--- x"] ==
            [GitLine(SHORT), "--- a/a.rs", "+++ b/a.rs", PrintHeader(1, Header(1, 1, 1), false, "")]
            + PrintBody([Context("t"), Deleted("-- x")])
    ensures forall l | l in PrintFile(SHORT) + ["--- x"] :: '\n' !in l
  {
    hide PrintHeader, PrintBody, PrintHunks, PrintPreamble, PrintTargets;
    ShortBodies();
    ShortHunks();
    ShortTargets();
    HeaderIsOneLine(1, Header(1, 1, 1), false, "");
    var header := PrintHeader(1, Header(1, 1, 1), false, "");
    var lines := [GitLine(SHORT), "--- a/a.rs", "+++ b/a.rs", header, " t", "--- x"];
    assert PrintFile(SHORT) + ["--- x"] == lines;
    assert '\n' !in GitLine(SHORT);
  }

  /** A whole diff whose hunk is longer than its header, and which the parser accepts: one
      context line is declared on either side, and a deletion of "-- x" follows it. */
  lemma AnOverlongHunkCanSlip(isSpace: char -> bool)
    requires !isSpace('d')
    ensures var body := [Context("t"), Deleted("-- x")];
      var lines := [GitLine(SHORT), "--- a/a.rs", "+++ b/a.rs", PrintHeader(1, Header(1, 1, 1), false, "")] + PrintBody(body);
      OldCount(body) == 2 && Parse(Unlines(lines), isSpace).Ok?
  {
    hide PrintHeader, ParseLines, Unlines, SplitLines, Parse;
    var lines := PrintFile(SHORT) + ["--- x"];
    ShortHunkThenMore();
    ShortLines();
    LinesRoundTrip(lines);
    GitLineKind(SHORT, false);
    var first := lines[0];
    assert first == GitLine(SHORT) && first[0] == 'd';
    assert !Blank(first, isSpace);
    ParsesNonBlank(Unlines(lines), isSpace);
    var body := [Context("t"), Deleted("-- x")];
    assert body[1..] == [Deleted("-- x")] && body[1..][1..] == [];
  }
}
