/** The mutation gate end to end: a mutant it lets go was on code the change did not touch. */
module MutationGate {
  import opened Wrappers
  import opened Characters
  import opened HunkMarks
  import opened DiffText
  import opened DiffRoundTrip

  type Lines = seq<string>

  // ---- What it means for hunks to turn one file into another -------------------------

  /** The index, in the old and in the new file, of a hunk's first line; an empty side names
      the line before. */
  function OldIndex(h: Hunk): int {
    if OldCount(h.body) == 0 then h.oldStart else h.oldStart - 1
  }

  function NewIndex(h: Hunk): int {
    if NewCount(h.body) == 0 then h.newStart else h.newStart - 1
  }

  ghost predicate BodyApplies(body: seq<BodyLine>, before: Lines, after: Lines, i: nat, j: nat)
    decreases |body|
  {
    if body == [] then true
    else
      var b, rest := body[0], body[1..];
      match b
      case Note(_) => BodyApplies(rest, before, after, i, j)
      case Deleted(t) => i < |before| && before[i] == t && BodyApplies(rest, before, after, i + 1, j)
      case Added(t) => j < |after| && after[j] == t && BodyApplies(rest, before, after, i, j + 1)
      case Context(t) =>
        i < |before| && j < |after| && before[i] == t == after[j] && BodyApplies(rest, before, after, i + 1, j + 1)
      case BlankContext =>
        i < |before| && j < |after| && before[i] == "" == after[j] && BodyApplies(rest, before, after, i + 1, j + 1)
  }

  /** From old line `i` and new line `j` on, the hunks say how `after` differs from `before`;
      between hunks the files agree. */
  ghost predicate Applies(hunks: seq<Hunk>, before: Lines, after: Lines, i: nat, j: nat)
    decreases |hunks|
  {
    && i <= |before| && j <= |after|
    && if hunks == [] then before[i..] == after[j..]
       else
         var h := hunks[0];
         && HunkApplies(h, before, after, i, j)
         && Applies(hunks[1..], before, after, OldIndex(h) + OldCount(h.body), NewIndex(h) + NewCount(h.body))
  }

  ghost predicate HunkApplies(h: Hunk, before: Lines, after: Lines, i: nat, j: nat) {
    var p, q := OldIndex(h), NewIndex(h);
    && i <= p <= |before| && j <= q <= |after| && p - i == q - j
    && before[i..p] == after[j..q]
    && BodyApplies(h.body, before, after, p, q)
  }

  /** New-file lines `first..last` are old-file lines, unchanged and contiguous. */
  ghost predicate UnchangedCopy(before: Lines, after: Lines, first: nat, last: nat)
    requires 1 <= first <= last <= |after|
  {
    exists at :: CopyAt(before, after, first, last, at)
  }

  ghost predicate CopyAt(before: Lines, after: Lines, first: nat, last: nat, at: int)
    requires 1 <= first <= last <= |after|
  {
    var n := last - first + 1;
    0 <= at && at + n <= |before| && before[at..at + n] == after[first - 1..last]
  }

  // ---- Where each new line comes from ------------------------------------------------

  // `origins[k]` is the old line that new line `base + k` copies, or -1 for an added one.

  ghost predicate AddedAreMarked(origins: seq<int>, marks: set<nat>, base: nat) {
    forall k | 0 <= k < |origins| :: origins[k] == -1 ==> base + k + 1 in marks
  }

  ghost predicate OthersAreCopies(origins: seq<int>, base: nat, before: Lines, after: Lines) {
    && base + |origins| <= |after|
    && forall k | 0 <= k < |origins| ::
         origins[k] != -1 ==> 0 <= origins[k] < |before| && before[origins[k]] == after[base + k]
  }

  /** Where the old lines skip, the line before the skip is marked. */
  ghost predicate SkipsAreMarked(origins: seq<int>, marks: set<nat>, base: nat) {
    forall k | 1 <= k < |origins| ::
      origins[k - 1] != -1 && origins[k] != -1 && base + k !in marks ==> origins[k] == origins[k - 1] + 1
  }

  /** The piece takes up at old line `i` and leaves off at `i'`, or its edges are marked. */
  ghost predicate EdgesMeet(origins: seq<int>, marks: set<nat>, base: nat, i: nat, i': nat) {
    var n := |origins|;
    && (n > 0 && origins[0] != -1 && base >= 1 && base !in marks ==> origins[0] == i)
    && (n > 0 && origins[n - 1] != -1 && base + n !in marks ==> origins[n - 1] == i' - 1)
    && (n == 0 && base >= 1 && base !in marks ==> i' == i)
  }

  ghost predicate Piece(origins: seq<int>, marks: set<nat>, base: nat, i: nat, i': nat, before: Lines, after: Lines) {
    && AddedAreMarked(origins, marks, base)
    && OthersAreCopies(origins, base, before, after)
    && SkipsAreMarked(origins, marks, base)
    && EdgesMeet(origins, marks, base, i, i')
  }

  lemma JoinPoints(o1: seq<int>, o2: seq<int>, m1: set<nat>, m2: set<nat>, base: nat, before: Lines, after: Lines)
    requires AddedAreMarked(o1, m1, base) && AddedAreMarked(o2, m2, base + |o1|)
    requires OthersAreCopies(o1, base, before, after) && OthersAreCopies(o2, base + |o1|, before, after)
    ensures AddedAreMarked(o1 + o2, m1 + m2, base) && OthersAreCopies(o1 + o2, base, before, after)
  {
    var o := o1 + o2;
    forall k | 0 <= k < |o|
      ensures o[k] == -1 ==> base + k + 1 in m1 + m2
      ensures o[k] != -1 ==> 0 <= o[k] < |before| && before[o[k]] == after[base + k]
    {
      if k >= |o1| {
        assert o[k] == o2[k - |o1|];
      } else {
        assert o[k] == o1[k];
      }
    }
  }

  lemma JoinSkips(o1: seq<int>, o2: seq<int>, m1: set<nat>, m2: set<nat>, base: nat, i: nat, i1: nat, i2: nat)
    requires SkipsAreMarked(o1, m1, base) && SkipsAreMarked(o2, m2, base + |o1|)
    requires EdgesMeet(o1, m1, base, i, i1) && EdgesMeet(o2, m2, base + |o1|, i1, i2)
    ensures SkipsAreMarked(o1 + o2, m1 + m2, base)
  {
    var o := o1 + o2;
    forall k | 1 <= k < |o| && o[k - 1] != -1 && o[k] != -1 && base + k !in m1 + m2
      ensures o[k] == o[k - 1] + 1
    {
      if k > |o1| {
        assert o[k] == o2[k - |o1|] && o[k - 1] == o2[k - |o1| - 1];
      } else if k == |o1| {
        assert o[k] == o2[0] && o[k - 1] == o1[k - 1];
      } else {
        assert o[k] == o1[k] && o[k - 1] == o1[k - 1];
      }
    }
  }

  lemma JoinEdges(o1: seq<int>, o2: seq<int>, m1: set<nat>, m2: set<nat>, base: nat, i: nat, i1: nat, i2: nat)
    requires EdgesMeet(o1, m1, base, i, i1) && EdgesMeet(o2, m2, base + |o1|, i1, i2)
    ensures EdgesMeet(o1 + o2, m1 + m2, base, i, i2)
  {
    if o1 == [] {
      assert o1 + o2 == o2;
    }
    if o2 == [] {
      assert o1 + o2 == o1;
    }
  }

  lemma Join(o1: seq<int>, o2: seq<int>, m1: set<nat>, m2: set<nat>, base: nat, i: nat, i1: nat, i2: nat,
             before: Lines, after: Lines)
    requires Piece(o1, m1, base, i, i1, before, after) && Piece(o2, m2, base + |o1|, i1, i2, before, after)
    ensures Piece(o1 + o2, m1 + m2, base, i, i2, before, after)
  {
    JoinPoints(o1, o2, m1, m2, base, before, after);
    JoinSkips(o1, o2, m1, m2, base, i, i1, i2);
    JoinEdges(o1, o2, m1, m2, base, i, i1, i2);
  }

  lemma Unmarked(before: Lines, after: Lines, i: nat, j: nat, n: nat) returns (origins: seq<int>)
    requires i + n <= |before| && j + n <= |after| && before[i..i + n] == after[j..j + n]
    ensures |origins| == n && Piece(origins, {}, j, i, i + n, before, after)
  {
    origins := seq(n, k => i + k);
    forall k | 0 <= k < |origins|
      ensures origins[k] != -1 ==> 0 <= origins[k] < |before| && before[origins[k]] == after[j + k]
    {
      assert before[i + k] == before[i..i + n][k] && after[j + k] == after[j..j + n][k];
    }
  }

  /** The hunk's kinds alone, from position `k`: context lines agree on both sides. */
  ghost predicate Aligned(kinds: Kinds, k: nat, before: Lines, after: Lines, i: nat, j: nat)
    requires k <= |kinds|
    decreases |kinds| - k
  {
    k == |kinds| ||
    match kinds[k]
    case '+' => j < |after| && Aligned(kinds, k + 1, before, after, i, j + 1)
    case '-' => i < |before| && Aligned(kinds, k + 1, before, after, i + 1, j)
    case _ => i < |before| && j < |after| && before[i] == after[j] && Aligned(kinds, k + 1, before, after, i + 1, j + 1)
  }

  function Olds(kinds: Kinds, k: nat): nat
    requires k <= |kinds|
    decreases |kinds| - k
  {
    if k == |kinds| then 0 else (if kinds[k] == '+' then 0 else 1) + Olds(kinds, k + 1)
  }

  function News(kinds: Kinds, k: nat): nat
    requires k <= |kinds|
    decreases |kinds| - k
  {
    if k == |kinds| then 0 else (if kinds[k] == '-' then 0 else 1) + News(kinds, k + 1)
  }

  lemma {:induction false} AlignedShift(head: Kinds, kinds: Kinds, k: nat, before: Lines, after: Lines, i: nat, j: nat)
    requires |head| == 1 && k <= |kinds|
    ensures Aligned(head + kinds, k + 1, before, after, i, j) <==> Aligned(kinds, k, before, after, i, j)
    ensures Olds(head + kinds, k + 1) == Olds(kinds, k) && News(head + kinds, k + 1) == News(kinds, k)
    decreases |kinds| - k
  {
    if k < |kinds| {
      assert (head + kinds)[k + 1] == kinds[k];
      AlignedShift(head, kinds, k + 1, before, after, i, j + 1);
      AlignedShift(head, kinds, k + 1, before, after, i + 1, j);
      AlignedShift(head, kinds, k + 1, before, after, i + 1, j + 1);
    }
  }

  lemma AlignedCons(c: char, kinds: Kinds, before: Lines, after: Lines, i: nat, j: nat)
    requires c in {' ', '-', '+'}
    ensures var all: Kinds := [c] + kinds;
      && (c == '-' ==> (Aligned(all, 0, before, after, i, j) <==> i < |before| && Aligned(kinds, 0, before, after, i + 1, j)))
      && (c == '+' ==> (Aligned(all, 0, before, after, i, j) <==> j < |after| && Aligned(kinds, 0, before, after, i, j + 1)))
      && (c == ' ' ==> (Aligned(all, 0, before, after, i, j) <==>
            i < |before| && j < |after| && before[i] == after[j] && Aligned(kinds, 0, before, after, i + 1, j + 1)))
      && Olds(all, 0) == (if c == '+' then 0 else 1) + Olds(kinds, 0)
      && News(all, 0) == (if c == '-' then 0 else 1) + News(kinds, 0)
  {
    var head: Kinds := [c];
    AlignedShift(head, kinds, 0, before, after, i, j + 1);
    AlignedShift(head, kinds, 0, before, after, i + 1, j);
    AlignedShift(head, kinds, 0, before, after, i + 1, j + 1);
    assert (head + kinds)[0] == c;
  }

  lemma {:induction false} BodyAligns(body: seq<BodyLine>, before: Lines, after: Lines, i: nat, j: nat)
    requires BodyApplies(body, before, after, i, j)
    ensures Aligned(KindsOf(body), 0, before, after, i, j)
    ensures Olds(KindsOf(body), 0) == OldCount(body) && News(KindsOf(body), 0) == NewCount(body)
    decreases |body|
  {
    if body != [] {
      hide Aligned, Olds, News;
      var b, rest := body[0], KindsOf(body[1..]);
      var i' := if b.Added? || b.Note? then i else i + 1;
      var j' := if b.Deleted? || b.Note? then j else j + 1;
      BodyAligns(body[1..], before, after, i', j');
      if b.Note? {
        assert "" + rest == rest;
      } else {
        AlignedCons(KindsOfLine(b)[0], rest, before, after, i, j);
        assert [KindsOfLine(b)[0]] == KindsOfLine(b);
      }
    }
  }

  lemma {:induction false} RunAligns(kinds: Kinds, k: nat, e: nat, before: Lines, after: Lines, i: nat, j: nat)
    requires k <= e <= |kinds| && (forall x | k <= x < e :: kinds[x] == '-')
    requires i <= |before| && Aligned(kinds, k, before, after, i, j)
    ensures i + (e - k) <= |before| && Aligned(kinds, e, before, after, i + (e - k), j)
    ensures Olds(kinds, k) == (e - k) + Olds(kinds, e) && News(kinds, k) == News(kinds, e)
    decreases e - k
  {
    if k < e {
      RunAligns(kinds, k + 1, e, before, after, i + 1, j);
    }
  }

  /** A hunk's own marks make a piece of its new lines. */
  lemma {:induction false} HunkPiece(kinds: Kinds, k: nat, before: Lines, after: Lines, i: nat, j: nat)
    returns (origins: seq<int>)
    requires k <= |kinds| && i <= |before| && j <= |after| && Aligned(kinds, k, before, after, i, j)
    ensures |origins| == News(kinds, k)
    ensures Piece(origins, Marks(kinds, k, j + 1), j, i, i + Olds(kinds, k), before, after)
    decreases |kinds| - k
  {
    if k == |kinds| {
      origins := [];
    } else if kinds[k] == '+' {
      var rest := HunkPiece(kinds, k + 1, before, after, i, j + 1);
      Join([-1], rest, {j + 1}, Marks(kinds, k + 1, j + 2), j, i, i, i + Olds(kinds, k), before, after);
      origins := [-1] + rest;
    } else if kinds[k] == ' ' {
      var rest := HunkPiece(kinds, k + 1, before, after, i + 1, j + 1);
      Join([i], rest, {}, Marks(kinds, k + 1, j + 2), j, i, i + 1, i + Olds(kinds, k), before, after);
      assert {} + Marks(kinds, k + 1, j + 2) == Marks(kinds, k + 1, j + 2);
      origins := [i] + rest;
    } else {
      var e := RunEnd(kinds, k);
      RunAligns(kinds, k, e, before, after, i, j);
      var rest := HunkPiece(kinds, e, before, after, i + (e - k), j);
      Join([], rest, RunMarks(kinds, e, j + 1), Marks(kinds, e, j + 1), j, i, i + (e - k), i + Olds(kinds, k), before, after);
      assert [] + rest == rest;
      origins := rest;
    }
  }

  lemma GapAndHunk(h: Hunk, before: Lines, after: Lines, i: nat, j: nat) returns (origins: seq<int>)
    requires HunkApplies(h, before, after, i, j)
    ensures j + |origins| == NewIndex(h) + NewCount(h.body)
    ensures Piece(origins, MarksOf(h), j, i, OldIndex(h) + OldCount(h.body), before, after)
  {
    hide Piece, Aligned, BodyApplies, KindsOf, OldCount, NewCount, Marks;
    var p, q := OldIndex(h), NewIndex(h);
    var gap := Unmarked(before, after, i, j, q - j);
    BodyAligns(h.body, before, after, p, q);
    var body := HunkPiece(KindsOf(h.body), 0, before, after, p, q);
    Join(gap, body, {}, MarksOf(h), j, i, p, p + OldCount(h.body), before, after);
    assert {} + MarksOf(h) == MarksOf(h);
    origins := gap + body;
  }

  lemma Tail(before: Lines, after: Lines, i: nat, j: nat) returns (origins: seq<int>)
    requires i <= |before| && j <= |after| && before[i..] == after[j..]
    ensures |origins| == |after| - j && Piece(origins, {}, j, i, |before|, before, after)
  {
    var n := |after| - j;
    assert |before[i..]| == |after[j..]| == n;
    assert before[i..i + n] == before[i..] && after[j..j + n] == after[j..];
    origins := Unmarked(before, after, i, j, n);
  }

  /** All hunks of a file, and the stretches between them. */
  lemma {:induction false} FilePiece(hunks: seq<Hunk>, before: Lines, after: Lines, i: nat, j: nat)
    returns (origins: seq<int>)
    requires Applies(hunks, before, after, i, j)
    ensures |origins| == |after| - j && Piece(origins, AllMarks(hunks), j, i, |before|, before, after)
    decreases |hunks|
  {
    hide Piece, HunkApplies, MarksOf, OldCount, NewCount;
    if hunks == [] {
      origins := Tail(before, after, i, j);
    } else {
      var h := hunks[0];
      var p', q' := OldIndex(h) + OldCount(h.body), NewIndex(h) + NewCount(h.body);
      var here := GapAndHunk(h, before, after, i, j);
      var rest := FilePiece(hunks[1..], before, after, p', q');
      Join(here, rest, MarksOf(h), AllMarks(hunks[1..]), j, i, p', |before|, before, after);
      origins := here + rest;
    }
  }

  function AllMarks(hunks: seq<Hunk>): set<nat> {
    if hunks == [] then {} else MarksOf(hunks[0]) + AllMarks(hunks[1..])
  }

  lemma {:induction false} OriginsRunOn(origins: seq<int>, marks: set<nat>, first: nat, k: nat)
    requires AddedAreMarked(origins, marks, 0) && SkipsAreMarked(origins, marks, 0)
    requires 1 <= first && first + k <= |origins| && forall l | first <= l <= first + k :: l !in marks
    ensures origins[first - 1] != -1 && origins[first - 1 + k] == origins[first - 1] + k
    ensures origins[first - 1 + k] != -1
  {
    if k > 0 {
      OriginsRunOn(origins, marks, first, k - 1);
    }
  }

  lemma CopyOf(origins: seq<int>, marks: set<nat>, before: Lines, after: Lines, first: nat, k: nat)
    requires Piece(origins, marks, 0, 0, |before|, before, after) && |origins| == |after|
    requires 1 <= first && first + k <= |after| && forall l | first <= l <= first + k :: l !in marks
    ensures 0 <= origins[first - 1] && origins[first - 1] + k < |before|
    ensures before[origins[first - 1] + k] == after[first - 1 + k]
  {
    hide EdgesMeet;
    OriginsRunOn(origins, marks, first, k);
    var n := first - 1 + k;
    assert before[origins[n]] == after[0 + n];
    assert before[origins[first - 1]] == after[0 + (first - 1)];
  }

  lemma CopyFromOrigins(origins: seq<int>, marks: set<nat>, before: Lines, after: Lines, first: nat, last: nat)
    requires Piece(origins, marks, 0, 0, |before|, before, after) && |origins| == |after|
    requires 1 <= first <= last <= |after| && forall l | first <= l <= last :: l !in marks
    ensures UnchangedCopy(before, after, first, last)
  {
    hide Piece;
    var n := last - first + 1;
    var at := origins[first - 1];
    CopyOf(origins, marks, before, after, first, n - 1);
    var a, b := before[at..at + n], after[first - 1..last];
    forall k | 0 <= k < n
      ensures a[k] == b[k]
    {
      CopyOf(origins, marks, before, after, first, k);
    }
    assert a == b;
    assert CopyAt(before, after, first, last, at);
  }

  /** A span without a marked line is an unchanged, contiguous copy of old lines. */
  lemma UnmarkedSpanIsUnchanged(hunks: seq<Hunk>, before: Lines, after: Lines, first: nat, last: nat)
    requires Applies(hunks, before, after, 0, 0) && 1 <= first <= last <= |after|
    requires forall l | first <= l <= last :: l !in AllMarks(hunks)
    ensures UnchangedCopy(before, after, first, last)
  {
    hide Piece, AllMarks, Applies;
    var origins := FilePiece(hunks, before, after, 0, 0);
    CopyFromOrigins(origins, AllMarks(hunks), before, after, first, last);
  }

  // ---- The classifier ----------------------------------------------------------------

  datatype Mutant = Mutant(name: string, package: string, file: string, first: int, last: int)

  predicate OnChangedLine(m: Mutant, pkg: string, changed: Changed) {
    && m.package == pkg && m.file in changed
    && exists l | l in changed[m.file] :: m.first <= l <= m.last
  }

  /** Written out: of this package, in a file of the change, over a changed line. */
  ghost predicate Touched(m: Mutant, pkg: string, changed: Changed) {
    m.package == pkg && exists l :: m.file in changed && l in changed[m.file] && m.first <= l && l <= m.last
  }

  function Hits(pkg: string, changed: Changed, whole: seq<Mutant>): seq<Mutant> {
    if whole == [] then []
    else (if OnChangedLine(whole[0], pkg, changed) then [whole[0]] else []) + Hits(pkg, changed, whole[1..])
  }

  method Overlapping(pkg: string, changed: Changed, whole: seq<Mutant>) returns (hits: seq<Mutant>)
    ensures hits == Hits(pkg, changed, whole)
  {
    hide Hits, OnChangedLine;
    hits := [];
    assert whole[0..] == whole;
    assert [] + Hits(pkg, changed, whole) == Hits(pkg, changed, whole);
    for i := 0 to |whole|
      invariant hits + Hits(pkg, changed, whole[i..]) == Hits(pkg, changed, whole)
    {
      HitsUnfold(pkg, changed, whole, i);
      if OnChangedLine(whole[i], pkg, changed) {
        hits := hits + [whole[i]];
      }
    }
    NoHits(pkg, changed);
    assert whole[|whole|..] == [] && hits + [] == hits;
  }

  lemma OnChangedLineIsTouched(m: Mutant, pkg: string, changed: Changed)
    ensures OnChangedLine(m, pkg, changed) <==> Touched(m, pkg, changed)
  {
  }

  /** The hits are the listed mutants on a changed line, each as often as it is listed. */
  lemma {:induction false} HitsAre(pkg: string, changed: Changed, whole: seq<Mutant>, m: Mutant)
    ensures multiset(Hits(pkg, changed, whole))[m] == if Touched(m, pkg, changed) then multiset(whole)[m] else 0
    ensures m in Hits(pkg, changed, whole) <==> m in whole && Touched(m, pkg, changed)
  {
    hide OnChangedLine, Touched;
    if whole != [] {
      HitsAre(pkg, changed, whole[1..], m);
      OnChangedLineIsTouched(whole[0], pkg, changed);
      assert whole == [whole[0]] + whole[1..];
    }
  }

  lemma HitsUnfold(pkg: string, changed: Changed, whole: seq<Mutant>, i: nat)
    requires i < |whole|
    ensures Hits(pkg, changed, whole[i..])
         == (if OnChangedLine(whole[i], pkg, changed) then [whole[i]] else []) + Hits(pkg, changed, whole[i + 1..])
  {
    assert whole[i..][1..] == whole[i + 1..];
  }

  lemma NoHits(pkg: string, changed: Changed)
    ensures Hits(pkg, changed, []) == []
  {
  }

  datatype Verdict = Run(n: nat) | Skip | Dropped(names: seq<string>) | FoundNone(n: nat) {
    function Exit(): nat {
      if Run? || Skip? then 0 else 1
    }
  }

  function Names(ms: seq<Mutant>): set<string> {
    set m | m in ms :: m.name
  }

  function NamesNotIn(ms: seq<Mutant>, listed: set<string>): seq<string> {
    if ms == [] then []
    else (if ms[0].name in listed then [] else [ms[0].name]) + NamesNotIn(ms[1..], listed)
  }

  function Classify(pkg: string, changed: Changed, whole: seq<Mutant>, indiff: seq<Mutant>): Verdict {
    var hits := Hits(pkg, changed, whole);
    if indiff != [] then
      var dropped := NamesNotIn(hits, Names(indiff));
      if dropped != [] then Dropped(dropped) else Run(|indiff|)
    else if hits != [] then FoundNone(|hits|)
    else Skip
  }

  lemma {:induction false} NamesNotInEmpty(ms: seq<Mutant>, listed: set<string>)
    ensures NamesNotIn(ms, listed) == [] <==> forall m | m in ms :: m.name in listed
  {
    if ms != [] {
      NamesNotInEmpty(ms[1..], listed);
      assert ms[0] in ms;
    }
  }

  /** The gate passes exactly when every mutant on a changed line is in the in-diff listing. */
  lemma PassesIffNothingIsDropped(pkg: string, changed: Changed, whole: seq<Mutant>, indiff: seq<Mutant>)
    ensures Classify(pkg, changed, whole, indiff).Exit() == 0 <==>
            forall m | m in whole && Touched(m, pkg, changed) :: m.name in Names(indiff)
  {
    hide Touched;
    forall m
      ensures m in Hits(pkg, changed, whole) <==> m in whole && Touched(m, pkg, changed)
    {
      HitsAre(pkg, changed, whole, m);
    }
    var hits := Hits(pkg, changed, whole);
    NamesNotInEmpty(hits, Names(indiff));
    if indiff == [] && hits != [] {
      assert hits[0] in hits;
    }
  }

  lemma {:induction false} NamesNotInAre(ms: seq<Mutant>, listed: set<string>, name: string)
    ensures name in NamesNotIn(ms, listed) <==> name !in listed && exists m | m in ms :: m.name == name
  {
    if ms != [] {
      NamesNotInAre(ms[1..], listed, name);
      assert ms == [ms[0]] + ms[1..];
    }
  }

  /** What each verdict says of the listings. */
  lemma VerdictSays(pkg: string, changed: Changed, whole: seq<Mutant>, indiff: seq<Mutant>)
    ensures match Classify(pkg, changed, whole, indiff)
      case Run(n) => n == |indiff| > 0 && forall m | m in whole && Touched(m, pkg, changed) :: m.name in Names(indiff)
      case Skip => indiff == [] && forall m | m in whole :: !Touched(m, pkg, changed)
      case Dropped(names) =>
        && indiff != [] && names != []
        && forall name :: name in names <==>
             name !in Names(indiff) && exists m | m in whole && Touched(m, pkg, changed) :: m.name == name
      case FoundNone(n) =>
        && indiff == [] && (exists m | m in whole :: Touched(m, pkg, changed))
        && exists hits: seq<Mutant> :: n == |hits| && TouchedOf(hits, pkg, changed, whole)
  {
    hide Touched, NamesNotIn, Hits;
    var hits := Hits(pkg, changed, whole);
    forall m
      ensures multiset(hits)[m] == if Touched(m, pkg, changed) then multiset(whole)[m] else 0
      ensures m in hits <==> m in whole && Touched(m, pkg, changed)
    {
      HitsAre(pkg, changed, whole, m);
    }
    assert TouchedOf(hits, pkg, changed, whole);
    NamesNotInEmpty(hits, Names(indiff));
    forall name
      ensures name in NamesNotIn(hits, Names(indiff)) <==> name !in Names(indiff) && exists m | m in hits :: m.name == name
    {
      NamesNotInAre(hits, Names(indiff), name);
    }
    if hits != [] {
      assert hits[0] in hits;
    }
  }

  /** `hits` is the touched part of the listing. */
  ghost predicate TouchedOf(hits: seq<Mutant>, pkg: string, changed: Changed, whole: seq<Mutant>) {
    forall m :: multiset(hits)[m] == if Touched(m, pkg, changed) then multiset(whole)[m] else 0
  }

  // ---- End to end --------------------------------------------------------------------

  type Tree = map<string, Lines>

  /** Section `n` of the diff names `path` as a file that still exists. */
  ghost predicate LiveAt(files: seq<FileDiff>, n: int, path: string) {
    0 <= n < |files| && !files[n].deleted && files[n].newPath == path
  }

  /** What the file of a section was; a new file was empty. */
  function OldLines(f: FileDiff, before: Tree): Lines {
    if f.oldPath in before then before[f.oldPath] else []
  }

  /** The diff says how `after` differs from `before`, and files it does not name are equal. */
  ghost predicate Changes(files: seq<FileDiff>, before: Tree, after: Tree) {
    && (forall n, path | LiveAt(files, n, path) ::
          path in after && Applies(files[n].hunks, OldLines(files[n], before), after[path], 0, 0))
    && (forall path | path in after && !Named(files, path) :: path in before && before[path] == after[path])
  }

  ghost predicate Named(files: seq<FileDiff>, path: string) {
    exists n :: LiveAt(files, n, path)
  }

  /** One use of the gate: a change of the tree, its diff, and the two listings of a package. */
  datatype Use = Use(
    files: seq<FileDiff>, before: Tree, after: Tree, isSpace: char -> bool, pkg: string, whole: seq<Mutant>, indiff: seq<Mutant>)
  {
    function Diff(): string {
      Unlines(PrintFiles(files))
    }

    /** The diff is one git prints, and tells the truth. */
    ghost predicate Proper() {
      && (forall f | f in files :: Printable(f)) && OneLineEach(files) && !isSpace('d')
      && Changes(files, before, after)
    }

    /** A listed mutant of the package that the in-diff listing lacks, at lines that exist. */
    ghost predicate Absent(m: Mutant) {
      && m in whole && m.package == pkg && m.name !in Names(indiff)
      && m.file in after && 1 <= m.first <= m.last <= |after[m.file]|
    }

    predicate ExitsZero() {
      var parsed := Parse(Diff(), isSpace);
      parsed.Ok? && Classify(pkg, parsed.value.0, whole, indiff).Exit() == 0
    }

    /** The span of `m` is an unchanged, contiguous copy of lines of the old file. */
    ghost predicate Untouched(m: Mutant)
      requires Absent(m)
    {
      && (forall n | LiveAt(files, n, m.file) ::
            UnchangedCopy(OldLines(files[n], before), after[m.file], m.first, m.last))
      && (!Named(files, m.file) ==>
            m.file in before && UnchangedCopy(before[m.file], after[m.file], m.first, m.last))
    }
  }

  /** The gate reads changed lines for Rust files alone. */
  ghost predicate Watched(files: seq<FileDiff>, path: string) {
    EndsWith(path, ".rs") || forall n | LiveAt(files, n, path) :: files[n].hunks == []
  }

  lemma SameFileIsUntouched(lines: Lines, first: nat, last: nat)
    requires 1 <= first <= last <= |lines|
    ensures UnchangedCopy(lines, lines, first, last)
  {
    assert lines[first - 1..first - 1 + (last - first + 1)] == lines[first - 1..last];
    assert CopyAt(lines, lines, first, last, first - 1);
  }

  /** Print the change, parse it, and classify. If the gate exits 0, every listed mutant of the
      package that the in-diff listing lacks spans unchanged and contiguous old lines: in Rust
      files, in files the diff names without hunks, and in files it does not name. */
  lemma NoChangedMutantIsSkipped(u: Use, m: Mutant)
    requires u.Proper() && u.Absent(m) && u.ExitsZero() && Watched(u.files, m.file)
    ensures u.Untouched(m)
  {
    hide Parse, PrintFiles, Unlines, Classify, Applies, UnchangedCopy;
    DiffParsesBack(u.files, u.isSpace);
    var changed := Parse(u.Diff(), u.isSpace).value.0;
    forall n | LiveAt(u.files, n, m.file)
      ensures UnchangedCopy(OldLines(u.files[n], u.before), u.after[m.file], m.first, m.last)
    {
      if EndsWith(m.file, ".rs") {
        PassingSpanIsUnchanged(u.files, n, OldLines(u.files[n], u.before), u.after[m.file], changed, u.pkg, u.whole, u.indiff, m);
      } else {
        assert AllMarks(u.files[n].hunks) == {};
        UnmarkedSpanIsUnchanged(u.files[n].hunks, OldLines(u.files[n], u.before), u.after[m.file], m.first, m.last);
      }
    }
    if !Named(u.files, m.file) {
      SameFileIsUntouched(u.after[m.file], m.first, m.last);
    }
  }

  // ---- The exact reach of the promise ------------------------------------------------

  /** One line of a file replaced, and a mutant on it that no in-diff listing has. */
  function Replaced(path: string): Use {
    var hunk := Hunk(1, 1, [Deleted("x"), Added("y")], false, "");
    Use([FileDiff(path, path, [], false, false, "old", false, [hunk])], map[path := ["x"]], map[path := ["y"]],
        _ => false, "p", [OnLineOne(path)], [])
  }

  function OnLineOne(path: string): Mutant {
    Mutant("m", "p", path, 1, 1)
  }

  lemma ReplacedIsOneLineEach(path: string)
    requires '\n' !in path
    ensures OneLineEach(Replaced(path).files)
  {
    hide PrintHeader;
    var f := Replaced(path).files[0];
    var h := f.hunks[0];
    assert h.body[1..] == [Added("y")] && h.body[1..][1..] == [];
    var header := PrintHeader(h.oldStart, HeaderOf(h), h.brief, h.tail);
    HeaderIsOneLine(h.oldStart, HeaderOf(h), h.brief, h.tail);
    assert "+" + "y" == "+y" && "-" + "x" == "-x";
    assert PrintBody(h.body[1..]) == ["+y"];
    assert PrintBody(h.body) == ["-x", "+y"];
    assert f.hunks[1..] == [] && PrintHunks(f.hunks) == [header, "-x", "+y"];
    ReplacedHeads(path);
    assert Replaced(path).files[1..] == [];
    assert PrintFiles(Replaced(path).files) == PrintFile(f);
  }

  lemma ReplacedHeads(path: string)
    requires '\n' !in path
    ensures var f := Replaced(path).files[0];
      && PrintPreamble(f) == [] && '\n' !in GitLine(f)
      && |PrintTargets(f)| == 2 && '\n' !in PrintTargets(f)[0] && '\n' !in PrintTargets(f)[1]
  {
  }

  lemma ReplacedApplies(path: string)
    ensures var u := Replaced(path); Applies(u.files[0].hunks, ["x"], ["y"], 0, 0)
  {
    var h := Replaced(path).files[0].hunks[0];
    assert h.body[1..] == [Added("y")] && h.body[1..][1..] == [];
    assert OldCount(h.body[1..]) == 0 && NewCount(h.body[1..]) == 1;
    assert OldIndex(h) == 0 && NewIndex(h) == 0;
    assert BodyApplies(h.body[1..], ["x"], ["y"], 1, 0);
    assert HunkApplies(h, ["x"], ["y"], 0, 0);
    assert Replaced(path).files[0].hunks[1..] == [];
    assert ["x"][1..] == ["y"][1..];
  }

  lemma ReplacedIsProper(path: string)
    requires path != "" && path[|path| - 1] != '\t' && '\n' !in path
    ensures Replaced(path).Proper() && Replaced(path).Absent(OnLineOne(path))
  {
    hide OneLineEach, Applies, PrintFiles;
    ReplacedIsOneLineEach(path);
    ReplacedApplies(path);
    assert LiveAt(Replaced(path).files, 0, path);
  }

  /** In a file that is not a Rust file, the mutant on the replaced line is let go. */
  lemma AChangedMutantIsSkipped(path: string)
    requires path != "" && path[|path| - 1] != '\t' && '\n' !in path && !EndsWith(path, ".rs")
    ensures var u, m := Replaced(path), OnLineOne(path);
      u.Proper() && u.Absent(m) && u.ExitsZero() && !u.Untouched(m)
  {
    var u, m := Replaced(path), OnLineOne(path);
    ReplacedIsProper(path);
    assert LiveAt(u.files, 0, path);
    assert u.ExitsZero() by {
      hide Parse, PrintFiles, Unlines, Classify, EndsWith;
      OnlyRustFilesAreSeen(u.files, u.isSpace, m, u.pkg);
      PassesIffNothingIsDropped(u.pkg, Parse(u.Diff(), u.isSpace).value.0, u.whole, u.indiff);
    }
    assert !UnchangedCopy(["x"], ["y"], 1, 1) by {
      ReplacedLineDiffers();
    }
  }

  lemma ReplacedLineDiffers()
    ensures !UnchangedCopy(["x"], ["y"], 1, 1)
  {
    var a, b := ["x"], ["y"];
    assert "x"[0] != "y"[0] && a[0..1] == a && b[0..1] == b;
    forall at
      ensures !CopyAt(a, b, 1, 1, at)
    {
    }
  }

  /** Over all uses of the gate, no mutant of a file is let go wrongly exactly when the file is
      a Rust file. */
  lemma PromiseHoldsIffRust(path: string)
    requires path != "" && path[|path| - 1] != '\t' && '\n' !in path
    ensures (forall u: Use, m: Mutant | m.file == path && u.Proper() && u.Absent(m) && u.ExitsZero() :: u.Untouched(m))
       <==> EndsWith(path, ".rs")
  {
    if EndsWith(path, ".rs") {
      forall u: Use, m: Mutant | m.file == path && u.Proper() && u.Absent(m) && u.ExitsZero()
        ensures u.Untouched(m)
      {
        NoChangedMutantIsSkipped(u, m);
      }
    } else {
      AChangedMutantIsSkipped(path);
    }
  }

  lemma PassingSpanIsUnchanged(files: seq<FileDiff>, n: nat, before: Lines, after: Lines, changed: Changed,
                               pkg: string, whole: seq<Mutant>, indiff: seq<Mutant>, m: Mutant)
    requires Reports(changed, files) && Classify(pkg, changed, whole, indiff).Exit() == 0
    requires n < |files| && !files[n].deleted && Applies(files[n].hunks, before, after, 0, 0)
    requires m in whole && m.package == pkg && m.name !in Names(indiff)
    requires m.file == files[n].newPath && EndsWith(m.file, ".rs") && 1 <= m.first <= m.last <= |after|
    ensures UnchangedCopy(before, after, m.first, m.last)
  {
    PassesIffNothingIsDropped(pkg, changed, whole, indiff);
    forall l | m.first <= l <= m.last
      ensures l !in AllMarks(files[n].hunks)
    {
      if l in AllMarks(files[n].hunks) {
        MarkIsReported(files, n, changed, m.file, l);
      }
    }
    UnmarkedSpanIsUnchanged(files[n].hunks, before, after, m.first, m.last);
  }

  lemma MarkIsReported(files: seq<FileDiff>, n: nat, changed: Changed, path: string, l: nat)
    requires Reports(changed, files) && n < |files| && !files[n].deleted
    requires path == files[n].newPath && EndsWith(path, ".rs") && l in AllMarks(files[n].hunks)
    ensures path in changed && l in changed[path]
  {
    var j := SomeHunkMarks(files[n].hunks, l);
    assert HunkAt(files, path, n, j);
  }

  lemma {:induction false} SomeHunkMarks(hunks: seq<Hunk>, l: nat) returns (j: nat)
    requires l in AllMarks(hunks)
    ensures j < |hunks| && l in MarksOf(hunks[j])
  {
    if l in MarksOf(hunks[0]) {
      j := 0;
    } else {
      var k := SomeHunkMarks(hunks[1..], l);
      j := k + 1;
    }
  }

  /** Only Rust files are ever marked: a mutant in any other file is never on a changed line. */
  lemma OnlyRustFilesAreSeen(files: seq<FileDiff>, isSpace: char -> bool, m: Mutant, pkg: string)
    requires (forall f | f in files :: Printable(f)) && OneLineEach(files) && !isSpace('d')
    requires !EndsWith(m.file, ".rs")
    ensures Parse(Unlines(PrintFiles(files)), isSpace).Ok?
    ensures !Touched(m, pkg, Parse(Unlines(PrintFiles(files)), isSpace).value.0)
  {
    DiffParsesBack(files, isSpace);
  }
}
