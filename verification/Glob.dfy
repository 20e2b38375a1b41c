/** The path globs of the coverage tiers: `*` stays inside one segment, `**` takes whole
    segments. What the matcher accepts is compared with a split of the path, and the one place
    where the two part company (a segment that ends in a newline) is pinned down exactly. */
module Glob {

  // ---- Segments ----------------------------------------------------------------------

  function Join(segs: seq<string>): string
    requires |segs| > 0
  {
    if |segs| == 1 then segs[0] else segs[0] + "/" + Join(segs[1..])
  }

  ghost predicate Segments(segs: seq<string>) {
    |segs| > 0 && forall k | 0 <= k < |segs| :: '/' !in segs[k]
  }

  function Split(s: string): (segs: seq<string>)
    ensures Segments(segs) && Join(segs) == s
  {
    if s == "" then [""]
    else if s[0] == '/' then
      var rest := Split(s[1..]);
      assert ([""] + rest)[1..] == rest;
      [""] + rest
    else
      var rest := Split(s[1..]);
      var segs := [[s[0]] + rest[0]] + rest[1..];
      assert segs[1..] == rest[1..];
      segs
  }

  lemma JoinCons(head: string, rest: seq<string>)
    ensures Join([head] + rest) == head + if rest == [] then "" else "/" + Join(rest)
  {
    if rest != [] {
      assert ([head] + rest)[1..] == rest;
      assert head + "/" + Join(rest) == head + ("/" + Join(rest));
    }
  }

  lemma {:induction false} SplitJoin(segs: seq<string>)
    requires Segments(segs)
    ensures Split(Join(segs)) == segs
    decreases |segs|, |segs[0]|
  {
    var s := Join(segs);
    if segs[0] == "" {
      if |segs| > 1 {
        SplitJoin(segs[1..]);
        assert s[1..] == Join(segs[1..]) && segs == [""] + segs[1..];
      }
    } else {
      var less := [segs[0][1..]] + segs[1..];
      assert less[1..] == segs[1..];
      JoinCons(segs[0], segs[1..]);
      JoinCons(segs[0][1..], segs[1..]);
      var tail := if |segs| == 1 then "" else "/" + Join(segs[1..]);
      assert segs == [segs[0]] + segs[1..];
      assert s == segs[0] + tail;
      assert (segs[0] + tail)[1..] == segs[0][1..] + tail;
      SplitJoin(less);
      assert segs[0] == [segs[0][0]] + segs[0][1..] && s[0] == segs[0][0];
    }
  }

  // ---- One segment -------------------------------------------------------------------

  /** The pattern as its regular expression: a star is any run without a slash, the rest is
      literal, and the end anchor also matches before one last newline. */
  predicate SegmentMatches(p: string, f: string)
    decreases |p|, |f|
  {
    if p == "" then f == "" || f == "\n"
    else if p[0] == '*' then SegmentMatches(p[1..], f) || (f != "" && f[0] != '/' && SegmentMatches(p, f[1..]))
    else f != "" && f[0] == p[0] && SegmentMatches(p[1..], f[1..])
  }

  function Stars(p: string): nat {
    if p == "" then 0 else (if p[0] == '*' then 1 else 0) + Stars(p[1..])
  }

  /** The pattern with its stars written out, in order. */
  function Filled(p: string, fills: seq<string>): string
    requires |fills| == Stars(p)
  {
    if p == "" then ""
    else if p[0] == '*' then fills[0] + Filled(p[1..], fills[1..])
    else [p[0]] + Filled(p[1..], fills)
  }

  ghost predicate FilledBy(p: string, f: string, fills: seq<string>) {
    |fills| == Stars(p) && f == Filled(p, fills) && forall k | 0 <= k < |fills| :: '/' !in fills[k]
  }

  /** `f` is `p` with something, never a separator, for each star. */
  ghost predicate Fits(p: string, f: string) {
    exists fills :: FilledBy(p, f, fills)
  }

  lemma FitsEmpty(f: string)
    ensures Fits("", f) <==> f == ""
  {
    assert f == "" ==> FilledBy("", f, []);
  }

  lemma FitsLiteral(p: string, f: string)
    requires p != "" && p[0] != '*'
    ensures Fits(p, f) <==> f != "" && f[0] == p[0] && Fits(p[1..], f[1..])
  {
    if fills :| FilledBy(p, f, fills) {
      assert f[1..] == Filled(p[1..], fills);
      assert FilledBy(p[1..], f[1..], fills);
    }
    if f != "" && f[0] == p[0] && Fits(p[1..], f[1..]) {
      var fills :| FilledBy(p[1..], f[1..], fills);
      assert f == [f[0]] + f[1..];
      assert FilledBy(p, f, fills);
    }
  }

  lemma FitsNothing(p: string, f: string)
    requires p != "" && p[0] == '*' && Fits(p[1..], f)
    ensures Fits(p, f)
  {
    var fills :| FilledBy(p[1..], f, fills);
    assert ([""] + fills)[1..] == fills;
    assert FilledBy(p, f, [""] + fills);
  }

  lemma FitsMore(p: string, f: string, c: char)
    requires p != "" && p[0] == '*' && c != '/' && Fits(p, f)
    ensures Fits(p, [c] + f)
  {
    var fills :| FilledBy(p, f, fills);
    var more := [[c] + fills[0]] + fills[1..];
    assert more[1..] == fills[1..];
    assert [c] + f == more[0] + Filled(p[1..], more[1..]);
    assert FilledBy(p, [c] + f, more);
  }

  lemma FitsLess(p: string, f: string)
    requires p != "" && p[0] == '*' && Fits(p, f)
    ensures Fits(p[1..], f) || (f != "" && f[0] != '/' && Fits(p, f[1..]))
  {
    var fills :| FilledBy(p, f, fills);
    var fill := fills[0];
    if fill == "" {
      assert f == Filled(p[1..], fills[1..]);
      assert FilledBy(p[1..], f, fills[1..]);
    } else {
      var less := [fill[1..]] + fills[1..];
      assert less[1..] == fills[1..];
      assert f[0] == fill[0] && f[1..] == fill[1..] + Filled(p[1..], fills[1..]);
      assert FilledBy(p, f[1..], less);
    }
  }

  /** Ends in a newline that the end anchor may leave out. */
  predicate EndsInNewline(f: string) {
    f != "" && f[|f| - 1] == '\n'
  }

  function Chopped(f: string): string {
    if f == "" then "" else f[..|f| - 1]
  }

  ghost predicate FitsLoosely(p: string, f: string) {
    Fits(p, f) || (EndsInNewline(f) && Fits(p, Chopped(f)))
  }

  lemma ChoppedTail(f: string)
    requires |f| > 1
    ensures EndsInNewline(f[1..]) == EndsInNewline(f) && Chopped(f[1..]) == Chopped(f)[1..] && Chopped(f)[0] == f[0]
    ensures Chopped(f) == [f[0]] + Chopped(f[1..])
  {
  }

  /** The regular expression accepts what fits, and what fits but for a last newline. */
  lemma {:induction false} MatchesIsLoose(p: string, f: string)
    ensures SegmentMatches(p, f) <==> FitsLoosely(p, f)
    decreases |p|, |f|
  {
    hide Fits;
    if p == "" {
      FitsEmpty(f);
      FitsEmpty(Chopped(f));
    } else if p[0] == '*' {
      MatchesIsLoose(p[1..], f);
      LooseStar(p, f);
      if f != "" {
        MatchesIsLoose(p, f[1..]);
      }
    } else {
      LooseLiteral(p, f);
      if f != "" {
        MatchesIsLoose(p[1..], f[1..]);
      }
    }
  }

  lemma LooseLiteral(p: string, f: string)
    requires p != "" && p[0] != '*'
    ensures FitsLoosely(p, f) <==> f != "" && f[0] == p[0] && FitsLoosely(p[1..], f[1..])
  {
    hide Fits;
    FitsLiteral(p, f);
    FitsLiteral(p, Chopped(f));
    if |f| > 1 {
      ChoppedTail(f);
    } else if f == "\n" && p[0] == '\n' {
      assert f[1..] == "";
    }
  }

  lemma LooseStar(p: string, f: string)
    requires p != "" && p[0] == '*'
    ensures FitsLoosely(p, f) <==> FitsLoosely(p[1..], f) || (f != "" && f[0] != '/' && FitsLoosely(p, f[1..]))
  {
    hide Fits;
    StarUnfolds(p, f);
    StarUnfolds(p, Chopped(f));
    if |f| > 1 {
      ChoppedTail(f);
    } else if f == "\n" {
      assert f[1..] == "" == Chopped(f);
    }
  }

  lemma StarUnfolds(p: string, f: string)
    requires p != "" && p[0] == '*'
    ensures Fits(p, f) <==> Fits(p[1..], f) || (f != "" && f[0] != '/' && Fits(p, f[1..]))
  {
    hide Fits;
    if Fits(p, f) {
      FitsLess(p, f);
    }
    if Fits(p[1..], f) {
      FitsNothing(p, f);
    }
    if f != "" && f[0] != '/' && Fits(p, f[1..]) {
      FitsMore(p, f[1..], f[0]);
      assert f == [f[0]] + f[1..];
    }
  }

  // ---- Whole paths -------------------------------------------------------------------

  predicate MatchFrom(psegs: seq<string>, fsegs: seq<string>, pi: nat, fi: nat)
    requires pi <= |psegs| && fi <= |fsegs|
    decreases |psegs| - pi
  {
    if pi == |psegs| then fi == |fsegs|
    else if psegs[pi] == "**" then
      var next := pi + 1;
      exists k: nat | fi <= k <= |fsegs| :: MatchFrom(psegs, fsegs, next, k)
    else fi < |fsegs| && SegmentMatches(psegs[pi], fsegs[fi]) && MatchFrom(psegs, fsegs, pi + 1, fi + 1)
  }

  predicate SegMatch(pattern: string, path: string) {
    MatchFrom(Split(pattern), Split(path), 0, 0)
  }

  /** Pattern segment `i` takes the path segments from `cuts[i]` to `cuts[i + 1]`. */
  ghost predicate Takes(p: string, fsegs: seq<string>, from: nat, to: nat, fits: (string, string) -> bool) {
    if p == "**" then from <= to <= |fsegs| else to == from + 1 && to <= |fsegs| && fits(p, fsegs[from])
  }

  ghost predicate SplitsBy(psegs: seq<string>, fsegs: seq<string>, cuts: seq<nat>, from: nat, fits: (string, string) -> bool) {
    && |cuts| == |psegs| + 1 && cuts[0] == from && cuts[|psegs|] == |fsegs|
    && forall i | 0 <= i < |psegs| :: Takes(psegs[i], fsegs, cuts[i], cuts[i + 1], fits)
  }

  ghost predicate Splits(psegs: seq<string>, fsegs: seq<string>, fits: (string, string) -> bool) {
    exists cuts :: SplitsBy(psegs, fsegs, cuts, 0, fits)
  }

  /** What the glob promises. */
  ghost predicate Accepts(pattern: string, path: string) {
    Splits(Split(pattern), Split(path), (p, f) => Fits(p, f))
  }

  ghost function Loosely(): (string, string) -> bool {
    (p, f) => FitsLoosely(p, f)
  }

  lemma {:induction false} MatchToCuts(psegs: seq<string>, fsegs: seq<string>, pi: nat, fi: nat) returns (cuts: seq<nat>)
    requires pi <= |psegs| && fi <= |fsegs| && MatchFrom(psegs, fsegs, pi, fi)
    ensures SplitsBy(psegs[pi..], fsegs, cuts, fi, Loosely())
    decreases |psegs| - pi
  {
    hide FitsLoosely;
    if pi == |psegs| {
      return [fi];
    }
    var to := fi + 1;
    if psegs[pi] == "**" {
      to :| fi <= to <= |fsegs| && MatchFrom(psegs, fsegs, pi + 1, to);
    } else {
      MatchesIsLoose(psegs[pi], fsegs[fi]);
    }
    var rest := MatchToCuts(psegs, fsegs, pi + 1, to);
    cuts := [fi] + rest;
    CutsCons(psegs[pi], psegs[pi + 1..], fsegs, fi, rest, Loosely());
    assert psegs[pi..] == [psegs[pi]] + psegs[pi + 1..];
  }

  lemma CutsCons(p: string, psegs: seq<string>, fsegs: seq<string>, from: nat, cuts: seq<nat>, fits: (string, string) -> bool)
    requires |cuts| > 0 && Takes(p, fsegs, from, cuts[0], fits) && SplitsBy(psegs, fsegs, cuts, cuts[0], fits)
    ensures SplitsBy([p] + psegs, fsegs, [from] + cuts, from, fits)
  {
    var all, more := [p] + psegs, [from] + cuts;
    forall i | 0 <= i < |all|
      ensures Takes(all[i], fsegs, more[i], more[i + 1], fits)
    {
      if i > 0 {
        assert all[i] == psegs[i - 1] && more[i] == cuts[i - 1] && more[i + 1] == cuts[i - 1 + 1];
      }
    }
  }

  lemma {:induction false} CutsToMatch(psegs: seq<string>, fsegs: seq<string>, cuts: seq<nat>, pi: nat)
    requires SplitsBy(psegs, fsegs, cuts, 0, Loosely()) && pi <= |psegs| && cuts[pi] <= |fsegs|
    ensures MatchFrom(psegs, fsegs, pi, cuts[pi])
    decreases |psegs| - pi
  {
    hide FitsLoosely;
    if pi < |psegs| {
      assert Takes(psegs[pi], fsegs, cuts[pi], cuts[pi + 1], Loosely());
      CutsToMatch(psegs, fsegs, cuts, pi + 1);
      if psegs[pi] != "**" {
        MatchesIsLoose(psegs[pi], fsegs[cuts[pi]]);
      }
    }
  }

  /** The matcher accepts exactly the paths that split, each segment up to a last newline. */
  lemma SegMatchIsSplit(pattern: string, path: string)
    ensures SegMatch(pattern, path) <==> Splits(Split(pattern), Split(path), Loosely())
  {
    var psegs, fsegs := Split(pattern), Split(path);
    if SegMatch(pattern, path) {
      var cuts := MatchToCuts(psegs, fsegs, 0, 0);
      assert psegs[0..] == psegs;
    }
    if cuts :| SplitsBy(psegs, fsegs, cuts, 0, Loosely()) {
      CutsToMatch(psegs, fsegs, cuts, 0);
    }
  }

  lemma SplitsMono(psegs: seq<string>, fsegs: seq<string>, fits: (string, string) -> bool, fits': (string, string) -> bool)
    requires Splits(psegs, fsegs, fits)
    requires forall p, f | f in fsegs && fits(p, f) :: fits'(p, f)
    ensures Splits(psegs, fsegs, fits')
  {
    var cuts :| SplitsBy(psegs, fsegs, cuts, 0, fits);
    forall i | 0 <= i < |psegs|
      ensures Takes(psegs[i], fsegs, cuts[i], cuts[i + 1], fits')
    {
      assert Takes(psegs[i], fsegs, cuts[i], cuts[i + 1], fits);
    }
    assert SplitsBy(psegs, fsegs, cuts, 0, fits');
  }

  /** Nothing the glob promises is missed. */
  lemma AcceptedIsMatched(pattern: string, path: string)
    requires Accepts(pattern, path)
    ensures SegMatch(pattern, path)
  {
    SplitsMono(Split(pattern), Split(path), (p, f) => Fits(p, f), Loosely());
    SegMatchIsSplit(pattern, path);
  }

  // ---- The newline -------------------------------------------------------------------

  function Trimmed(f: string): string {
    if EndsInNewline(f) then Trimmed(Chopped(f)) else f
  }

  /** Some pattern takes this segment without its last newline and not with it: every segment
      that ends in one, except where a literal star stands before the newlines. */
  predicate Slack(f: string) {
    EndsInNewline(f) && (Trimmed(f) == "" || Trimmed(f)[|Trimmed(f)| - 1] != '*')
  }

  function Newlines(m: nat): string {
    seq(m, _ => '\n')
  }

  lemma {:induction false} StarTakesIt(p: string, u: string, m: nat)
    requires Fits(p, u + "*" + Newlines(m))
    ensures Fits(p, u + "*" + Newlines(m + 1))
    decreases |p|, |u|
  {
    hide Fits;
    var f, g := u + "*" + Newlines(m), u + "*" + Newlines(m + 1);
    if p == "" {
      FitsEmpty(f);
    } else if p[0] == '*' {
      FitsLess(p, f);
      if Fits(p[1..], f) {
        StarTakesIt(p[1..], u, m);
        FitsNothing(p, g);
      } else if u != "" {
        assert f[1..] == u[1..] + "*" + Newlines(m);
        StarTakesIt(p, u[1..], m);
        FitsMore(p, u[1..] + "*" + Newlines(m + 1), f[0]);
        assert g == [f[0]] + (u[1..] + "*" + Newlines(m + 1));
      } else {
        assert f[1..] == Newlines(m);
        FitsMore(p, Newlines(m), '\n');
        assert Newlines(m + 1) == ['\n'] + Newlines(m);
        FitsMore(p, Newlines(m + 1), '*');
        assert g == ['*'] + Newlines(m + 1);
      }
    } else {
      FitsLiteral(p, f);
      FitsLiteral(p, g);
      assert f[1..] == u[1..] + "*" + Newlines(m);
      assert g[1..] == u[1..] + "*" + Newlines(m + 1);
      StarTakesIt(p[1..], u[1..], m);
    }
  }

  lemma {:induction false} TrimmedTail(f: string) returns (m: nat)
    ensures f == Trimmed(f) + Newlines(m) && (EndsInNewline(f) <==> m > 0)
    decreases |f|
  {
    if EndsInNewline(f) {
      var k := TrimmedTail(Chopped(f));
      m := k + 1;
      assert f == Chopped(f) + "\n";
      assert Newlines(m) == Newlines(k) + "\n";
    } else {
      m := 0;
    }
  }

  /** Where no pattern could tell, the matcher and the promise agree on the segment. */
  lemma FirmFits(p: string, f: string)
    requires !Slack(f) && FitsLoosely(p, f)
    ensures Fits(p, f)
  {
    hide Fits;
    if !Fits(p, f) {
      var t := Trimmed(f);
      var m := TrimmedTail(f);
      var u := t[..|t| - 1];
      assert t == u + "*";
      assert Chopped(f) == u + "*" + Newlines(m - 1) && f == u + "*" + Newlines(m);
      StarTakesIt(p, u, m - 1);
    }
  }

  /** After the last star. */
  function AfterStar(g: string): (v: string)
    ensures '*' !in v && |v| <= |g| && g[|g| - |v|..] == v
    ensures '*' in g ==> |v| < |g|
    ensures '*' !in g ==> v == g
  {
    if g == "" || g[|g| - 1] == '*' then ""
    else
      var v := AfterStar(g[..|g| - 1]);
      assert g == g[..|g| - 1] + [g[|g| - 1]];
      v + [g[|g| - 1]]
  }

  lemma {:induction false} LiteralFits(p: string, f: string)
    requires '*' !in p
    ensures Fits(p, f) <==> f == p
    decreases |p|
  {
    hide Fits;
    if p == "" {
      FitsEmpty(f);
    } else {
      FitsLiteral(p, f);
      assert p == [p[0]] + p[1..];
      if f != "" {
        assert f == [f[0]] + f[1..];
        LiteralFits(p[1..], f[1..]);
      }
    }
  }

  lemma {:induction false} StarThenLiteral(v: string, f: string)
    requires '*' !in v && '/' !in f
    ensures Fits("*" + v, f) <==> |v| <= |f| && f[|f| - |v|..] == v
    decreases |f|
  {
    hide Fits;
    var p := "*" + v;
    assert p[1..] == v;
    StarUnfolds(p, f);
    LiteralFits(v, f);
    if f != "" {
      StarThenLiteral(v, f[1..]);
      if |v| < |f| {
        assert f[1..][|f| - 1 - |v|..] == f[|f| - |v|..];
      }
    }
  }

  /** A pattern segment that takes `f` only for want of its last newline. */
  function Teller(f: string): string {
    var g := Chopped(f);
    if '*' in g then "*" + AfterStar(g) else g
  }

  lemma {:induction false} ShiftedIsNewlines(v: string)
    requires (v + "\n")[1..] == v
    ensures forall k | 0 <= k < |v| :: v[k] == '\n'
    decreases |v|
  {
    if v != "" {
      var w := v[1..];
      assert (v + "\n")[1..] == w + "\n";
      assert v == w + "\n";
      assert (w + "\n")[1..] == w;
      ShiftedIsNewlines(w);
    }
  }

  lemma {:induction false} TrimmedOf(u: string, v: string)
    requires u != "" && u[|u| - 1] == '*' && forall k | 0 <= k < |v| :: v[k] == '\n'
    ensures Trimmed(u + v) == u
    decreases |v|
  {
    if v == "" {
      assert u + v == u;
    } else {
      assert Chopped(u + v) == u + v[..|v| - 1];
      TrimmedOf(u, v[..|v| - 1]);
    }
  }

  /** A tail that is also the tail one newline on is newlines, back to the star. */
  lemma TailRepeats(f: string, g: string, v: string)
    requires f == g + "\n" && '*' in g && v == AfterStar(g) && f[|f| - |v|..] == v
    ensures !Slack(f)
  {
    hide Trimmed, AfterStar;
    var u := g[..|g| - |v|];
    assert |v| <= |g|;
    assert g == u + v && f == u + (v + "\n");
    assert f[|f| - |v|..] == (v + "\n")[1..];
    ShiftedIsNewlines(v);
    StarBeforeTail(g);
    TrimmedOf(u, v + "\n");
  }

  lemma TellerTells(f: string)
    requires Slack(f) && '/' !in f
    ensures Fits(Teller(f), Chopped(f)) && !Fits(Teller(f), f) && Teller(f) != "**" && '/' !in Teller(f)
  {
    hide Fits, Trimmed;
    var g := Chopped(f);
    assert f == g + "\n";
    if '*' in g {
      var v := AfterStar(g);
      assert Teller(f)[1..] == v && "**"[1..] == "*";
      StarThenLiteral(v, g);
      StarThenLiteral(v, f);
      if f[|f| - |v|..] == v {
        TailRepeats(f, g, v);
      }
    } else {
      LiteralFits(g, g);
      LiteralFits(g, f);
    }
  }

  lemma {:induction false} StarBeforeTail(g: string)
    requires '*' in g
    ensures var n := |g| - |AfterStar(g)|; n > 0 && g[n - 1] == '*'
    decreases |g|
  {
    if g[|g| - 1] != '*' {
      assert g == g[..|g| - 1] + [g[|g| - 1]];
      StarBeforeTail(g[..|g| - 1]);
    }
  }

  lemma StarFitsAll(f: string)
    requires '/' !in f
    ensures Fits("*", f)
  {
    hide Fits;
    assert "*" == "*" + "";
    assert f[|f|..] == "";
    StarThenLiteral("", f);
  }

  /** Without a double star, segments are taken one by one. */
  lemma {:induction false} OneByOne(psegs: seq<string>, fsegs: seq<string>, cuts: seq<nat>, fits: (string, string) -> bool, k: nat)
    requires "**" !in psegs && SplitsBy(psegs, fsegs, cuts, 0, fits) && k <= |psegs|
    ensures cuts[k] == k
  {
    if k > 0 {
      OneByOne(psegs, fsegs, cuts, fits, k - 1);
      assert Takes(psegs[k - 1], fsegs, cuts[k - 1], cuts[k - 1 + 1], fits);
    }
  }

  lemma EachFits(psegs: seq<string>, fsegs: seq<string>, cuts: seq<nat>, fits: (string, string) -> bool, k: nat)
    requires "**" !in psegs && SplitsBy(psegs, fsegs, cuts, 0, fits) && k < |psegs|
    ensures k < |fsegs| && fits(psegs[k], fsegs[k])
  {
    OneByOne(psegs, fsegs, cuts, fits, k);
    assert Takes(psegs[k], fsegs, cuts[k], cuts[k + 1], fits);
  }

  /** A double-star-free pattern that the path splits along loosely but not strictly. */
  lemma ToldApart(psegs: seq<string>, fsegs: seq<string>, k: nat)
    requires "**" !in psegs && k < |psegs| == |fsegs| && !Fits(psegs[k], fsegs[k])
    requires forall i | 0 <= i < |psegs| :: FitsLoosely(psegs[i], fsegs[i])
    ensures Splits(psegs, fsegs, Loosely()) && !Splits(psegs, fsegs, (p, f) => Fits(p, f))
  {
    hide Fits, FitsLoosely;
    var cuts := seq(|psegs| + 1, i => i);
    forall i | 0 <= i < |psegs|
      ensures Takes(psegs[i], fsegs, cuts[i], cuts[i + 1], Loosely())
    {
      assert FitsLoosely(psegs[i], fsegs[i]) && psegs[i] in psegs;
    }
    assert SplitsBy(psegs, fsegs, cuts, 0, Loosely());
    var fits := (p, f) => Fits(p, f);
    if cuts' :| SplitsBy(psegs, fsegs, cuts', 0, fits) {
      EachFits(psegs, fsegs, cuts', fits, k);
    }
  }

  lemma SlackIsTold(path: string, k: nat) returns (pattern: string)
    requires k < |Split(path)| && Slack(Split(path)[k])
    ensures SegMatch(pattern, path) && !Accepts(pattern, path)
  {
    hide Fits, SegMatch, Slack, Teller, Splits;
    var fsegs := Split(path);
    var n := |fsegs|;
    var psegs := seq(n, i requires 0 <= i < n => if i == k then Teller(fsegs[k]) else "*");
    TellerTells(fsegs[k]);
    SlackEnds(fsegs[k]);
    forall i | 0 <= i < n
      ensures FitsLoosely(psegs[i], fsegs[i])
    {
      StarFitsAll(fsegs[i]);
    }
    pattern := Join(psegs);
    SplitJoin(psegs);
    ToldApart(psegs, fsegs, k);
    SegMatchIsSplit(pattern, path);
  }

  lemma SlackEnds(f: string)
    requires Slack(f)
    ensures EndsInNewline(f)
  {
  }

  /** On a path the matcher is the promise, for every pattern, exactly when no segment of it
      is slack; a path without newlines never is. */
  lemma AgreesIffNoSegmentIsSlack(path: string)
    ensures (forall pattern :: SegMatch(pattern, path) <==> Accepts(pattern, path))
       <==> (forall k | 0 <= k < |Split(path)| :: !Slack(Split(path)[k]))
  {
    hide SegMatch, Accepts;
    if k :| 0 <= k < |Split(path)| && Slack(Split(path)[k]) {
      var pattern := SlackIsTold(path, k);
    } else {
      forall pattern
        ensures SegMatch(pattern, path) <==> Accepts(pattern, path)
      {
        FirmPath(pattern, path);
      }
    }
  }

  lemma FirmPath(pattern: string, path: string)
    requires forall k | 0 <= k < |Split(path)| :: !Slack(Split(path)[k])
    ensures SegMatch(pattern, path) <==> Accepts(pattern, path)
  {
    hide Fits;
    if Accepts(pattern, path) {
      AcceptedIsMatched(pattern, path);
    }
    if SegMatch(pattern, path) {
      SegMatchIsSplit(pattern, path);
      forall p, f | f in Split(path) && Loosely()(p, f)
        ensures Fits(p, f)
      {
        FirmFits(p, f);
      }
      SplitsMono(Split(pattern), Split(path), Loosely(), (p, f) => Fits(p, f));
    }
  }

  /** A name with a newline at its end is taken for the name without it. */
  lemma ANewlineSlips()
    ensures SegMatch("a", "a\n") && !Accepts("a", "a\n")
  {
    var fsegs := Split("a\n");
    assert "a\n"[1..] == "\n" && "\n"[1..] == "";
    assert Split("") == [""] && Split("\n") == ["\n"] && fsegs == ["a\n"];
    assert "a"[1..] == "";
    assert Split("a") == ["a"];
    assert SegmentMatches("", "\n");
    assert MatchFrom(["a"], ["a\n"], 1, 1);
    if Accepts("a", "a\n") {
      var fits := (p, f) => Fits(p, f);
      var cuts :| SplitsBy(["a"], ["a\n"], cuts, 0, fits);
      assert Takes("a", ["a\n"], cuts[0], cuts[0 + 1], fits);
      LiteralFits("a", "a\n");
    }
  }
}
