/** The two worklists of the gates: packages that depend on a change, and features that a
    build turns on. Both end with the least closed set, in whatever order they pop. */
module Closures {
  import opened Wrappers
  import opened Characters

  // ---- Least closed sets -------------------------------------------------------------

  ghost predicate Closed<T(!new)>(s: set<T>, next: T -> set<T>) {
    forall x | x in s :: next(x) <= s
  }

  ghost predicate Least<T(!new)>(s: set<T>, start: set<T>, next: T -> set<T>) {
    && start <= s && Closed(s, next)
    && forall t: set<T> | start <= t && Closed(t, next) :: s <= t
  }

  /** A walk from somewhere in `start`, each node a successor of the one before. */
  ghost predicate Walk<T(!new)>(path: seq<T>, start: set<T>, next: T -> set<T>) {
    && |path| > 0 && path[0] in start
    && forall k | 0 < k < |path| :: path[k] in next(path[k - 1])
  }

  ghost predicate Reached<T(!new)>(x: T, start: set<T>, next: T -> set<T>) {
    exists path :: Walk(path, start, next) && path[|path| - 1] == x
  }

  lemma LeastIsUnique<T(!new)>(s: set<T>, t: set<T>, start: set<T>, next: T -> set<T>)
    requires Least(s, start, next) && Least(t, start, next)
    ensures s == t
  {
  }

  lemma {:induction false} WalksStayInside<T(!new)>(path: seq<T>, s: set<T>, start: set<T>, next: T -> set<T>)
    requires Walk(path, start, next) && start <= s && Closed(s, next)
    ensures path[|path| - 1] in s
    decreases |path|
  {
    if |path| > 1 {
      WalksStayInside(path[..|path| - 1], s, start, next);
    }
  }

  lemma ReachGoesOn<T(!new)>(x: T, y: T, start: set<T>, next: T -> set<T>)
    requires Reached(x, start, next) && y in next(x)
    ensures Reached(y, start, next)
  {
    var path :| Walk(path, start, next) && path[|path| - 1] == x;
    assert Walk(path + [y], start, next);
  }

  /** The least closed set holds exactly what some walk reaches, cycles included. */
  lemma LeastIsReachable<T(!new)>(s: set<T>, start: set<T>, next: T -> set<T>)
    requires Least(s, start, next)
    ensures forall x :: x in s <==> Reached(x, start, next)
  {
    var r := set x | x in s && Reached(x, start, next);
    forall x | x in start
      ensures x in r
    {
      assert Walk([x], start, next);
    }
    forall x, y | x in r && y in next(x)
      ensures y in r
    {
      ReachGoesOn(x, y, start, next);
    }
    assert Closed(r, next);
    forall x | Reached(x, start, next)
      ensures x in s
    {
      var path :| Walk(path, start, next) && path[|path| - 1] == x;
      WalksStayInside(path, s, start, next);
    }
  }

  // ---- What both worklists keep ------------------------------------------------------

  ghost function Range<T(!new)>(q: seq<T>): set<T> {
    set x | x in q
  }

  /** Everything held is needed, and what is held but not closed yet is still pending. */
  ghost predicate Progress<T(!new)>(held: set<T>, pending: seq<T>, start: set<T>, next: T -> set<T>) {
    && start <= held + Range(pending)
    && (forall x | x in held && x !in pending :: next(x) <= held + Range(pending))
    && forall t: set<T> | start <= t && Closed(t, next) :: held + Range(pending) <= t
  }

  lemma RangeSplits<T(!new)>(q: seq<T>)
    requires |q| > 0
    ensures Range(q) == Range(q[..|q| - 1]) + {q[|q| - 1]}
  {
    assert q == q[..|q| - 1] + [q[|q| - 1]];
  }

  lemma RangePush<T(!new)>(q: seq<T>, x: T)
    ensures Range(q + [x]) == Range(q) + {x}
  {
    var r := q + [x];
    assert r[..|r| - 1] == q;
    RangeSplits(r);
  }

  method ListOf(s: set<string>) returns (q: seq<string>)
    ensures Range(q) == s
  {
    q := [];
    var left := s;
    while left != {}
      invariant left <= s && Range(q) == s - left
      decreases |left|
    {
      var x :| x in left;
      RangePush(q, x);
      q := q + [x];
      left := left - {x};
    }
  }

  // ---- Packages ----------------------------------------------------------------------

  type Graph = map<string, set<string>>

  /** Every package has an entry, and only packages depend on packages. */
  ghost predicate WellFormed(reverse: Graph) {
    forall p | p in reverse :: reverse[p] <= reverse.Keys
  }

  function Successors(reverse: Graph): string -> set<string> {
    p => if p in reverse then reverse[p] else {}
  }

  /** One popped package: whichever dependents are new are selected and become pending. */
  method TakeDependents(found: set<string>, selected: set<string>, pending: seq<string>)
    returns (selected': set<string>, pending': seq<string>)
    requires found !! selected
    ensures selected' == selected + found && Range(pending') == Range(pending) + found
    ensures found == {} ==> pending' == pending
  {
    hide Range;
    selected', pending' := selected, pending;
    var left := found;
    while left != {}
      invariant selected' + left == selected + found
      invariant Range(pending') + left == Range(pending) + found
      invariant found == {} ==> left == {} && pending' == pending
      decreases |left|
    {
      var dependent :| dependent in left;
      RangePush(pending', dependent);
      selected' := selected' + {dependent};
      pending' := pending' + [dependent];
      left := left - {dependent};
    }
  }

  method Dependents(changed: set<string>, reverse: Graph) returns (selected: set<string>)
    requires WellFormed(reverse) && changed <= reverse.Keys
    ensures Least(selected, changed, Successors(reverse)) && selected <= reverse.Keys
  {
    hide Least, Progress, Range;
    selected := changed;
    var pending := ListOf(changed);
    StartsPending(changed, pending, Successors(reverse));
    ghost var next := Successors(reverse);
    while pending != []
      invariant changed <= selected <= reverse.Keys && Range(pending) <= selected
      invariant Progress(selected, pending, changed, next)
      decreases |reverse.Keys - selected|, |pending|
    {
      var last := |pending| - 1;
      var p := pending[last];
      RangeSplits(pending);
      ghost var before, was := selected, pending;
      var found := reverse[p] - selected;
      selected, pending := TakeDependents(found, selected, pending[..last]);
      assert selected == before + next(p);
      Shrinks(reverse.Keys, before, selected);
      PopKeeps(before, was, selected, pending, changed, next);
    }
    EmptyIsClosed(selected, changed, next);
  }

  lemma StartsPending<T(!new)>(start: set<T>, pending: seq<T>, next: T -> set<T>)
    requires Range(pending) == start
    ensures Progress(start, pending, start, next)
  {
  }

  lemma Shrinks(all: set<string>, before: set<string>, after: set<string>)
    requires before <= after <= all
    ensures |all - after| <= |all - before|
    ensures before < after ==> |all - after| < |all - before|
  {
    SubsetIsSmaller(all - after, all - before);
    if before < after {
      var x :| x in after && x !in before;
      SubsetIsSmaller(all - after, all - before - {x});
    }
  }

  lemma {:induction false} SubsetIsSmaller(a: set<string>, b: set<string>)
    requires a <= b
    ensures |a| <= |b|
    decreases a
  {
    if x :| x in a {
      SubsetIsSmaller(a - {x}, b - {x});
    }
  }

  lemma PopKeeps<T(!new)>(held: set<T>, pending: seq<T>, held': set<T>, pending': seq<T>, start: set<T>, next: T -> set<T>)
    requires Progress(held, pending, start, next) && |pending| > 0
    requires var x := pending[|pending| - 1]; x in held && held' == held + next(x)
    requires Range(pending') == Range(pending[..|pending| - 1]) + (held' - held)
    ensures Progress(held', pending', start, next)
  {
    var x := pending[|pending| - 1];
    RangeSplits(pending);
    var rest := pending[..|pending| - 1];
    assert x in pending;
    forall y | y in held' && y !in pending'
      ensures next(y) <= held' + Range(pending')
    {
      assert y !in Range(pending');
      if y != x {
        assert y in held && y !in Range(pending);
      }
    }
    forall t: set<T> | start <= t && Closed(t, next)
      ensures held' + Range(pending') <= t
    {
      assert x in Range(pending) && x in held + Range(pending);
      assert next(x) <= t;
    }
  }

  lemma EmptyIsClosed<T(!new)>(held: set<T>, start: set<T>, next: T -> set<T>)
    requires Progress(held, [], start, next)
    ensures Least(held, start, next)
  {
    assert Range<T>([]) == {};
  }

  // ---- The selection of a change -----------------------------------------------------

  const DOCS: set<string> := {
    "README.md", "CONTRIBUTING.md", "CODE_OF_CONDUCT.md", "SECURITY.md", "AGENTS.md", "CLAUDE.md", "LICENSE",
    "packaging/README.md", "packaging/rpm/README.md", "packaging/deb/README.md", "packaging/macos/README.md",
    "packaging/isolation-contract.md", "ci/hooks/README.md", "deploy/vault-pki/README.md"}

  predicate DocsOnly(path: string) {
    || path in DOCS
    || ((StartsWith(path, "design/") || StartsWith(path, "docs/"))
        && (EndsWith(path, ".md") || EndsWith(path, ".png") || EndsWith(path, ".svg")))
  }

  /** What a path is called in its own directory. */
  function BaseName(path: string): string {
    if path == "" then "" else if path[|path| - 1] == '/' then "" else BaseName(path[..|path| - 1]) + [path[|path| - 1]]
  }

  /** It is what follows the last slash, or all of a path without one. */
  lemma {:induction false} BaseNameFollowsTheLastSlash(path: string)
    ensures '/' !in BaseName(path)
    ensures path == BaseName(path) || exists dir :: path == dir + "/" + BaseName(path)
  {
    if path != "" && path[|path| - 1] != '/' {
      var front, last := path[..|path| - 1], path[|path| - 1];
      assert path == front + [last];
      BaseNameFollowsTheLastSlash(front);
      if front != BaseName(front) {
        var dir :| front == dir + "/" + BaseName(front);
        assert path == dir + "/" + BaseName(path);
      }
    } else if path != "" {
      assert path == path[..|path| - 1] + "/" + "";
    }
  }

  /** A changed file the selection cannot pin on one package. */
  predicate Shared(path: string, owner: string -> Option<string>) {
    owner(path).None? || BaseName(path) in {"Cargo.toml", "build.rs"} || !EndsWith(path, ".rs")
  }

  datatype Choice = Everything | Nothing | Only(packages: set<string>)

  /** What the gate is told: whether to build, and which packages to mutate. */
  datatype Selection = Selection(build: bool, mutants: set<string>)

  ghost function Owners(paths: seq<string>, owner: string -> Option<string>): set<string> {
    set k | 0 <= k < |paths| && !DocsOnly(paths[k]) && owner(paths[k]).Some? :: owner(paths[k]).value
  }

  /** Said of the path alone: no package owns it, it is a manifest or a build script wherever
      it lies, or it is no Rust file. */
  ghost predicate Unpinned(path: string, owner: string -> Option<string>) {
    || owner(path).None? || !EndsWith(path, ".rs")
    || path in {"Cargo.toml", "build.rs"} || EndsWith(path, "/Cargo.toml") || EndsWith(path, "/build.rs")
  }

  lemma NamedAt(path: string, name: string)
    requires '/' !in name
    ensures BaseName(path) == name <==> path == name || EndsWith(path, "/" + name)
  {
    hide BaseName;
    BaseNameFollowsTheLastSlash(path);
    var base := BaseName(path);
    if EndsWith(path, "/" + name) {
      TailIsUnique(path, name, base);
    }
  }

  lemma NoLaterSlash(path: string, n: nat)
    requires n < |path| && '/' !in path[n + 1..]
    ensures forall k | n < k < |path| :: path[k] != '/'
  {
    forall k | n < k < |path|
      ensures path[k] != '/'
    {
      assert path[n + 1..][k - n - 1] == path[k];
    }
  }

  lemma TailIsUnique(path: string, a: string, b: string)
    requires '/' !in a && EndsWith(path, "/" + a)
    requires '/' !in b && (path == b || exists dir :: path == dir + "/" + b)
    ensures a == b
  {
    var n, m := |path| - |a| - 1, |path| - |b| - 1;
    assert path[n..] == "/" + a && path[n] == '/';
    assert path != b;
    var dir :| path == dir + "/" + b;
    assert |dir| == m && path[m] == '/';
    assert path[n + 1..] == a && path[m + 1..] == b;
    NoLaterSlash(path, n);
    NoLaterSlash(path, m);
  }

  lemma SharedIsUnpinned(path: string, owner: string -> Option<string>)
    ensures Shared(path, owner) <==> Unpinned(path, owner)
  {
    hide BaseName;
    NamedAt(path, "Cargo.toml");
    NamedAt(path, "build.rs");
    assert "/" + "Cargo.toml" == "/Cargo.toml" && "/" + "build.rs" == "/build.rs";
  }

  ghost predicate SomeShared(paths: seq<string>, owner: string -> Option<string>) {
    exists k | 0 <= k < |paths| :: !DocsOnly(paths[k]) && Unpinned(paths[k], owner)
  }

  /** The packages a change selects, from its paths. An empty diff or a graph that is not
      certain selects everything. */
  method Choose(paths: seq<string>, uncertain: bool, owner: string -> Option<string>, reverse: Graph)
    returns (r: Choice)
    requires WellFormed(reverse) && forall p | owner(p).Some? :: owner(p).value in reverse
    ensures r.Everything? <==> uncertain || paths == [] || SomeShared(paths, owner)
    ensures r.Nothing? <==> !uncertain && paths != [] && forall p | p in paths :: DocsOnly(p)
    ensures r.Only? ==> r.packages <= reverse.Keys && Least(r.packages, Owners(paths, owner), Successors(reverse))
  {
    if uncertain || paths == [] {
      return Everything;
    }
    var changed := {};
    for k := 0 to |paths|
      invariant changed <= reverse.Keys && changed == Owners(paths[..k], owner)
      invariant !SomeShared(paths[..k], owner)
      invariant changed == {} <==> forall p | p in paths[..k] :: DocsOnly(p)
    {
      ghost var seen := paths[..k];
      ghost var more := paths[..k + 1];
      assert more == seen + [paths[k]];
      if !DocsOnly(paths[k]) {
        SharedIsUnpinned(paths[k], owner);
        if Shared(paths[k], owner) {
          assert paths[k] in paths;
          return Everything;
        }
        changed := changed + {owner(paths[k]).value};
      }
      OwnersGrow(seen, paths[k], owner);
    }
    assert paths[..|paths|] == paths;
    if changed == {} {
      return Nothing;
    }
    var selected := Dependents(changed, reverse);
    return Only(selected);
  }

  lemma OwnersGrow(paths: seq<string>, path: string, owner: string -> Option<string>)
    ensures Owners(paths + [path], owner)
         == Owners(paths, owner) + (if !DocsOnly(path) && owner(path).Some? then {owner(path).value} else {})
    ensures SomeShared(paths + [path], owner) <==> SomeShared(paths, owner) || (!DocsOnly(path) && Unpinned(path, owner))
  {
    var all := paths + [path];
    assert all[|paths|] == path && forall k | 0 <= k < |paths| :: all[k] == paths[k];
    if SomeShared(paths, owner) {
      var k :| 0 <= k < |paths| && !DocsOnly(paths[k]) && Unpinned(paths[k], owner);
      assert !DocsOnly(all[k]) && Unpinned(all[k], owner);
    }
    if !DocsOnly(path) && Unpinned(path, owner) {
      assert !DocsOnly(all[|paths|]) && Unpinned(all[|paths|], owner);
    }
    forall x | x in Owners(paths, owner)
      ensures x in Owners(all, owner)
    {
      var k :| 0 <= k < |paths| && !DocsOnly(paths[k]) && owner(paths[k]).Some? && owner(paths[k]).value == x;
      assert !DocsOnly(all[k]) && owner(all[k]).value == x;
    }
  }

  /** The diff is not at hand, or does not pin every change on a package. */
  ghost predicate Widens(history: Option<seq<string>>, uncertain: bool, owner: string -> Option<string>) {
    history.None? || uncertain || history.value == [] || SomeShared(history.value, owner)
  }

  /** The whole selection. `history` is the changed paths, when they could be read; the
      packages to mutate must be some, and all of them packages. */
  method Select(mutants: seq<string>, history: Option<seq<string>>, uncertain: bool, owner: string -> Option<string>,
                reverse: Graph)
    returns (r: Result<Selection, string>)
    requires WellFormed(reverse) && forall p | owner(p).Some? :: owner(p).value in reverse
    ensures r.Err? <==> mutants == [] || exists m | m in mutants :: m !in reverse
    ensures r.Ok? && Widens(history, uncertain, owner) ==> r.value == Selection(true, Range(mutants))
    ensures r.Ok? && !Widens(history, uncertain, owner) ==>
              if forall p | p in history.value :: DocsOnly(p) then r.value == Selection(false, {})
              else r.value.build && exists packages ::
                     Least(packages, Owners(history.value, owner), Successors(reverse)) && r.value.mutants == Range(mutants) * packages
  {
    if mutants == [] || exists m | m in mutants :: m !in reverse {
      return Err("empty or unknown mutation package authority");
    }
    var all := set m | m in mutants;
    if history.None? {
      return Ok(Selection(true, all));
    }
    var choice := Choose(history.value, uncertain, owner, reverse);
    match choice
    case Everything => return Ok(Selection(true, all));
    case Nothing => return Ok(Selection(false, {}));
    case Only(packages) => return Ok(Selection(true, all * packages));
  }

  /** A package left out depends, through any chain, on no package that owns a changed file. */
  lemma LeftOutIsUntouched(mutants: seq<string>, packages: set<string>, paths: seq<string>, owner: string -> Option<string>,
                           reverse: Graph, m: string)
    requires Least(packages, Owners(paths, owner), Successors(reverse))
    requires m in mutants && m !in Range(mutants) * packages
    ensures !Reached(m, Owners(paths, owner), Successors(reverse))
  {
    LeastIsReachable(packages, Owners(paths, owner), Successors(reverse));
  }

  /** Two runs of the worklist, whatever they pop first, end with one set. */
  lemma PopOrderDoesNotMatter(changed: set<string>, reverse: Graph, a: set<string>, b: set<string>)
    requires Least(a, changed, Successors(reverse)) && Least(b, changed, Successors(reverse))
    ensures a == b && forall p :: p in a <==> Reached(p, changed, Successors(reverse))
  {
    LeastIsUnique(a, b, changed, Successors(reverse));
    LeastIsReachable(a, changed, Successors(reverse));
  }

  // ---- Features ----------------------------------------------------------------------

  type Table = map<string, seq<string>>

  /** What stands before the first slash. */
  function Head(entry: string): (h: string)
    ensures h <= entry && '/' !in h
    ensures h == entry <==> '/' !in entry
    ensures h != entry ==> entry[|h|] == '/'
  {
    if entry == "" || entry[0] == '/' then "" else [entry[0]] + Head(entry[1..])
  }

  /** An entry turns its head on unless it names a dependency or is weak; `crate/feature`
      only when the crate is itself a feature. */
  predicate TurnsOn(table: Table, entry: string) {
    && !StartsWith(entry, "dep:") && !EndsWith(Head(entry), "?")
    && ('/' !in entry || Head(entry) in table)
  }

  function Entries(table: Table, feature: string): seq<string> {
    if feature in table then table[feature] else []
  }

  function Enabled(table: Table, entries: seq<string>): set<string> {
    set e | e in entries && TurnsOn(table, e) :: Head(e)
  }

  function Needs(table: Table): string -> set<string> {
    f => Enabled(table, Entries(table, f))
  }

  /** Written out: a feature needs `f` when one of its entries is `f` itself, or `f/...` for an
      `f` that is a feature; entries for a dependency or a weak one need nothing. */
  lemma NeedsAreEntries(table: Table, feature: string, f: string)
    ensures f in Needs(table)(feature) <==>
            feature in table && exists e | e in table[feature] :: NeedsBy(table, e, f)
  {
    hide NeedsBy, TurnsOn, Head;
    forall e
      ensures NeedsBy(table, e, f) <==> TurnsOn(table, e) && Head(e) == f
    {
      NeedsByIs(table, e, f);
    }
  }

  lemma NeedsByIs(table: Table, e: string, f: string)
    ensures NeedsBy(table, e, f) <==> TurnsOn(table, e) && Head(e) == f
  {
    HeadIsBeforeTheSlash(e, f);
  }

  ghost predicate NeedsBy(table: Table, e: string, f: string) {
    && !("dep:" <= e) && '/' !in f && (f == "" || f[|f| - 1] != '?')
    && (e == f || (f in table && exists rest :: e == f + "/" + rest))
  }

  lemma HeadIsBeforeTheSlash(e: string, f: string)
    ensures Head(e) == f <==> '/' !in f && (e == f || exists rest :: e == f + "/" + rest)
  {
    var h := Head(e);
    if h != e {
      assert e == h + "/" + e[|h| + 1..];
    }
    if '/' !in f && e != f {
      forall rest | e == f + "/" + rest
        ensures h == f
      {
        HeadOf(f, rest);
      }
    }
  }

  lemma {:induction false} HeadOf(f: string, rest: string)
    requires '/' !in f
    ensures Head(f + "/" + rest) == f
  {
    var e := f + "/" + rest;
    if f != "" {
      assert e[1..] == f[1..] + "/" + rest;
      HeadOf(f[1..], rest);
    }
  }

  function Wanted(table: Table, requested: seq<string>): set<string> {
    (set f | f in requested) + (if "default" in table then {"default"} else {})
  }

  ghost function Universe(table: Table, requested: seq<string>): set<string> {
    Wanted(table, requested) + set f, e | f in table && e in table[f] :: Head(e)
  }

  /** The entries of one feature, appended in order. */
  method Expand(table: Table, entries: seq<string>, pending: seq<string>) returns (pending': seq<string>)
    ensures Range(pending') == Range(pending) + Enabled(table, entries)
  {
    pending' := pending;
    for k := 0 to |entries|
      invariant Range(pending') == Range(pending) + Enabled(table, entries[..k])
    {
      var entry := entries[k];
      var head := Head(entry);
      assert entries[..k + 1] == entries[..k] + [entry];
      assert Enabled(table, entries[..k + 1])
          == Enabled(table, entries[..k]) + (if TurnsOn(table, entry) then {head} else {});
      if StartsWith(entry, "dep:") || EndsWith(head, "?") {
        continue;
      }
      if '/' !in entry || head in table {
        RangePush(pending', head);
        pending' := pending' + [head];
      }
    }
    assert entries[..|entries|] == entries;
  }

  method BuildFeatures(table: Table, requested: seq<string>) returns (enabled: set<string>)
    ensures Least(enabled, Wanted(table, requested), Needs(table))
  {
    hide Least, Settling, Range, Wanted, Universe, Needs, Enabled, Entries;
    var pending := requested + (if "default" in table then ["default"] else []);
    enabled := {};
    ghost var start, next, all := Wanted(table, requested), Needs(table), Universe(table, requested);
    FirstPending(table, requested, pending);
    while pending != []
      invariant Range(pending) <= all && enabled <= all && Settling(enabled, pending, start, next)
      decreases |all - enabled|, |pending|
    {
      var last := |pending| - 1;
      var feature := pending[last];
      RangeSplits(pending);
      ghost var was, before := pending, enabled;
      pending := pending[..last];
      if feature in enabled {
        SkipKeeps(enabled, was, start, next);
        continue;
      }
      enabled := enabled + {feature};
      pending := Expand(table, Entries(table, feature), pending);
      Shrinks(all, before, enabled);
      NeedsAreKnown(table, requested, feature);
      NeedsIs(table, feature);
      GrowKeeps(before, was, pending, start, next);
    }
    SettledIsLeast(enabled, start, next);
  }

  lemma FirstPending(table: Table, requested: seq<string>, pending: seq<string>)
    requires pending == requested + (if "default" in table then ["default"] else [])
    ensures Range(pending) == Wanted(table, requested) <= Universe(table, requested)
    ensures Settling({}, pending, Wanted(table, requested), Needs(table))
  {
  }

  lemma SettledIsLeast<T(!new)>(held: set<T>, start: set<T>, next: T -> set<T>)
    requires Settling(held, [], start, next)
    ensures Least(held, start, next)
  {
    assert Range<T>([]) == {};
  }

  /** Held features are closed already, up to what is pending. */
  ghost predicate Settling<T(!new)>(held: set<T>, pending: seq<T>, start: set<T>, next: T -> set<T>) {
    && start <= held + Range(pending)
    && (forall x | x in held :: next(x) <= held + Range(pending))
    && forall t: set<T> | start <= t && Closed(t, next) :: held + Range(pending) <= t
  }

  lemma SkipKeeps<T(!new)>(held: set<T>, pending: seq<T>, start: set<T>, next: T -> set<T>)
    requires Settling(held, pending, start, next) && |pending| > 0 && pending[|pending| - 1] in held
    ensures Settling(held, pending[..|pending| - 1], start, next)
  {
    RangeSplits(pending);
    assert held + Range(pending) == held + Range(pending[..|pending| - 1]);
  }

  lemma GrowKeeps<T(!new)>(held: set<T>, pending: seq<T>, pending': seq<T>, start: set<T>, next: T -> set<T>)
    requires Settling(held, pending, start, next) && |pending| > 0
    requires Range(pending') == Range(pending[..|pending| - 1]) + next(pending[|pending| - 1])
    ensures Settling(held + {pending[|pending| - 1]}, pending', start, next)
  {
    var x := pending[|pending| - 1];
    RangeSplits(pending);
    forall t: set<T> | start <= t && Closed(t, next)
      ensures held + {x} + Range(pending') <= t
    {
      assert x in Range(pending) && x in held + Range(pending);
      assert next(x) <= t;
    }
  }

  lemma NeedsIs(table: Table, feature: string)
    ensures Needs(table)(feature) == Enabled(table, Entries(table, feature))
  {
  }

  lemma NeedsAreKnown(table: Table, requested: seq<string>, feature: string)
    ensures Needs(table)(feature) <= Universe(table, requested)
  {
  }
}
