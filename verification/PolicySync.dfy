/** The bindings sync: read the mirror and the file, plan, check again, publish. The mirror and
    the file may change between any two reads, so both are functions of the time of the read. */
module PolicySync {
  import opened Wrappers
  import opened PolicyBindings

  const CONFIG_DIR := "/etc/maknae"
  const MIRROR_POLLS: nat := 20

  datatype Mirror = Mirror(revision: nat, configDir: string, base: string, conflicts: set<Entry>, section: Section)

  /** What is written: the mirror's section under a line with its revision. */
  datatype Document = Document(revision: nat, section: Section)

  /** The outside: what a read, a print, an answer or a publish gives at each moment. Each use
      takes one moment. */
  datatype World = World(
    mirrorAt: nat -> Result<Option<Mirror>, string>,
    fileAt: nat -> Result<Section, string>,
    anchorAt: nat -> bool,
    sayAt: nat -> bool,
    answerAt: nat -> Result<bool, string>,
    publishAt: nat -> bool,
    lookup: Lookup,
    digest: Section -> string,
    diff: (Section, Section) -> nat)

  datatype Refusal =
    | Unreadable | OtherConfigDir | CannotPrint | NoBindingsKey | BaseChanged | MirrorChanged | ChangedDuring
    | NeedsTerminal | NotAccepted | NoLookup | NotPublished

  datatype Outcome =
    | Installed | NothingToInstall | WouldInstall | NoMirror
    | NeedsAdministrator(entries: set<Entry>) | RestoreNeedsAdministrator

  function ExitCode(r: Result<Outcome, Refusal>): nat {
    match r
    case Ok(Installed) => 0
    case Ok(WouldInstall) => 1
    case Err(_) => 2
    case Ok(NothingToInstall) => 3
    case Ok(NoMirror) => 4
    case Ok(NeedsAdministrator(_)) => 5
    case Ok(RestoreNeedsAdministrator) => 5
  }

  // ---- The plan ----------------------------------------------------------------------

  datatype Plan = ElsewherePlan | NothingPlan | NoKeyPlan | BaseChangedPlan | RestorePlan | InstallPlan

  /** What a mirror says it was merged from. */
  function BaseToken(s: Section, digest: Section -> string): string {
    match s
    case Missing => "missing"
    case Absent => "absent"
    case Present(_) => "sha256:" + digest(s)
  }

  function PlanSync(m: Mirror, file: Section, digest: Section -> string): Plan {
    if m.configDir != CONFIG_DIR then ElsewherePlan
    else if Equivalent(file, m.section) then NothingPlan
    else if !file.Present? then RestorePlan
    else if !m.section.Present? then NoKeyPlan
    else if BaseToken(file, digest) != m.base then BaseChangedPlan
    else InstallPlan
  }

  ghost predicate Injective(digest: Section -> string) {
    forall a: Section, b: Section :: a.Present? && b.Present? && digest(a) == digest(b) ==> a == b
  }

  /** A mirror that may be installed over two files is over one file. */
  lemma SamePlanSameFile(m: Mirror, file: Section, again: Section, digest: Section -> string)
    requires Injective(digest) && PlanSync(m, file, digest) == InstallPlan && PlanSync(m, again, digest) == InstallPlan
    ensures file == again
  {
    assert "sha256:" + digest(file) == "sha256:" + digest(again);
    assert ("sha256:" + digest(file))[7..] == digest(file);
    assert ("sha256:" + digest(again))[7..] == digest(again);
  }

  // ---- One run -----------------------------------------------------------------------

  /** What a run came to, when, and what it published. */
  datatype Run = Run(result: Result<Outcome, Refusal>, now: nat, published: seq<Document>)

  function Stop(result: Result<Outcome, Refusal>, now: nat): Run {
    Run(result, now, [])
  }

  /** Polls until a mirror is there; the last read stands whatever it gives. */
  function Await(w: World, now: nat, polls: nat): (r: (Result<Option<Mirror>, string>, nat))
    ensures now < r.1 && r.0 == w.mirrorAt(r.1 - 1)
    decreases polls
  {
    var read := w.mirrorAt(now);
    if polls == 0 || read.Err? || read.value.Some? then (read, now + 1) else Await(w, now + 1, polls - 1)
  }

  /** Prints `lines` lines, up to the first that fails. */
  function SayAll(w: World, now: nat, lines: nat): (r: (bool, nat))
    ensures now <= r.1
    decreases lines
  {
    if lines == 0 then (true, now) else if !w.sayAt(now) then (false, now + 1) else SayAll(w, now + 1, lines - 1)
  }

  /** The second look, at both. */
  function Recheck(w: World, now: nat, m: Mirror, restore: bool, unattended: bool): Result<(), Refusal> {
    match w.mirrorAt(now)
    case Err(_) => Err(Unreadable)
    case Ok(seen) =>
      if seen != Some(m) then Err(MirrorChanged)
      else
        match w.fileAt(now + 1)
        case Err(_) => Err(Unreadable)
        case Ok(file) =>
          var plan := PlanSync(m, file, w.digest);
          if plan == RestorePlan && restore && !(unattended && file != Missing) then Ok(())
          else if plan == InstallPlan && !restore then Ok(())
          else Err(ChangedDuring)
  }

  function Finish(w: World, now: nat, m: Mirror, restore: bool, terminal: bool): Run {
    var again := Recheck(w, now, m, restore, !terminal);
    if again.Err? then Stop(Err(again.error), now + 2)
    else if !w.publishAt(now + 2) then Stop(Err(NotPublished), now + 3)
    else Run(Ok(Installed), now + 3, [Document(m.revision, m.section)])
  }

  function RestoreRun(w: World, now: nat, m: Mirror, file: Section, check: bool, terminal: bool): Run {
    var (ok, t) := SayAll(w, now, 1 + w.diff(file, m.section) + |m.conflicts|);
    var keyless := !terminal && file != Missing;
    if !ok then Stop(Err(CannotPrint), t)
    else if check then
      if !keyless then Stop(Ok(WouldInstall), t)
      else if !w.sayAt(t) then Stop(Err(CannotPrint), t + 1)
      else Stop(Ok(WouldInstall), t + 1)
    else if keyless then Stop(Ok(RestoreNeedsAdministrator), t)
    else Finish(w, t, m, true, terminal)
  }

  /** Conflicts are accepted by an answer, and only at a terminal. */
  function Confirm(w: World, now: nat, terminal: bool): Result<(), Refusal> {
    if !terminal then Err(NeedsTerminal)
    else if !w.sayAt(now) then Err(CannotPrint)
    else
      match w.answerAt(now + 1)
      case Err(_) => Err(Unreadable)
      case Ok(yes) => if yes then Ok(()) else Err(NotAccepted)
  }

  function Loosened(w: World, m: Mirror, file: Section, terminal: bool): Result<set<Entry>, string> {
    if terminal then Ok({}) else UnattendedLoosenings(file, m.section, w.lookup)
  }

  function InstallRun(w: World, now: nat, m: Mirror, file: Section, check: bool, terminal: bool): Run {
    var lines := w.diff(file, m.section) + if m.conflicts == {} then 0 else 1 + |m.conflicts|;
    var (ok, t) := SayAll(w, now, lines);
    if !ok then Stop(Err(CannotPrint), t)
    else
      match Loosened(w, m, file, terminal)
      case Err(_) => Stop(Err(NoLookup), t)
      case Ok(loosened) =>
        if check then
          if loosened == {} then Stop(Ok(WouldInstall), t)
          else if !w.sayAt(t) then Stop(Err(CannotPrint), t + 1)
          else Stop(Ok(WouldInstall), t + 1)
        else if loosened != {} then Stop(Ok(NeedsAdministrator(loosened)), t)
        else if m.conflicts == {} then Finish(w, t, m, false, terminal)
        else if Confirm(w, t, terminal).Err? then Stop(Err(Confirm(w, t, terminal).error), t + 2)
        else Finish(w, t + 2, m, false, terminal)
  }

  function Planned(w: World, now: nat, m: Mirror, file: Section, check: bool, terminal: bool): Run {
    match PlanSync(m, file, w.digest)
    case ElsewherePlan => Stop(Err(OtherConfigDir), now)
    case NothingPlan =>
      if w.sayAt(now) then Stop(Ok(NothingToInstall), now + 1) else Stop(Err(CannotPrint), now + 1)
    case NoKeyPlan => Stop(Err(NoBindingsKey), now)
    case BaseChangedPlan => Stop(Err(BaseChanged), now)
    case RestorePlan => RestoreRun(w, now, m, file, check, terminal)
    case InstallPlan => InstallRun(w, now, m, file, check, terminal)
  }

  function Sync(w: World, now: nat, check: bool, terminal: bool): Run {
    var (read, t) := Await(w, now, if terminal then 0 else MIRROR_POLLS);
    match read
    case Err(_) => Stop(Err(Unreadable), t)
    case Ok(None) => Stop(Ok(NoMirror), t)
    case Ok(Some(m)) =>
      if m.configDir != CONFIG_DIR then Stop(Err(OtherConfigDir), t)
      else if !w.anchorAt(t) then Stop(Err(Unreadable), t + 1)
      else
        match w.fileAt(t + 1)
        case Err(_) => Stop(Err(Unreadable), t + 2)
        case Ok(file) => Planned(w, t + 2, m, file, check, terminal)
  }

  // ---- The run, step by step ---------------------------------------------------------

  /** The machine the sync runs on: the moment, and what has been published. */
  class Host {
    const w: World
    var now: nat
    var published: seq<Document>

    constructor (w: World)
      ensures this.w == w && now == 0 && published == []
    {
      this.w, now, published := w, 0, [];
    }

    method ReadMirror() returns (r: Result<Option<Mirror>, string>)
      modifies this`now
      ensures r == w.mirrorAt(old(now)) && now == old(now) + 1
    {
      r := w.mirrorAt(now);
      now := now + 1;
    }

    method ReadBindings() returns (r: Result<Section, string>)
      modifies this`now
      ensures r == w.fileAt(old(now)) && now == old(now) + 1
    {
      r := w.fileAt(now);
      now := now + 1;
    }

    method Say() returns (ok: bool)
      modifies this`now
      ensures ok == w.sayAt(old(now)) && now == old(now) + 1
    {
      ok := w.sayAt(now);
      now := now + 1;
    }

    method SayLines(lines: nat) returns (ok: bool)
      modifies this`now
      ensures (ok, now) == SayAll(w, old(now), lines)
    {
      ok := true;
      var left: nat := lines;
      while left > 0
        invariant left <= lines && SayAll(w, now, left) == SayAll(w, old(now), lines)
      {
        var said := Say();
        if !said {
          return false;
        }
        left := left - 1;
      }
    }

    method AwaitMirror(terminal: bool) returns (r: Result<Option<Mirror>, string>)
      modifies this`now
      ensures (r, now) == Await(w, old(now), if terminal then 0 else MIRROR_POLLS)
    {
      var polls: nat := if terminal then 0 else MIRROR_POLLS;
      while polls > 0
        invariant Await(w, now, polls) == Await(w, old(now), if terminal then 0 else MIRROR_POLLS)
      {
        r := ReadMirror();
        if r.Err? || r.value.Some? {
          return;
        }
        polls := polls - 1;
      }
      r := ReadMirror();
    }

    method StillAsPlanned(m: Mirror, restore: bool, unattended: bool) returns (r: Result<(), Refusal>)
      modifies this`now
      ensures r == Recheck(w, old(now), m, restore, unattended) && now <= old(now) + 2
      ensures r.Ok? ==> now == old(now) + 2
    {
      var seen := ReadMirror();
      if seen.Err? {
        return Err(Unreadable);
      }
      if seen.value != Some(m) {
        return Err(MirrorChanged);
      }
      var file := ReadBindings();
      if file.Err? {
        return Err(Unreadable);
      }
      var plan := PlanSync(m, file.value, w.digest);
      if plan == RestorePlan && restore && !(unattended && file.value != Missing) {
        return Ok(());
      }
      if plan == InstallPlan && !restore {
        return Ok(());
      }
      return Err(ChangedDuring);
    }

    method ConfirmConflicts(terminal: bool) returns (r: Result<(), Refusal>)
      modifies this`now
      ensures r == Confirm(w, old(now), terminal)
      ensures r.Ok? ==> now == old(now) + 2
    {
      if !terminal {
        return Err(NeedsTerminal);
      }
      var asked := Say();
      if !asked {
        return Err(CannotPrint);
      }
      var answer := w.answerAt(now);
      now := now + 1;
      if answer.Err? {
        return Err(Unreadable);
      }
      return if answer.value then Ok(()) else Err(NotAccepted);
    }

    method Install(document: Document) returns (ok: bool)
      modifies this
      ensures ok == w.publishAt(old(now)) && now == old(now) + 1
      ensures published == if ok then old(published) + [document] else old(published)
    {
      ok := w.publishAt(now);
      now := now + 1;
      if ok {
        published := published + [document];
      }
    }

    method FinishSync(m: Mirror, restore: bool, terminal: bool) returns (r: Result<Outcome, Refusal>)
      modifies this
      ensures var run := Finish(w, old(now), m, restore, terminal);
        r == run.result && published == old(published) + run.published
    {
      var again := StillAsPlanned(m, restore, !terminal);
      if again.Err? {
        return Err(again.error);
      }
      var ok := Install(Document(m.revision, m.section));
      if !ok {
        return Err(NotPublished);
      }
      return Ok(Installed);
    }

    method Restore(m: Mirror, file: Section, check: bool, terminal: bool) returns (r: Result<Outcome, Refusal>)
      modifies this
      ensures var run := RestoreRun(w, old(now), m, file, check, terminal);
        r == run.result && published == old(published) + run.published
    {
      hide SayAll, Finish;
      var told := SayLines(1 + w.diff(file, m.section) + |m.conflicts|);
      if !told {
        return Err(CannotPrint);
      }
      var keyless := !terminal && file != Missing;
      if check {
        if keyless {
          var said := Say();
          if !said {
            return Err(CannotPrint);
          }
        }
        return Ok(WouldInstall);
      }
      if keyless {
        return Ok(RestoreNeedsAdministrator);
      }
      r := FinishSync(m, true, terminal);
    }

    method InstallOver(m: Mirror, file: Section, check: bool, terminal: bool) returns (r: Result<Outcome, Refusal>)
      modifies this
      ensures var run := InstallRun(w, old(now), m, file, check, terminal);
        r == run.result && published == old(published) + run.published
    {
      hide SayAll, UnattendedLoosenings, Finish, Confirm;
      var told := SayLines(w.diff(file, m.section) + if m.conflicts == {} then 0 else 1 + |m.conflicts|);
      if !told {
        return Err(CannotPrint);
      }
      var loosened: set<Entry> := {};
      if !terminal {
        var found := FindLoosenings(file, m.section, w.lookup);
        if found.Err? {
          return Err(NoLookup);
        }
        loosened := found.value;
      }
      if check {
        if loosened != {} {
          var said := Say();
          if !said {
            return Err(CannotPrint);
          }
        }
        return Ok(WouldInstall);
      }
      if loosened != {} {
        return Ok(NeedsAdministrator(loosened));
      }
      if m.conflicts != {} {
        var accepted := ConfirmConflicts(terminal);
        if accepted.Err? {
          return Err(accepted.error);
        }
      }
      r := FinishSync(m, false, terminal);
    }

    method RunSync(check: bool, terminal: bool) returns (r: Result<Outcome, Refusal>)
      modifies this
      ensures var run := Sync(w, old(now), check, terminal);
        r == run.result && published == old(published) + run.published
    {
      hide Await, PlanSync, RestoreRun, InstallRun;
      var read := AwaitMirror(terminal);
      if read.Err? {
        return Err(Unreadable);
      }
      if read.value.None? {
        return Ok(NoMirror);
      }
      var m := read.value.value;
      if m.configDir != CONFIG_DIR {
        return Err(OtherConfigDir);
      }
      var usable := w.anchorAt(now);
      now := now + 1;
      if !usable {
        return Err(Unreadable);
      }
      var file := ReadBindings();
      if file.Err? {
        return Err(Unreadable);
      }
      match PlanSync(m, file.value, w.digest)
      case ElsewherePlan => return Err(OtherConfigDir);
      case NothingPlan =>
        var said := Say();
        if !said {
          return Err(CannotPrint);
        }
        return Ok(NothingToInstall);
      case NoKeyPlan => return Err(NoBindingsKey);
      case BaseChangedPlan => return Err(BaseChanged);
      case RestorePlan => r := Restore(m, file.value, check, terminal);
      case InstallPlan => r := InstallOver(m, file.value, check, terminal);
    }
  }

  // ---- The poll ----------------------------------------------------------------------

  /** Reads follow each other while there is no mirror, up to `polls` more; the first error or
      mirror ends them. */
  lemma {:induction false} AwaitPolls(w: World, now: nat, polls: nat)
    ensures var (r, t) := Await(w, now, polls); var k := t - 1 - now;
      && 0 <= k <= polls && r == w.mirrorAt(t - 1)
      && (forall j | now <= j < t - 1 :: w.mirrorAt(j) == Ok(None))
      && (k < polls ==> r.Err? || r.value.Some?)
    decreases polls
  {
    if polls > 0 && w.mirrorAt(now) == Ok(None) {
      AwaitPolls(w, now + 1, polls - 1);
    }
  }

  /** A sync finds no mirror exactly when none of its reads did: one at a terminal, and
      twenty-one otherwise. */
  lemma NoMirrorIffNeverThere(w: World, now: nat, check: bool, terminal: bool)
    ensures Sync(w, now, check, terminal).result == Ok(NoMirror)
       <==> forall t | now <= t <= now + (if terminal then 0 else 20) :: w.mirrorAt(t) == Ok(None)
  {
    hide Await, Finish, SayAll, PlanSync, UnattendedLoosenings;
    var polls := if terminal then 0 else MIRROR_POLLS;
    var (r, t) := Await(w, now, polls);
    AwaitPolls(w, now, polls);
    forall t, m, restore
      ensures Finish(w, t, m, restore, terminal).result != Ok(NoMirror)
    {
      FinishIsAboutAMirror(w, t, m, restore, terminal);
    }
  }

  lemma FinishIsAboutAMirror(w: World, now: nat, m: Mirror, restore: bool, terminal: bool)
    ensures Finish(w, now, m, restore, terminal).result != Ok(NoMirror)
  {
  }

  /** A mirror that appears within the polls is the one the sync goes on with. */
  lemma LateMirrorIsTaken(w: World, now: nat, polls: nat, k: nat, m: Mirror)
    requires k <= polls && w.mirrorAt(now + k) == Ok(Some(m)) && forall t | now <= t < now + k :: w.mirrorAt(t) == Ok(None)
    ensures Await(w, now, polls) == (Ok(Some(m)), now + k + 1)
  {
    AwaitPolls(w, now, polls);
    var last: nat := Await(w, now, polls).1 - 1;
    assert last < now + k ==> w.mirrorAt(last) == Ok(None);
  }

  // ---- What a refusal and a publish mean ---------------------------------------------

  /** What must have happened for a run to be refused so. */
  ghost predicate Caused(w: World, terminal: bool, why: Refusal) {
    match why
    case Unreadable =>
      || (exists t :: w.mirrorAt(t).Err?) || (exists t :: w.fileAt(t).Err?)
      || (exists t :: !w.anchorAt(t)) || (exists t :: w.answerAt(t).Err?)
    case OtherConfigDir => exists t, m: Mirror :: w.mirrorAt(t) == Ok(Some(m)) && m.configDir != "/etc/maknae"
    case CannotPrint => exists t :: !w.sayAt(t)
    case NoBindingsKey => exists t, m: Mirror :: w.mirrorAt(t) == Ok(Some(m)) && !m.section.Present?
    case BaseChanged =>
      exists t, m: Mirror, u, file: Section ::
        w.mirrorAt(t) == Ok(Some(m)) && w.fileAt(u) == Ok(file) && file.Present? && m.base != "sha256:" + w.digest(file)
    case MirrorChanged =>
      exists t, u :: t < u && w.mirrorAt(t).Ok? && w.mirrorAt(u).Ok? && w.mirrorAt(t) != w.mirrorAt(u)
    case ChangedDuring => exists t, u :: t < u && w.fileAt(t).Ok? && w.fileAt(u).Ok? && w.fileAt(t) != w.fileAt(u)
    case NeedsTerminal => !terminal && exists t, m: Mirror :: w.mirrorAt(t) == Ok(Some(m)) && m.conflicts != {}
    case NotAccepted => terminal && exists t :: w.answerAt(t) == Ok(false)
    case NoLookup => !terminal && exists n :: w.lookup(n).Err?
    case NotPublished => exists t :: !w.publishAt(t)
  }

  lemma {:induction false} SayAllSaysAll(w: World, now: nat, lines: nat)
    ensures var (ok, t) := SayAll(w, now, lines);
      && (ok <==> forall k | now <= k < now + lines :: w.sayAt(k))
      && (ok ==> t == now + lines) && (!ok ==> now < t <= now + lines && !w.sayAt(t - 1))
    decreases lines
  {
    if lines > 0 && w.sayAt(now) {
      SayAllSaysAll(w, now + 1, lines - 1);
    }
  }

  lemma FinishIsCaused(w: World, now: nat, m: Mirror, file: Section, restore: bool, terminal: bool, t: nat)
    requires t < now && w.mirrorAt(t) == Ok(Some(m)) && w.fileAt(t + 2) == Ok(file) && t + 2 < now + 1
    requires PlanSync(m, file, w.digest) == if restore then RestorePlan else InstallPlan
    requires restore && !terminal ==> file == Missing
    ensures var r := Finish(w, now, m, restore, terminal).result; r.Err? ==> Caused(w, terminal, r.error)
  {
    hide PlanSync;
    var again := w.mirrorAt(now);
    if again.Ok? && again.value == Some(m) {
      var later := w.fileAt(now + 1);
      assert later.Ok? && later.value != file ==> t + 2 < now + 1 && w.fileAt(t + 2) != w.fileAt(now + 1);
    }
  }

  lemma NoLookupIsCaused(file: Section, mirror: Section, lookup: Lookup)
    ensures UnattendedLoosenings(file, mirror, lookup).Err? ==> exists n :: lookup(n).Err?
  {
    hide UnattendedLoosenings, AllNames;
    LookupsDecide(file, mirror, lookup);
  }

  lemma RestoreIsCaused(w: World, t: nat, m: Mirror, file: Section, check: bool, terminal: bool)
    requires w.mirrorAt(t) == Ok(Some(m)) && w.fileAt(t + 2) == Ok(file) && PlanSync(m, file, w.digest) == RestorePlan
    ensures var r := RestoreRun(w, t + 3, m, file, check, terminal).result; r.Err? ==> Caused(w, terminal, r.error)
  {
    hide SayAll, Finish, PlanSync;
    var lines := 1 + w.diff(file, m.section) + |m.conflicts|;
    SayAllSaysAll(w, t + 3, lines);
    var now := SayAll(w, t + 3, lines).1;
    if terminal || file == Missing {
      FinishIsCaused(w, now, m, file, true, terminal, t);
    }
  }

  lemma InstallIsCaused(w: World, t: nat, m: Mirror, file: Section, check: bool, terminal: bool)
    requires w.mirrorAt(t) == Ok(Some(m)) && w.fileAt(t + 2) == Ok(file) && PlanSync(m, file, w.digest) == InstallPlan
    ensures var r := InstallRun(w, t + 3, m, file, check, terminal).result; r.Err? ==> Caused(w, terminal, r.error)
  {
    hide SayAll, Finish, PlanSync, UnattendedLoosenings;
    var lines := w.diff(file, m.section) + if m.conflicts == {} then 0 else 1 + |m.conflicts|;
    SayAllSaysAll(w, t + 3, lines);
    NoLookupIsCaused(file, m.section, w.lookup);
    var now := SayAll(w, t + 3, lines).1;
    FinishIsCaused(w, now, m, file, false, terminal, t);
    FinishIsCaused(w, now + 2, m, file, false, terminal, t);
  }

  /** Whatever changes while it runs, a refusal says what happened. */
  lemma EveryRefusalHasItsCause(w: World, now: nat, check: bool, terminal: bool)
    ensures var r := Sync(w, now, check, terminal).result; r.Err? ==> Caused(w, terminal, r.error)
  {
    hide Await, RestoreRun, InstallRun, Equivalent;
    var (read, t) := Await(w, now, if terminal then 0 else MIRROR_POLLS);
    if read.Ok? && read.value.Some? && w.fileAt(t + 1).Ok? {
      var m, file := read.value.value, w.fileAt(t + 1).value;
      if PlanSync(m, file, w.digest) == RestorePlan {
        RestoreIsCaused(w, t - 1, m, file, check, terminal);
      } else if PlanSync(m, file, w.digest) == InstallPlan {
        InstallIsCaused(w, t - 1, m, file, check, terminal);
      }
    }
  }

  /** The lines that show a change before it is made: a title where bindings are restored or
      conflicts listed, each difference, and each conflict. */
  function ShowingLines(w: World, m: Mirror, file: Section): nat {
    w.diff(file, m.section) + |m.conflicts| + if !file.Present? || m.conflicts != {} then 1 else 0
  }

  /** One more line follows: a check says that an administrator is needed, and an install with
      conflicts asks. */
  ghost predicate SaysOneMore(w: World, m: Mirror, file: Section, check: bool, terminal: bool) {
    if check then !terminal && (if file.Present? then UnattendedLoosenings(file, m.section, w.lookup) != Ok({}) else file != Missing)
    else file.Present? && m.conflicts != {}
  }

  ghost predicate ShownFrom(w: World, t: nat, m: Mirror, check: bool, terminal: bool) {
    && w.mirrorAt(t) == Ok(Some(m)) && w.anchorAt(t + 1) && w.fileAt(t + 2).Ok?
    && var file := w.fileAt(t + 2).value;
       var lines := ShowingLines(w, m, file) + if SaysOneMore(w, m, file, check, terminal) then 1 else 0;
       forall k | t + 3 <= k < t + 3 + lines :: w.sayAt(k)
  }

  /** What the run makes of it is at most the mirror's document, and only once all was shown. */
  ghost predicate ShowsFirst(w: World, t: nat, m: Mirror, check: bool, terminal: bool, run: Run) {
    && (run.published == [] || run.published == [Document(m.revision, m.section)])
    && (run.published != [] || run.result == Ok(WouldInstall) ==> ShownFrom(w, t, m, check, terminal))
  }

  lemma FinishPublishes(w: World, now: nat, m: Mirror, restore: bool, terminal: bool)
    ensures var run := Finish(w, now, m, restore, terminal);
      (run.published == [] || run.published == [Document(m.revision, m.section)]) && run.result != Ok(WouldInstall)
  {
  }

  lemma RestoreShows(w: World, t: nat, m: Mirror, file: Section, check: bool, terminal: bool)
    requires w.mirrorAt(t) == Ok(Some(m)) && w.anchorAt(t + 1) && w.fileAt(t + 2) == Ok(file) && !file.Present?
    ensures ShowsFirst(w, t, m, check, terminal, RestoreRun(w, t + 3, m, file, check, terminal))
  {
    hide SayAll, Finish;
    var lines := 1 + w.diff(file, m.section) + |m.conflicts|;
    SayAllSaysAll(w, t + 3, lines);
    FinishPublishes(w, SayAll(w, t + 3, lines).1, m, true, terminal);
  }

  lemma InstallShows(w: World, t: nat, m: Mirror, file: Section, check: bool, terminal: bool)
    requires w.mirrorAt(t) == Ok(Some(m)) && w.anchorAt(t + 1) && w.fileAt(t + 2) == Ok(file) && file.Present?
    ensures ShowsFirst(w, t, m, check, terminal, InstallRun(w, t + 3, m, file, check, terminal))
  {
    hide SayAll, Finish, UnattendedLoosenings;
    var lines := w.diff(file, m.section) + if m.conflicts == {} then 0 else 1 + |m.conflicts|;
    assert lines == ShowingLines(w, m, file);
    SayAllSaysAll(w, t + 3, lines);
    var now := SayAll(w, t + 3, lines).1;
    FinishPublishes(w, now, m, false, terminal);
    FinishPublishes(w, now + 2, m, false, terminal);
  }

  /** Nothing is published, and no check speaks of installing, before every line that shows it
      was printed. */
  lemma ShownBeforePublished(w: World, now: nat, check: bool, terminal: bool)
    ensures var run := Sync(w, now, check, terminal);
      run.published != [] || run.result == Ok(WouldInstall) ==>
        exists t, m :: ShownFrom(w, t, m, check, terminal) && ShowsFirst(w, t, m, check, terminal, run)
  {
    hide Await, RestoreRun, InstallRun, Equivalent, ShownFrom;
    var (read, t) := Await(w, now, if terminal then 0 else MIRROR_POLLS);
    if read.Ok? && read.value.Some? && w.anchorAt(t) && w.fileAt(t + 1).Ok? {
      var m, file := read.value.value, w.fileAt(t + 1).value;
      if file.Present? {
        InstallShows(w, t - 1, m, file, check, terminal);
      } else {
        RestoreShows(w, t - 1, m, file, check, terminal);
      }
    }
  }

  // ---- Exit codes --------------------------------------------------------------------

  /** One code an outcome: 1 for a change a check would make, 2 for any refusal, 3 for nothing
      to do, 4 for no mirror, 5 for what needs an administrator. */
  lemma ExitCodesTellOutcomesApart(r: Result<Outcome, Refusal>)
    ensures ExitCode(r) == 0 <==> r == Ok(Installed)
    ensures ExitCode(r) == 1 <==> r == Ok(WouldInstall)
    ensures ExitCode(r) == 2 <==> r.Err?
    ensures ExitCode(r) == 3 <==> r == Ok(NothingToInstall)
    ensures ExitCode(r) == 4 <==> r == Ok(NoMirror)
    ensures ExitCode(r) == 5 <==> r.Ok? && (r.value.NeedsAdministrator? || r.value.RestoreNeedsAdministrator?)
  {
  }

  // ---- What every run keeps ----------------------------------------------------------

  lemma FinishExits(w: World, now: nat, m: Mirror, restore: bool, terminal: bool)
    ensures var run := Finish(w, now, m, restore, terminal);
      |run.published| <= 1 && (ExitCode(run.result) == 0 <==> run.published != [])
  {
  }

  /** The exit code is 0 exactly when a document was published, never more than one; and with
      `check` nothing is. */
  lemma ExitsZeroIffPublished(w: World, now: nat, check: bool, terminal: bool)
    ensures var run := Sync(w, now, check, terminal);
      && |run.published| <= 1 && (ExitCode(run.result) == 0 <==> run.published != [])
      && (check ==> run.published == [])
  {
    hide SayAll, Await, Finish, PlanSync, UnattendedLoosenings;
    forall t, m, restore
      ensures var run := Finish(w, t, m, restore, terminal);
        |run.published| <= 1 && (ExitCode(run.result) == 0 <==> run.published != [])
    {
      FinishExits(w, t, m, restore, terminal);
    }
  }

  /** The four reads behind a publish: the mirror and the file, and both again, in that order. */
  ghost predicate Reads(w: World, m: Mirror, file: Section, again: Section, t0: nat, t1: nat, t2: nat, t3: nat) {
    && t0 < t1 < t2 < t3
    && w.mirrorAt(t0) == Ok(Some(m)) && w.fileAt(t1) == Ok(file)
    && w.mirrorAt(t2) == Ok(Some(m)) && w.fileAt(t3) == Ok(again)
  }

  /** Why the mirror might be published over what the second look found. */
  ghost predicate Justified(w: World, m: Mirror, file: Section, again: Section, terminal: bool) {
    if again.Present? then
      && file == again && m.base == BaseToken(again, w.digest) && m.section.Present?
      && (!terminal ==>
            && m.conflicts == {}
            && Tightens(again, m.section, UidsOf(AllNames(again, m.section), w.lookup)))
    else
      && !file.Present? && m.section.Present?
      && (!terminal ==> file == Missing && again == Missing)
  }

  ghost predicate JustifiedRun(w: World, run: Run, terminal: bool) {
    exists m, file, again, t0, t1, t2, t3 ::
      Reads(w, m, file, again, t0, t1, t2, t3) && run.published == [Document(m.revision, m.section)]
      && Justified(w, m, file, again, terminal)
  }

  lemma FinishIsJustified(w: World, m: Mirror, file: Section, t0: nat, t1: nat, now: nat, restore: bool, terminal: bool)
    requires t0 < t1 < now && w.mirrorAt(t0) == Ok(Some(m)) && w.fileAt(t1) == Ok(file) && Injective(w.digest)
    requires PlanSync(m, file, w.digest) == if restore then RestorePlan else InstallPlan
    requires !terminal && restore ==> file == Missing
    requires !terminal && !restore ==> m.conflicts == {} && UnattendedLoosenings(file, m.section, w.lookup) == Ok({})
    ensures Finish(w, now, m, restore, terminal).published != []
        ==> JustifiedRun(w, Finish(w, now, m, restore, terminal), terminal)
  {
    hide UnattendedLoosenings, Tightens, Injective;
    if Finish(w, now, m, restore, terminal).published != [] {
      var again := w.fileAt(now + 1).value;
      if !restore {
        SamePlanSameFile(m, file, again, w.digest);
        NothingLoosenedIffTighter(file, m.section, w.lookup);
      } else {
        RestoredHasKey(m, file, w.digest);
      }
      assert Reads(w, m, file, again, t0, t1, now, now + 1);
      assert Justified(w, m, file, again, terminal);
    }
  }

  lemma RestoredHasKey(m: Mirror, file: Section, digest: Section -> string)
    requires PlanSync(m, file, digest) == RestorePlan
    ensures m.section.Present?
  {
    assert !m.section.Present? ==> Entries(file) + Entries(m.section) == {};
  }

  /** Whatever changes between its reads, a run publishes only the mirror it planned with, read
      again just before; over bindings, only the ones it planned against, and unattended only
      when the mirror tightens them for every entry and account and lists no conflict; without
      bindings, unattended only over a file missing both times. */
  lemma EveryPublishIsJustified(w: World, now: nat, check: bool, terminal: bool)
    requires Injective(w.digest)
    ensures var run := Sync(w, now, check, terminal);
      run.published != [] ==> JustifiedRun(w, run, terminal)
  {
    hide Injective, JustifiedRun, PlanSync, UnattendedLoosenings, Finish, SayAll;
    var run := Sync(w, now, check, terminal);
    var (read, t) := Await(w, now, if terminal then 0 else MIRROR_POLLS);
    if run.published != [] {
      var m := read.value.value;
      var file := w.fileAt(t + 1).value;
      PlannedIsJustified(w, m, file, t - 1, t + 1, t + 2, check, terminal);
    }
  }

  lemma PlannedIsJustified(w: World, m: Mirror, file: Section, t0: nat, t1: nat, now: nat, check: bool, terminal: bool)
    requires t0 < t1 < now && w.mirrorAt(t0) == Ok(Some(m)) && w.fileAt(t1) == Ok(file) && Injective(w.digest)
    ensures Planned(w, now, m, file, check, terminal).published != []
        ==> JustifiedRun(w, Planned(w, now, m, file, check, terminal), terminal)
  {
    hide Injective, JustifiedRun, PlanSync, UnattendedLoosenings, Finish, SayAll;
    var run := Planned(w, now, m, file, check, terminal);
    if run.published != [] {
      if PlanSync(m, file, w.digest) == RestorePlan {
        var t := SayAll(w, now, 1 + w.diff(file, m.section) + |m.conflicts|).1;
        FinishIsJustified(w, m, file, t0, t1, t, true, terminal);
      } else {
        var lines := w.diff(file, m.section) + if m.conflicts == {} then 0 else 1 + |m.conflicts|;
        var t := SayAll(w, now, lines).1;
        FinishIsJustified(w, m, file, t0, t1, if m.conflicts == {} then t else t + 2, false, terminal);
      }
    }
  }

  // ---- A world that stands still -----------------------------------------------------

  /** Nothing changes and nothing fails. */
  ghost predicate Still(w: World, m: Mirror, file: Section, accepts: bool) {
    && (forall t :: w.mirrorAt(t) == Ok(Some(m))) && (forall t :: w.fileAt(t) == Ok(file))
    && (forall t :: w.anchorAt(t)) && (forall t :: w.sayAt(t)) && (forall t :: w.publishAt(t))
    && (forall t :: w.answerAt(t) == Ok(accepts))
  }

  lemma {:induction false} StillSays(w: World, now: nat, lines: nat)
    requires forall t :: w.sayAt(t)
    ensures SayAll(w, now, lines) == (true, now + lines)
    decreases lines
  {
    if lines > 0 {
      StillSays(w, now + 1, lines - 1);
    }
  }

  lemma StillReads(w: World, now: nat, polls: nat, m: Mirror)
    requires forall t :: w.mirrorAt(t) == Ok(Some(m))
    ensures Await(w, now, polls) == (Ok(Some(m)), now + 1)
  {
  }

  /** What such a sync comes to, case by case. */
  ghost predicate StillOutcome(w: World, m: Mirror, file: Section, check: bool, terminal: bool, accepts: bool,
                               r: Result<Outcome, Refusal>) {
    if m.configDir != "/etc/maknae" then r == Err(OtherConfigDir)
    else if Equivalent(file, m.section) then r == Ok(NothingToInstall)
    else if !file.Present? then
      r == if check then Ok(WouldInstall)
           else if terminal || file == Missing then Ok(Installed) else Ok(RestoreNeedsAdministrator)
    else if !m.section.Present? then r == Err(NoBindingsKey)
    else if m.base != "sha256:" + w.digest(file) then r == Err(BaseChanged)
    else StillInstall(w, m, file, check, terminal, accepts, r)
  }

  ghost predicate StillInstall(w: World, m: Mirror, file: Section, check: bool, terminal: bool, accepts: bool,
                               r: Result<Outcome, Refusal>) {
    var names := AllNames(file, m.section);
    var found := forall n | n in names :: w.lookup(n).Ok?;
    var tightens := Tightens(file, m.section, UidsOf(names, w.lookup));
    if !terminal && !found then r == Err(NoLookup)
    else if check then r == Ok(WouldInstall)
    else if !terminal && !tightens then
      r.Ok? && r.value.NeedsAdministrator? && r.value.entries != {}
      && Ok(r.value.entries) == UnattendedLoosenings(file, m.section, w.lookup)
    else if m.conflicts == {} then r == Ok(Installed)
    else r == if !terminal then Err(NeedsTerminal) else if accepts then Ok(Installed) else Err(NotAccepted)
  }

  /** In a world that stands still the outcome is exactly that: in particular bindings are
      installed when they tighten, or when an administrator accepts them, over the file the
      mirror was merged from; and a missing file is restored, or at a terminal one without
      bindings. */
  lemma StillSyncOutcome(w: World, now: nat, m: Mirror, file: Section, check: bool, terminal: bool, accepts: bool)
    requires Still(w, m, file, accepts)
    ensures StillOutcome(w, m, file, check, terminal, accepts, Sync(w, now, check, terminal).result)
  {
    hide UnattendedLoosenings, Tightens, Equivalent, SayAll, Await, AllNames, UidsOf;
    NothingLoosenedIffTighter(file, m.section, w.lookup);
    LookupsDecide(file, m.section, w.lookup);
    var polls := if terminal then 0 else MIRROR_POLLS;
    var t := Await(w, now, polls).1;
    StillReads(w, now, polls, m);
    StillSays(w, t + 2, 1 + w.diff(file, m.section) + |m.conflicts|);
    StillSays(w, t + 2, w.diff(file, m.section) + if m.conflicts == {} then 0 else 1 + |m.conflicts|);
  }

  lemma LookupsDecide(file: Section, mirror: Section, lookup: Lookup)
    ensures UnattendedLoosenings(file, mirror, lookup).Ok? <==> forall n | n in AllNames(file, mirror) :: lookup(n).Ok?
  {
  }
}
