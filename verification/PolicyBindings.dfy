/** Role bindings, and what it means for one set of bindings to loosen another: entry by entry,
    and for every account that entries resolve to. */
module PolicyBindings {
  import opened Wrappers

  datatype Entry = Name(name: string) | Uid(uid: nat)

  /** The bindings of a file: no file, no `bindings:` key, or roles with their entries. */
  datatype Section = Missing | Absent | Present(roles: map<string, seq<Entry>>)

  const ADVERSARY := "adversary"

  /** The known roles, in the order of their numbers. */
  const ROLES := ["admin", "user", "guest", "adversary"]

  function RolesOf(s: Section, e: Entry): set<string> {
    if s.Present? then set k | k in s.roles && e in s.roles[k] else {}
  }

  function Entries(s: Section): set<Entry> {
    if s.Present? then set k, j | k in s.roles && 0 <= j < |s.roles[k]| :: s.roles[k][j] else {}
  }

  lemma EntriesHoldRoles(s: Section, e: Entry)
    ensures e in Entries(s) <==> RolesOf(s, e) != {}
  {
    if RolesOf(s, e) != {} {
      var k :| k in RolesOf(s, e);
      var j :| 0 <= j < |s.roles[k]| && s.roles[k][j] == e;
    }
    if e in Entries(s) {
      var k, j :| k in s.roles && 0 <= j < |s.roles[k]| && s.roles[k][j] == e;
      assert k in RolesOf(s, e);
    }
  }

  /** `e` is listed under `role`. */
  ghost predicate Holds(s: Section, role: string, e: Entry) {
    s.Present? && role in s.roles && e in s.roles[role]
  }

  predicate Equivalent(a: Section, b: Section) {
    && a.Present? == b.Present?
    && forall e | e in Entries(a) + Entries(b) :: RolesOf(a, e) == RolesOf(b, e)
  }

  /** Two sections are equivalent exactly when both have bindings or neither does, and the same
      entries stand under the same roles; order, repetition and empty roles do not matter. */
  lemma EquivalentIsSameBindings(a: Section, b: Section)
    ensures Equivalent(a, b) <==> a.Present? == b.Present? && forall role, e :: Holds(a, role, e) <==> Holds(b, role, e)
  {
    forall e
      ensures e !in Entries(a) + Entries(b) ==> RolesOf(a, e) == RolesOf(b, e)
      ensures forall role :: (role in RolesOf(a, e) <==> Holds(a, role, e)) && (role in RolesOf(b, e) <==> Holds(b, role, e))
    {
      EntriesHoldRoles(a, e);
      EntriesHoldRoles(b, e);
    }
    if Equivalent(a, b) {
      forall role, e
        ensures Holds(a, role, e) <==> Holds(b, role, e)
      {
        assert RolesOf(a, e) == RolesOf(b, e);
        assert role in RolesOf(a, e) <==> role in RolesOf(b, e);
      }
    }
    if forall role, e :: Holds(a, role, e) <==> Holds(b, role, e) {
      forall e
        ensures RolesOf(a, e) == RolesOf(b, e)
      {
        assert forall role :: role in RolesOf(a, e) <==> role in RolesOf(b, e);
      }
    }
  }

  // ---- Entry by entry ----------------------------------------------------------------

  predicate Loosens(file: Section, mirror: Section, e: Entry) {
    var was, now := RolesOf(file, e), RolesOf(mirror, e);
    || (exists r | r in now :: r != ADVERSARY && r !in was)
    || (ADVERSARY in was && ADVERSARY !in now)
  }

  predicate Keyless(file: Section, mirror: Section) {
    file.Present? && !mirror.Present?
  }

  function Loosenings(file: Section, mirror: Section): set<Entry> {
    set e | e in Entries(file) + Entries(mirror) && (Keyless(file, mirror) || Loosens(file, mirror, e))
  }

  // ---- Account by account ------------------------------------------------------------

  /** What an account is under bindings that mention it. */
  datatype Standing = Bound(role: nat) | Contained | Unbound

  /** Read off the list of roles its entries hold. */
  function Effective(held: seq<nat>): Option<Standing> {
    if held == [] then None
    else if 3 in held then Some(Contained)
    else if forall k | 0 <= k < |held| :: held[k] == held[0] then Some(Bound(held[0]))
    else Some(Unbound)
  }

  function HeldIn(entries: seq<Entry>, role: nat, who: Entry -> bool): seq<nat> {
    if entries == [] then [] else (if who(entries[0]) then [role] else []) + HeldIn(entries[1..], role, who)
  }

  function EntriesOf(s: Section, role: string): seq<Entry> {
    if s.Present? && role in s.roles then s.roles[role] else []
  }

  /** The roles of the entries `who` picks, as the sorted map yields them. */
  function Held(s: Section, who: Entry -> bool): seq<nat> {
    HeldIn(EntriesOf(s, "admin"), 0, who) + HeldIn(EntriesOf(s, "adversary"), 3, who)
    + HeldIn(EntriesOf(s, "guest"), 2, who) + HeldIn(EntriesOf(s, "user"), 1, who)
  }

  function UidOf(uids: map<string, nat>, e: Entry): Option<nat> {
    match e
    case Uid(u) => Some(u)
    case Name(n) => if n in uids then Some(uids[n]) else None
  }

  function Whose(uids: map<string, nat>, u: nat): Entry -> bool {
    e => UidOf(uids, e) == Some(u)
  }

  function Just(e: Entry): Entry -> bool {
    x => x == e
  }

  /** An entry stands with all the others of its account; a name no account has, alone. */
  function Same(uids: map<string, nat>, e: Entry): Entry -> bool {
    match UidOf(uids, e)
    case Some(u) => Whose(uids, u)
    case None => Just(e)
  }

  predicate MayInstall(file: Option<Standing>, mirror: Option<Standing>) {
    var held := file.Some? && !file.value.Contained?;
    || mirror == Some(Contained)
    || mirror == file
    || (mirror == Some(Unbound) && file.Some? && file.value.Bound?)
    || (mirror.None? && held)
  }

  function KnownEntries(s: Section): set<Entry> {
    set i, e | 0 <= i < 4 && e in EntriesOf(s, ROLES[i]) :: e
  }

  function EffectiveLoosenings(file: Section, mirror: Section, uids: map<string, nat>): set<Entry> {
    set e | e in KnownEntries(file) + KnownEntries(mirror)
            && !MayInstall(Effective(Held(file, Same(uids, e))), Effective(Held(mirror, Same(uids, e))))
  }

  // ---- Standings, from the set of roles alone ----------------------------------------

  ghost function RolesHeld(s: Section, who: Entry -> bool): set<nat> {
    set i: nat | 0 <= i < 4 && exists e :: Holds(s, ROLES[i], e) && who(e)
  }

  ghost predicate Lone(roles: set<nat>, r: nat) {
    roles == {r}
  }

  ghost function StandingOf(roles: set<nat>): Option<Standing> {
    if roles == {} then None
    else if 3 in roles then Some(Contained)
    else if exists r :: Lone(roles, r) then
      var r :| Lone(roles, r); Some(Bound(r))
    else Some(Unbound)
  }

  ghost function StandsAs(s: Section, who: Entry -> bool): Option<Standing> {
    StandingOf(RolesHeld(s, who))
  }

  lemma OneRoleBinds(roles: set<nat>, r: nat)
    requires r != 3 && Lone(roles, r)
    ensures StandingOf(roles) == Some(Bound(r))
  {
    forall q | Lone(roles, q)
      ensures q == r
    {
      assert q in {r};
    }
  }

  lemma TwoRolesBindNone(roles: set<nat>, a: nat, b: nat)
    requires a != b && a in roles && b in roles && 3 !in roles
    ensures StandingOf(roles) == Some(Unbound)
  {
    assert forall r: nat | Lone(roles, r) :: a in {r} && b in {r};
  }

  lemma EffectiveIsOfTheSet(held: seq<nat>, roles: set<nat>)
    requires forall r: nat :: r in held <==> r in roles
    ensures Effective(held) == StandingOf(roles)
  {
    hide StandingOf;
    if held == [] {
      assert roles == {};
      NoRoles();
    } else if 3 in held {
      SomeAdversary(roles);
    } else if forall k | 0 <= k < |held| :: held[k] == held[0] {
      assert held[0] in roles;
      assert roles == {held[0]};
      OneRoleBinds(roles, held[0]);
    } else {
      var k :| 0 <= k < |held| && held[k] != held[0];
      TwoRolesBindNone(roles, held[0], held[k]);
    }
  }

  lemma NoRoles()
    ensures StandingOf({}) == None
  {
  }

  lemma SomeAdversary(roles: set<nat>)
    requires 3 in roles
    ensures StandingOf(roles) == Some(Contained)
  {
  }

  lemma {:induction false} HeldInIs(entries: seq<Entry>, role: nat, who: Entry -> bool, r: nat)
    ensures r in HeldIn(entries, role, who) <==> r == role && exists e | e in entries :: who(e)
  {
    if entries != [] {
      HeldInIs(entries[1..], role, who, r);
      assert entries == [entries[0]] + entries[1..];
    }
  }

  lemma HoldersAre(s: Section, role: string, who: Entry -> bool)
    ensures (exists e :: Holds(s, role, e) && who(e)) <==> (exists e | e in EntriesOf(s, role) :: who(e))
  {
    if e :| Holds(s, role, e) && who(e) {
      assert e in EntriesOf(s, role);
    }
    if e :| e in EntriesOf(s, role) && who(e) {
      assert Holds(s, role, e);
    }
  }

  lemma HeldIs(s: Section, who: Entry -> bool, r: nat)
    ensures r in Held(s, who) <==> r in RolesHeld(s, who)
  {
    hide HeldIn, EntriesOf, Holds;
    forall i: nat | i < 4 {
      HoldersAre(s, ROLES[i], who);
    }
    HeldInIs(EntriesOf(s, "admin"), 0, who, r);
    HeldInIs(EntriesOf(s, "user"), 1, who, r);
    HeldInIs(EntriesOf(s, "guest"), 2, who, r);
    HeldInIs(EntriesOf(s, "adversary"), 3, who, r);
    assert ROLES[0] == "admin" && ROLES[1] == "user" && ROLES[2] == "guest" && ROLES[3] == "adversary";
  }

  lemma EffectiveIsStanding(s: Section, who: Entry -> bool)
    ensures Effective(Held(s, who)) == StandsAs(s, who)
  {
    hide Held, RolesHeld, Effective, StandingOf;
    forall r: nat
      ensures r in Held(s, who) <==> r in RolesHeld(s, who)
    {
      HeldIs(s, who, r);
    }
    EffectiveIsOfTheSet(Held(s, who), RolesHeld(s, who));
  }

  /** Contained is less than not mentioned, which is less than bound to no one role, which is
      less than bound to a role. */
  function Level(st: Option<Standing>): nat {
    match st
    case Some(Contained) => 0
    case None => 1
    case Some(Unbound) => 2
    case Some(Bound(_)) => 3
  }

  predicate AtMost(now: Option<Standing>, was: Option<Standing>) {
    now == was || Level(now) < Level(was)
  }

  /** What may be installed unattended is what does not rise; so nobody gains a role or leaves
      containment, over any number of syncs. */
  lemma MayInstallNeverRaises(was: Option<Standing>, now: Option<Standing>, later: Option<Standing>)
    ensures MayInstall(was, now) <==> AtMost(now, was)
    ensures MayInstall(was, now) && MayInstall(now, later) ==> MayInstall(was, later)
    ensures MayInstall(was, now) && now.Some? && now.value.Bound? ==> was == now
    ensures MayInstall(was, now) && was == Some(Contained) ==> now == Some(Contained)
  {
  }

  // ---- Tighter in both senses --------------------------------------------------------

  ghost predicate EntryTightens(file: Section, mirror: Section, e: Entry) {
    && (forall role | Holds(mirror, role, e) :: role == "adversary" || Holds(file, role, e))
    && (Holds(file, "adversary", e) ==> Holds(mirror, "adversary", e))
  }

  ghost predicate AccountTightens(file: Section, mirror: Section, who: Entry -> bool) {
    AtMost(StandsAs(mirror, who), StandsAs(file, who))
  }

  ghost predicate Tightens(file: Section, mirror: Section, uids: map<string, nat>) {
    && (Keyless(file, mirror) ==> Entries(file) == {})
    && (forall e :: EntryTightens(file, mirror, e))
    && (forall u: nat :: AccountTightens(file, mirror, Whose(uids, u)))
    && (forall e :: UidOf(uids, e).None? ==> AccountTightens(file, mirror, Just(e)))
  }

  /** The entries of an account: its own number, and the names that were found to be its. */
  lemma WhoseAre(uids: map<string, nat>, u: nat, e: Entry)
    ensures Whose(uids, u)(e) <==> e == Uid(u) || (e.Name? && e.name in uids && uids[e.name] == u)
    ensures UidOf(uids, e).None? <==> e.Name? && e.name !in uids
  {
  }

  lemma NotMentioned(s: Section, who: Entry -> bool)
    requires forall e | e in KnownEntries(s) :: !who(e)
    ensures StandsAs(s, who) == None
  {
    forall i: nat, e | 0 <= i < 4 && Holds(s, ROLES[i], e)
      ensures !who(e)
    {
      assert e in EntriesOf(s, ROLES[i]);
      assert e in KnownEntries(s);
    }
    assert RolesHeld(s, who) == {};
  }

  lemma NoneLoosenEntries(file: Section, mirror: Section)
    ensures Loosenings(file, mirror) == {}
       <==> ((Keyless(file, mirror) ==> Entries(file) == {}) && forall e :: EntryTightens(file, mirror, e))
  {
    forall e
      ensures EntryTightens(file, mirror, e) <==> !Loosens(file, mirror, e)
      ensures e !in Entries(file) + Entries(mirror) ==> EntryTightens(file, mirror, e)
    {
      EntriesHoldRoles(file, e);
      EntriesHoldRoles(mirror, e);
      EntryLoosens(file, mirror, e);
    }
    if Keyless(file, mirror) {
      assert Entries(file) <= Loosenings(file, mirror);
    }
    if Loosenings(file, mirror) == {} {
      forall e
        ensures EntryTightens(file, mirror, e)
      {
        if e in Entries(file) + Entries(mirror) {
          assert e !in Loosenings(file, mirror);
        }
      }
    }
  }

  /** No account is loosened exactly when none of them rises. */
  lemma NoneLoosenAccounts(file: Section, mirror: Section, uids: map<string, nat>)
    ensures EffectiveLoosenings(file, mirror, uids) == {}
       <==> ((forall u: nat :: AccountTightens(file, mirror, Whose(uids, u)))
             && (forall e :: UidOf(uids, e).None? ==> AccountTightens(file, mirror, Just(e))))
  {
    hide Held, StandsAs, KnownEntries, Effective;
    var loose := EffectiveLoosenings(file, mirror, uids);
    forall e
      ensures e in loose <==> e in KnownEntries(file) + KnownEntries(mirror) && !AccountTightens(file, mirror, Same(uids, e))
    {
      LoosenedRises(file, mirror, Same(uids, e));
    }
    if loose == {} {
      forall u: nat
        ensures AccountTightens(file, mirror, Whose(uids, u))
      {
        SomeoneOrNobody(file, mirror, uids, Whose(uids, u), loose);
      }
      forall e | UidOf(uids, e).None?
        ensures AccountTightens(file, mirror, Just(e))
      {
        SomeoneOrNobody(file, mirror, uids, Just(e), loose);
      }
    }
  }

  lemma LoosenedRises(file: Section, mirror: Section, who: Entry -> bool)
    ensures MayInstall(Effective(Held(file, who)), Effective(Held(mirror, who))) <==> AccountTightens(file, mirror, who)
  {
    EffectiveIsStanding(file, who);
    EffectiveIsStanding(mirror, who);
  }

  lemma SomeoneOrNobody(file: Section, mirror: Section, uids: map<string, nat>, who: Entry -> bool, loose: set<Entry>)
    requires forall e | who(e) :: Same(uids, e) == who
    requires forall e | e in KnownEntries(file) + KnownEntries(mirror) :: AccountTightens(file, mirror, Same(uids, e))
    ensures AccountTightens(file, mirror, who)
  {
    hide KnownEntries, StandsAs;
    if e :| e in KnownEntries(file) + KnownEntries(mirror) && who(e) {
      assert AccountTightens(file, mirror, Same(uids, e));
    } else {
      NotMentioned(file, who);
      NotMentioned(mirror, who);
    }
  }

  // ---- The unattended check ----------------------------------------------------------

  type Lookup = string -> Result<Option<nat>, string>

  function Names(s: Section): set<string> {
    set e | e in Entries(s) && e.Name? :: e.name
  }

  function UidsOf(names: set<string>, lookup: Lookup): map<string, nat> {
    map n | n in names && lookup(n).Ok? && lookup(n).value.Some? :: lookup(n).value.value
  }

  function AllNames(file: Section, mirror: Section): set<string> {
    Names(file) + Names(mirror)
  }

  function UnattendedLoosenings(file: Section, mirror: Section, lookup: Lookup): Result<set<Entry>, string> {
    var names := AllNames(file, mirror);
    if exists n | n in names :: lookup(n).Err? then Err("cannot look up a name; nothing was installed")
    else Ok(Loosenings(file, mirror) + EffectiveLoosenings(file, mirror, UidsOf(names, lookup)))
  }

  lemma NoUids(lookup: Lookup)
    ensures UidsOf({}, lookup) == map[]
  {
  }

  lemma UidsGrow(names: set<string>, n: string, lookup: Lookup)
    requires lookup(n).Ok?
    ensures UidsOf(names + {n}, lookup)
         == if lookup(n).value.Some? then UidsOf(names, lookup)[n := lookup(n).value.value] else UidsOf(names, lookup)
  {
  }

  /** Names are looked up one by one, in any order, and a failed lookup ends it. */
  method FindLoosenings(file: Section, mirror: Section, lookup: Lookup) returns (r: Result<set<Entry>, string>)
    ensures r == UnattendedLoosenings(file, mirror, lookup)
  {
    hide AllNames, UidsOf, Loosenings, EffectiveLoosenings;
    var names := AllNames(file, mirror);
    var left := names;
    var uids: map<string, nat> := map[];
    NoUids(lookup);
    assert names - left == {};
    while left != {}
      invariant left <= names && uids == UidsOf(names - left, lookup)
      invariant forall n | n in names - left :: lookup(n).Ok?
      decreases |left|
    {
      var n :| n in left;
      var found := lookup(n);
      if found.Err? {
        return Err("cannot look up a name; nothing was installed");
      }
      UidsGrow(names - left, n, lookup);
      assert names - (left - {n}) == names - left + {n};
      if found.value.Some? {
        uids := uids[n := found.value.value];
      }
      left := left - {n};
    }
    assert names - {} == names;
    return Ok(Loosenings(file, mirror) + EffectiveLoosenings(file, mirror, uids));
  }

  /** `uids` holds exactly the names of either section that a lookup found an account for. */
  ghost predicate Resolved(uids: map<string, nat>, file: Section, mirror: Section, lookup: Lookup) {
    forall n: string, u: nat ::
      n in uids && uids[n] == u <==> Mentioned(file, mirror, n) && lookup(n) == Ok(Some(u))
  }

  ghost predicate Mentioned(file: Section, mirror: Section, n: string) {
    exists role :: Holds(file, role, Name(n)) || Holds(mirror, role, Name(n))
  }

  lemma NamesAreMentioned(file: Section, mirror: Section, n: string)
    ensures n in AllNames(file, mirror) <==> Mentioned(file, mirror, n)
  {
    var e := Name(n);
    EntriesHoldRoles(file, e);
    EntriesHoldRoles(mirror, e);
    assert n in Names(file) <==> e in Entries(file);
    assert n in Names(mirror) <==> e in Entries(mirror);
    if RolesOf(file, e) != {} {
      var role :| role in RolesOf(file, e);
      assert Holds(file, role, e);
    }
    if RolesOf(mirror, e) != {} {
      var role :| role in RolesOf(mirror, e);
      assert Holds(mirror, role, e);
    }
    if role :| Holds(file, role, e) || Holds(mirror, role, e) {
      assert role in RolesOf(file, e) || role in RolesOf(mirror, e);
    }
  }

  /** The accounts the check goes by are those of all the names, and no others. */
  lemma UidsAreResolved(file: Section, mirror: Section, lookup: Lookup)
    ensures Resolved(UidsOf(AllNames(file, mirror), lookup), file, mirror, lookup)
  {
    hide Mentioned, AllNames;
    forall n: string
      ensures n in AllNames(file, mirror) <==> Mentioned(file, mirror, n)
    {
      NamesAreMentioned(file, mirror, n);
    }
  }

  /** What it reports: the entries that gain a role or leave adversary, or whose account rises. */
  lemma LooseningsAre(file: Section, mirror: Section, lookup: Lookup, e: Entry)
    requires mirror.Present? && UnattendedLoosenings(file, mirror, lookup).Ok?
    ensures var uids := UidsOf(AllNames(file, mirror), lookup);
      e in UnattendedLoosenings(file, mirror, lookup).value
      <==> (|| !EntryTightens(file, mirror, e)
            || (e in KnownEntries(file) + KnownEntries(mirror) && !AccountTightens(file, mirror, Same(uids, e))))
  {
    hide AccountTightens, Held, Effective, KnownEntries, UidsOf, AllNames;
    EntriesHoldRoles(file, e);
    EntriesHoldRoles(mirror, e);
    EntryLoosens(file, mirror, e);
    LoosenedRises(file, mirror, Same(UidsOf(AllNames(file, mirror), lookup), e));
  }

  lemma EntryLoosens(file: Section, mirror: Section, e: Entry)
    ensures EntryTightens(file, mirror, e) <==> !Loosens(file, mirror, e)
    ensures RolesOf(file, e) == {} && RolesOf(mirror, e) == {} ==> EntryTightens(file, mirror, e)
  {
    assert forall role :: Holds(file, role, e) <==> role in RolesOf(file, e);
    assert forall role :: Holds(mirror, role, e) <==> role in RolesOf(mirror, e);
  }

  /** An unattended sync finds nothing to refuse exactly when every name could be looked up and
      the mirror tightens the file for every entry and every account. */
  lemma NothingLoosenedIffTighter(file: Section, mirror: Section, lookup: Lookup)
    ensures var names := AllNames(file, mirror);
      UnattendedLoosenings(file, mirror, lookup) == Ok({})
      <==> (forall n | n in names :: lookup(n).Ok?) && Tightens(file, mirror, UidsOf(names, lookup))
  {
    hide Loosenings, EffectiveLoosenings, AllNames, UidsOf, EntryTightens, AccountTightens;
    var uids := UidsOf(AllNames(file, mirror), lookup);
    NoneLoosenEntries(file, mirror);
    NoneLoosenAccounts(file, mirror, uids);
    var a, b := Loosenings(file, mirror), EffectiveLoosenings(file, mirror, uids);
    assert a + b == {} <==> a == {} && b == {} by {
      assert a <= a + b && b <= a + b;
    }
  }
}
