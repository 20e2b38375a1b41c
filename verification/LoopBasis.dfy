/** The read basis of every write, as a function of the conversation's history alone. */
module LoopBasis {
  import opened Wrappers
  import opened Transcript
  import opened AgentLoop

  /** The event fixes what the loop knows of `path`: it was served, replaced, or found stale. */
  predicate Settles(e: Event, path: Text) {
    || (e.ReadDone? && e.path == path && e.read.Content?)
    || (e.WriteDone? && e.path == path && (e.written.Applied? || e.written.Stale?))
  }

  function Leaves(e: Event): Option<Version>
    requires exists path :: Settles(e, path)
  {
    match e
    case ReadDone(_, r, _) => Some(r.version)
    case WriteDone(_, Applied(v)) => v
    case WriteDone(_, _) => None
  }

  /** `b` is what the latest settling event of `path` leaves, or nothing when there is none. */
  ghost predicate LatestLeaves(t: seq<Event>, path: Text, b: Option<Version>) {
    || (b == None && forall i | 0 <= i < |t| :: !Settles(t[i], path))
    || exists i :: SettledLastBy(t, path, i) && Leaves(t[i]) == b
  }

  ghost predicate SettledLastBy(t: seq<Event>, path: Text, i: int) {
    0 <= i < |t| && Settles(t[i], path) && forall j | i < j < |t| :: !Settles(t[j], path)
  }

  function Known(t: seq<Event>, path: Text): Option<Version> {
    if t == [] then None
    else if Settles(t[|t| - 1], path) then Leaves(t[|t| - 1])
    else Known(t[..|t| - 1], path)
  }

  /** `Known` is the one answer the history allows. */
  lemma {:induction false} KnownIsLatest(t: seq<Event>, path: Text)
    ensures LatestLeaves(t, path, Known(t, path))
    ensures forall b :: LatestLeaves(t, path, b) ==> b == Known(t, path)
  {
    if t != [] {
      var n := |t| - 1;
      var p := t[..n];
      if Settles(t[n], path) {
        assert SettledLastBy(t, path, n);
      } else {
        KnownIsLatest(p, path);
        forall i | SettledLastBy(t, path, i)
          ensures SettledLastBy(p, path, i)
        {
          assert forall j | i < j < n :: p[j] == t[j];
        }
        forall i | SettledLastBy(p, path, i)
          ensures SettledLastBy(t, path, i)
        {
          assert forall j | i < j < n :: t[j] == p[j];
        }
        assert forall i | 0 <= i < n :: t[i] == p[i];
      }
    }
  }

  function BasisOf(known: Option<Version>): ReadBasis {
    if known.Some? then Read(known.value) else Unread
  }

  /** The basis each write was sent with, and the `changed` flag of each served page. */
  ghost predicate BasesFollowHistory(t: seq<Event>) {
    forall i | 0 <= i < |t| :: FollowsHistory(t[..i], t[i])
  }

  predicate FollowsHistory(t: seq<Event>, e: Event) {
    && (e.StartWrite? ==> e.basis == BasisOf(Known(t, e.path)))
    && (e.ReadDone? && e.read.Content? ==>
          (e.changed <==> Known(t, e.path).Some? && !SameContent(Known(t, e.path).value, e.read.version)))
  }

  ghost predicate Mirrors(seen: Seen, t: seq<Event>) {
    forall path :: Known(t, path) == if path in seen then Some(seen[path]) else None
  }

  ghost predicate BasisInv(c: Config) {
    BasesFollowHistory(c.trace) && Mirrors(c.seen, c.trace)
  }

  lemma HistoryPush(t: seq<Event>, e: Event)
    requires BasesFollowHistory(t) && FollowsHistory(t, e)
    ensures BasesFollowHistory(t + [e])
  {
    var u := t + [e];
    assert t[..|t|] == t;
    forall i | 0 <= i < |u|
      ensures FollowsHistory(u[..i], u[i])
    {
      assert u[..i] == t[..i];
      if i < |t| {
        assert u[i] == t[i];
      }
    }
  }

  lemma KnownPush(t: seq<Event>, e: Event, path: Text)
    ensures Known(t + [e], path) == if Settles(e, path) then Leaves(e) else Known(t, path)
  {
    assert (t + [e])[..|t|] == t;
  }

  /** An event that settles no path leaves the map in step with the history. */
  lemma QuietPush(c: Config, e: Event)
    requires BasisInv(c) && FollowsHistory(c.trace, e) && forall path :: !Settles(e, path)
    ensures BasisInv(c.(trace := c.trace + [e]))
  {
    HistoryPush(c.trace, e);
    forall path {
      KnownPush(c.trace, e, path);
    }
  }

  lemma ReadPush(c: Config, path: Text, r: ReadOutcome)
    requires BasisInv(c)
    ensures var e := ReadDone(path, r, r.Content? && ChangedSince(c.seen, path, r.version));
      BasisInv(c.(seen := SeenAfterRead(c.seen, path, r), trace := c.trace + [e]))
  {
    var e := ReadDone(path, r, r.Content? && ChangedSince(c.seen, path, r.version));
    HistoryPush(c.trace, e);
    forall p {
      KnownPush(c.trace, e, p);
    }
  }

  lemma WritePush(c: Config, path: Text, r: WriteOutcome)
    requires BasisInv(c)
    ensures BasisInv(c.(seen := SeenAfterWrite(c.seen, path, r), trace := c.trace + [WriteDone(path, r)]))
  {
    HistoryPush(c.trace, WriteDone(path, r));
    forall p {
      KnownPush(c.trace, WriteDone(path, r), p);
    }
  }

  lemma QuietAppend(c: Config, es: seq<Event>)
    requires BasisInv(c) && |es| <= 2 && forall e | e in es :: !e.ReadDone? && !e.WriteDone?
    requires es != [] ==> FollowsHistory(c.trace, es[0])
    requires |es| == 2 ==> es[1].Answer?
    ensures BasisInv(c.(trace := c.trace + es))
  {
    if |es| == 0 {
      assert c.trace + es == c.trace;
    } else if |es| == 1 {
      assert es == [es[0]];
      QuietPush(c, es[0]);
    } else {
      QuietPush(c, es[0]);
      QuietPush(c.(trace := c.trace + [es[0]]), es[1]);
      assert c.trace + es == c.trace + [es[0]] + [es[1]];
    }
  }

  lemma StepKeepsBasis(w: World, c: Config)
    requires Wf(w, c) && BasisInv(c)
    ensures BasisInv(Step(w, c))
  {
    var t, es := c.trace, Emit(w, c);
    if c.pc.AwaitRead? {
      var r := w.read(|t|);
      ReadPush(c, c.pc.path, r);
      QuietPush(c.(seen := SeenAfterRead(c.seen, c.pc.path, r), trace := t + [es[0]]), es[1]);
      assert t + es == t + [es[0]] + [es[1]];
    } else if c.pc.AwaitWrite? {
      var r := w.write(|t|);
      WritePush(c, c.pc.path, r);
      QuietPush(c.(seen := SeenAfterWrite(c.seen, c.pc.path, r), trace := t + [es[0]]), es[1]);
      assert t + es == t + [es[0]] + [es[1]];
    } else {
      QuietSteps(w, c);
      QuietAppend(c, es);
    }
  }

  lemma QuietSteps(w: World, c: Config)
    requires Wf(w, c) && BasisInv(c) && !c.pc.AwaitRead? && !c.pc.AwaitWrite?
    ensures Move(w, c).seen == c.seen && |Emit(w, c)| <= 2
    ensures forall e | e in Emit(w, c) :: !e.ReadDone? && !e.WriteDone?
    ensures Emit(w, c) != [] ==> FollowsHistory(c.trace, Emit(w, c)[0])
    ensures |Emit(w, c)| == 2 ==> Emit(w, c)[1].Answer?
  {
  }
}
