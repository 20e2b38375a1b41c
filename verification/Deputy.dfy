/** The egress deputy's connection protocol: one accept loop, one thread a connection, two
    slot pools, a `committed` flag a thread, and panics contained at the thread.

    Every label is one atomic step of one thread; a run is any sequence of labels, so every
    interleaving, every panic point and every failed spawn is a run. */
module Deputy {
  import opened Wrappers
  import Slots

  datatype Frame = Reply | Unusable | RefusedBeforeSend | AtCapacity

  /** The two answers that tell the peer nothing left the host. */
  predicate SaysUnsent(f: Frame) {
    f.RefusedBeforeSend? || f.AtCapacity?
  }

  datatype CallResult = Replied | OpenFailed | CallUnusable | CallFailed

  datatype Kind = Serving | Refusing

  datatype Pc =
    | Authenticating
    | ReadingFrame
    | Decoding
    | Deciding
    | Committing
    | Calling
    | Storing(frame: Frame)
    | Encoding(frame: Frame)
    | Writing(frame: Frame)
    | Written(frame: Frame)
    | Unwound
    | Leaving

  /** `handling` marks the panic handler, outside the containment; `spare` is its clone of
      the stream, when cloning worked. */
  datatype Thread = Thread(kind: Kind, pc: Pc, committed: bool, handling: bool, spare: bool)

  /** What a peer and the provider have seen: reply frames with a first byte on the wire, and
      whether anything of this connection reached the provider. */
  datatype Log = Log(begun: seq<Frame>, sent: bool)

  datatype Acceptor =
    | Accepting
    | Accepted(conn: nat)
    | Admitted(conn: nat, fallback: bool)
    | Abandoned(conn: nat, fallback: bool)
    | Overflow(conn: nat)
    | Refusable(conn: nat)
    | RefusalAbandoned(conn: nat)

  datatype State = State(
    cap: nat, serving: nat, refusing: nat, acceptor: Acceptor, threads: map<nat, Thread>, conns: seq<Log>)

  /** What a thread's environment decides at its next step. */
  datatype Move = Succeed | Fail | Panic | Send | Return(result: CallResult)

  datatype Label =
    | Accept | AcceptFails
    | TakeServing(fallback: bool) | SpawnServing(spare: bool) | SpawnServingFails | ReleaseServing
    | TakeRefusal | SpawnRefusal(spare: bool) | SpawnRefusalFails | ReleaseRefusal
    | Go(conn: nat, move: Move)

  function Init(cap: nat): State {
    State(cap, 0, 0, Accepting, map[], [])
  }

  function UnsentFrame(kind: Kind): Frame {
    if kind.Serving? then RefusedBeforeSend else AtCapacity
  }

  /** One step of one connection thread, or `None` where the move does not apply. That an
      open failure returns only when nothing was sent is the one fact taken from the call. */
  function ThreadStep(t: Thread, log: Log, m: Move): Option<(Thread, Log)> {
    if m.Panic? then
      match t.pc
      case Leaving => None
      case Unwound => Some((t.(pc := Leaving), log))
      case _ => Some((t.(pc := if t.handling then Leaving else Unwound), log))
    else if m.Fail? then
      match t.pc
      case Authenticating => Some((t.(pc := Leaving), log))
      case ReadingFrame => Some((t.(pc := Leaving), log))
      case Decoding => Some((t.(pc := Leaving), log))
      case Deciding => Some((t.(pc := Storing(RefusedBeforeSend)), log))
      case Encoding(_) => Some((t.(pc := Leaving), log))
      case Writing(_) => Some((t.(pc := Leaving), log))
      case Written(_) => Some((t.(pc := Leaving), log))
      case _ => None
    else
      match t.pc
      case Authenticating => if m.Succeed? then Some((t.(pc := ReadingFrame), log)) else None
      case ReadingFrame =>
        if !m.Succeed? then None
        else Some((t.(pc := if t.kind.Serving? then Decoding else Storing(AtCapacity)), log))
      case Decoding => if m.Succeed? then Some((t.(pc := Deciding), log)) else None
      case Deciding => if m.Succeed? then Some((t.(pc := Committing), log)) else None
      case Committing => if m.Succeed? then Some((t.(pc := Calling, committed := true), log)) else None
      case Calling =>
        if m.Send? && !log.sent then Some((t, log.(sent := true)))
        else if m.Return? then
          match m.result
          case Replied => Some((t.(pc := Storing(Reply)), log))
          case OpenFailed => if log.sent then None else Some((t.(pc := Storing(RefusedBeforeSend)), log))
          case CallUnusable => Some((t.(pc := Storing(Unusable)), log))
          case CallFailed => Some((t.(pc := Leaving), log))
        else None
      case Storing(f) => if m.Succeed? then Some((t.(pc := Encoding(f), committed := true), log)) else None
      case Encoding(f) => if m.Succeed? then Some((t.(pc := Writing(f)), log)) else None
      case Writing(f) => if m.Succeed? then Some((t.(pc := Written(f)), log.(begun := log.begun + [f]))) else None
      case Written(_) => if m.Succeed? then Some((t.(pc := Leaving), log)) else None
      case Unwound =>
        if !m.Succeed? then None
        else if !t.committed && t.spare then Some((t.(pc := Storing(UnsentFrame(t.kind)), handling := true), log))
        else Some((t.(pc := Leaving), log))
      case Leaving => None
  }

  /** A disabled label changes nothing. The last step of a thread drops its slot. */
  function Step(s: State, l: Label): State {
    match l
    case Accept =>
      if !s.acceptor.Accepting? then s
      else s.(acceptor := Accepted(|s.conns|), conns := s.conns + [Log([], false)])
    case AcceptFails => s
    case TakeServing(fallback) =>
      if !s.acceptor.Accepted? then s
      else (match Slots.Take(s.serving, s.cap)
            case Some(n) => s.(serving := n, acceptor := Admitted(s.acceptor.conn, fallback))
            case None => s.(acceptor := Overflow(s.acceptor.conn)))
    case SpawnServing(spare) =>
      if !s.acceptor.Admitted? then s
      else s.(threads := s.threads[s.acceptor.conn := Thread(Serving, Authenticating, false, false, spare)],
              acceptor := Accepting)
    case SpawnServingFails =>
      if !s.acceptor.Admitted? then s
      else s.(acceptor := Abandoned(s.acceptor.conn, s.acceptor.fallback))
    case ReleaseServing =>
      if !s.acceptor.Abandoned? || s.serving == 0 then s
      else s.(serving := s.serving - 1,
              acceptor := if s.acceptor.fallback then Overflow(s.acceptor.conn) else Accepting)
    case TakeRefusal =>
      if !s.acceptor.Overflow? then s
      else (match Slots.Take(s.refusing, s.cap)
            case Some(n) => s.(refusing := n, acceptor := Refusable(s.acceptor.conn))
            case None => s.(acceptor := Accepting))
    case SpawnRefusal(spare) =>
      if !s.acceptor.Refusable? then s
      else s.(threads := s.threads[s.acceptor.conn := Thread(Refusing, Authenticating, false, false, spare)],
              acceptor := Accepting)
    case SpawnRefusalFails =>
      if !s.acceptor.Refusable? then s else s.(acceptor := RefusalAbandoned(s.acceptor.conn))
    case ReleaseRefusal =>
      if !s.acceptor.RefusalAbandoned? || s.refusing == 0 then s
      else s.(refusing := s.refusing - 1, acceptor := Accepting)
    case Go(c, m) =>
      if c !in s.threads || c >= |s.conns| then s
      else if s.threads[c].pc.Leaving? then Exit(s, c)
      else (match ThreadStep(s.threads[c], s.conns[c], m)
            case None => s
            case Some((t, log)) => s.(threads := s.threads[c := t], conns := s.conns[c := log]))
  }

  function Exit(s: State, c: nat): State
    requires c in s.threads
  {
    var s' := s.(threads := s.threads - {c});
    if s.threads[c].kind.Serving?
    then (if s.serving == 0 then s else s'.(serving := s.serving - 1))
    else (if s.refusing == 0 then s else s'.(refusing := s.refusing - 1))
  }

  function Exec(s: State, run: seq<Label>): State
    decreases |run|
  {
    if run == [] then s else Exec(Step(s, run[0]), run[1..])
  }

  // ---- What every step keeps ---------------------------------------------------------

  ghost predicate Honest(log: Log) {
    |log.begun| <= 1 && forall f | f in log.begun :: SaysUnsent(f) ==> !log.sent
  }

  /** Where a thread stands decides what its flag, its peer and the provider can have seen. */
  ghost predicate Sound(t: Thread, log: Log) {
    && Honest(log)
    && (log.sent ==> t.committed && t.kind.Serving?)
    && (log.begun != [] ==> t.committed)
    && (t.handling ==> t.pc.Storing? || t.pc.Encoding? || t.pc.Writing? || t.pc.Written? || t.pc.Leaving?)
    && (match t.pc
        case Authenticating => !t.committed
        case ReadingFrame => !t.committed
        case Decoding => !t.committed && t.kind.Serving?
        case Deciding => !t.committed && t.kind.Serving?
        case Committing => !t.committed && t.kind.Serving?
        case Calling => t.committed && t.kind.Serving? && log.begun == []
        case Storing(f) => log.begun == [] && (SaysUnsent(f) ==> !log.sent)
        case Encoding(f) => t.committed && log.begun == [] && (SaysUnsent(f) ==> !log.sent)
        case Writing(f) => t.committed && log.begun == [] && (SaysUnsent(f) ==> !log.sent)
        case _ => true)
  }

  lemma ThreadStepKeepsSound(t: Thread, log: Log, m: Move)
    requires Sound(t, log) && ThreadStep(t, log, m).Some?
    ensures var (t', log') := ThreadStep(t, log, m).value;
      Sound(t', log') && t'.kind == t.kind && t'.spare == t.spare
  {
  }

  ghost function Held(threads: map<nat, Thread>, kind: Kind): set<nat> {
    set c | c in threads && threads[c].kind == kind
  }

  ghost predicate HoldsServing(a: Acceptor) {
    a.Admitted? || a.Abandoned?
  }

  ghost predicate HoldsRefusal(a: Acceptor) {
    a.Refusable? || a.RefusalAbandoned?
  }

  /** Each pool's counter is its number of live guards: one a thread, and the one in the
      acceptor's hands between a take and a spawn. */
  ghost predicate Counted(s: State) {
    && s.serving == |Held(s.threads, Serving)| + (if HoldsServing(s.acceptor) then 1 else 0) <= s.cap
    && s.refusing == |Held(s.threads, Refusing)| + (if HoldsRefusal(s.acceptor) then 1 else 0) <= s.cap
  }

  ghost predicate Inv(s: State) {
    && Counted(s)
    && (forall c | 0 <= c < |s.conns| :: Honest(s.conns[c]))
    && (forall c | c in s.threads :: c < |s.conns| && Sound(s.threads[c], s.conns[c]))
    && (!s.acceptor.Accepting? ==>
          s.acceptor.conn < |s.conns| && s.acceptor.conn !in s.threads && s.conns[s.acceptor.conn] == Log([], false))
  }

  lemma HeldUpdate(threads: map<nat, Thread>, c: nat, t: Thread, kind: Kind)
    ensures Held(threads[c := t], kind) ==
            if t.kind == kind then Held(threads, kind) + {c} else Held(threads, kind) - {c}
  {
  }

  lemma HeldRemove(threads: map<nat, Thread>, c: nat, kind: Kind)
    ensures Held(threads - {c}, kind) == Held(threads, kind) - {c}
  {
  }

  lemma HeldAdd(threads: map<nat, Thread>, c: nat, t: Thread)
    requires c !in threads
    ensures |Held(threads[c := t], t.kind)| == |Held(threads, t.kind)| + 1
    ensures forall kind | kind != t.kind :: Held(threads[c := t], kind) == Held(threads, kind)
  {
    HeldUpdate(threads, c, t, t.kind);
    assert c !in Held(threads, t.kind);
    forall kind | kind != t.kind
      ensures Held(threads[c := t], kind) == Held(threads, kind)
    {
      HeldUpdate(threads, c, t, kind);
      assert Held(threads, kind) - {c} == Held(threads, kind);
    }
  }

  lemma SpawnKeepsCounted(s: State, t: Thread)
    requires Counted(s) && !s.acceptor.Accepting? && s.acceptor.conn !in s.threads
    requires if t.kind.Serving? then s.acceptor.Admitted? else s.acceptor.Refusable?
    ensures Counted(s.(threads := s.threads[s.acceptor.conn := t], acceptor := Accepting))
  {
    HeldAdd(s.threads, s.acceptor.conn, t);
  }

  lemma SpawnKeepsInv(s: State, t: Thread)
    requires Inv(s) && t.pc == Authenticating && !t.committed && !t.handling
    requires if t.kind.Serving? then s.acceptor.Admitted? else s.acceptor.Refusable?
    ensures Inv(s.(threads := s.threads[s.acceptor.conn := t], acceptor := Accepting))
  {
    assert Sound(t, Log([], false));
    SpawnKeepsCounted(s, t);
  }

  lemma ExitKeepsInv(s: State, c: nat)
    requires Inv(s) && c in s.threads
    ensures Inv(Exit(s, c)) && c !in Exit(s, c).threads
    ensures s.threads[c].kind.Serving? ==> s.serving > 0 && Exit(s, c).serving == s.serving - 1
    ensures s.threads[c].kind.Refusing? ==> s.refusing > 0 && Exit(s, c).refusing == s.refusing - 1
  {
    var kind := s.threads[c].kind;
    var other := if kind.Serving? then Refusing else Serving;
    assert c in Held(s.threads, kind);
    HeldRemove(s.threads, c, kind);
    HeldRemove(s.threads, c, other);
    assert Held(s.threads, other) - {c} == Held(s.threads, other);
  }

  lemma MoveKeepsCounted(s: State, c: nat, t: Thread, log: Log)
    requires Counted(s) && c in s.threads && c < |s.conns| && t.kind == s.threads[c].kind
    ensures Counted(s.(threads := s.threads[c := t], conns := s.conns[c := log]))
  {
    assert Held(s.threads[c := t], Serving) == Held(s.threads, Serving);
    assert Held(s.threads[c := t], Refusing) == Held(s.threads, Refusing);
  }

  lemma MoveKeepsInv(s: State, c: nat, t: Thread, log: Log)
    requires Inv(s) && c in s.threads && t.kind == s.threads[c].kind && Sound(t, log)
    ensures Inv(s.(threads := s.threads[c := t], conns := s.conns[c := log]))
  {
    MoveKeepsCounted(s, c, t, log);
  }

  /** The acceptor's own steps, up to a spawn. */
  lemma AcceptorKeepsInv(s: State, l: Label)
    requires Inv(s) && !l.SpawnServing? && !l.SpawnRefusal? && !l.Go?
    ensures Inv(Step(s, l)) && Step(s, l).cap == s.cap
  {
    hide Sound, Held, ThreadStep;
  }

  lemma ThreadKeepsInv(s: State, c: nat, m: Move)
    requires Inv(s) && c in s.threads
    ensures Inv(Step(s, Go(c, m))) && Step(s, Go(c, m)).cap == s.cap
  {
    hide Sound, Counted, ThreadStep, Honest;
    if s.threads[c].pc.Leaving? {
      ExitKeepsInv(s, c);
    } else if ThreadStep(s.threads[c], s.conns[c], m).Some? {
      var (t, log) := ThreadStep(s.threads[c], s.conns[c], m).value;
      ThreadStepKeepsSound(s.threads[c], s.conns[c], m);
      MoveKeepsInv(s, c, t, log);
    }
  }

  lemma StepKeepsInv(s: State, l: Label)
    requires Inv(s)
    ensures Inv(Step(s, l)) && Step(s, l).cap == s.cap
  {
    match l
    case SpawnServing(spare) =>
      hide Sound, Counted, Honest;
      if s.acceptor.Admitted? {
        SpawnKeepsInv(s, Thread(Serving, Authenticating, false, false, spare));
      }
    case SpawnRefusal(spare) =>
      hide Sound, Counted, Honest;
      if s.acceptor.Refusable? {
        SpawnKeepsInv(s, Thread(Refusing, Authenticating, false, false, spare));
      }
    case Go(c, m) =>
      if c in s.threads {
        ThreadKeepsInv(s, c, m);
      }
    case _ => AcceptorKeepsInv(s, l);
  }

  lemma {:induction false} ExecKeepsInv(s: State, run: seq<Label>)
    requires Inv(s)
    ensures Inv(Exec(s, run)) && Exec(s, run).cap == s.cap
    decreases |run|
  {
    if run != [] {
      StepKeepsInv(s, run[0]);
      ExecKeepsInv(Step(s, run[0]), run[1..]);
    }
  }

  // ---- The protocol's promises -------------------------------------------------------

  /** In every state of every run: no peer is begun a second answer, none is told that
      nothing left when something did, and at most twice the cap of threads serve. */
  lemma EveryRunIsHonest(cap: nat, run: seq<Label>)
    ensures var s := Exec(Init(cap), run);
      && (forall c | 0 <= c < |s.conns| :: |s.conns[c].begun| <= 1)
      && (forall c | 0 <= c < |s.conns| && s.conns[c].begun != [] ::
            SaysUnsent(s.conns[c].begun[0]) ==> !s.conns[c].sent)
      && s.serving <= cap && s.refusing <= cap
      && |s.threads| <= 2 * cap
  {
    ExecKeepsInv(Init(cap), run);
    var s := Exec(Init(cap), run);
    var a, b := Held(s.threads, Serving), Held(s.threads, Refusing);
    assert s.threads.Keys == a + b;
  }

  /** Nothing more happens to a connection that is no longer being handled, nor to one whose
      thread unwound after the call or a reply had begun. */
  ghost predicate Settled(s: State, c: nat) {
    && c < |s.conns|
    && (s.acceptor.Accepting? || s.acceptor.conn != c)
    && (c in s.threads ==> s.threads[c].pc.Leaving? || (s.threads[c].pc.Unwound? && s.threads[c].committed))
  }

  lemma StepKeepsSettled(s: State, l: Label, c: nat)
    requires Inv(s) && Settled(s, c)
    ensures Settled(Step(s, l), c) && Step(s, l).conns[c] == s.conns[c]
  {
    if l.Go? && l.conn in s.threads && !s.threads[l.conn].pc.Leaving? {
      MoveAwayKeepsSettled(s, l.conn, l.move, c);
    }
  }

  lemma MoveAwayKeepsSettled(s: State, d: nat, m: Move, c: nat)
    requires Inv(s) && Settled(s, c) && d in s.threads && !s.threads[d].pc.Leaving?
    ensures Settled(Step(s, Go(d, m)), c) && Step(s, Go(d, m)).conns[c] == s.conns[c]
  {
  }

  lemma {:induction false} SettledForGood(s: State, run: seq<Label>, c: nat)
    requires Inv(s) && Settled(s, c)
    ensures c < |Exec(s, run).conns| && Exec(s, run).conns[c] == s.conns[c]
    decreases |run|
  {
    if run != [] {
      StepKeepsInv(s, run[0]);
      StepKeepsSettled(s, run[0], c);
      SettledForGood(Step(s, run[0]), run[1..], c);
    }
  }

  lemma PanicSettles(s: State, c: nat)
    requires Inv(s) && c in s.threads && s.threads[c].committed
    ensures Settled(Step(s, Go(c, Panic)), c) && Step(s, Go(c, Panic)).conns[c] == s.conns[c]
  {
    if s.threads[c].pc.Leaving? {
      ExitKeepsInv(s, c);
    }
  }

  /** In every run: a thread that panics once the call or a reply has begun leaves that peer
      and the provider with what they had seen, in every continuation. */
  lemma PanicAfterCommitWritesNothing(cap: nat, run: seq<Label>, c: nat, later: seq<Label>)
    requires c in Exec(Init(cap), run).threads && Exec(Init(cap), run).threads[c].committed
    ensures var s := Exec(Init(cap), run); var end := Exec(Step(s, Go(c, Panic)), later);
      c < |s.conns| && c < |end.conns| && end.conns[c] == s.conns[c]
  {
    hide Step, Settled;
    ExecKeepsInv(Init(cap), run);
    var s := Exec(Init(cap), run);
    PanicSettles(s, c);
    StepKeepsInv(s, Go(c, Panic));
    SettledForGood(Step(s, Go(c, Panic)), later, c);
  }

  /** A connection whose thread panicked with nothing begun is answered, unless the stream
      could not be cloned: the handler's own steps lead to exactly one unsent frame. */
  lemma PanicBeforeCommitAnswers(t: Thread, log: Log)
    requires Sound(t, log) && t.pc == Unwound && !t.committed && t.spare
    ensures var f := UnsentFrame(t.kind);
      var t1 := t.(pc := Storing(f), handling := true);
      var t2 := t1.(pc := Encoding(f), committed := true);
      && ThreadStep(t, log, Succeed) == Some((t1, log))
      && ThreadStep(t1, log, Succeed) == Some((t2, log))
      && ThreadStep(t2, log, Succeed) == Some((t2.(pc := Writing(f)), log))
      && ThreadStep(t2.(pc := Writing(f)), log, Succeed) == Some((t2.(pc := Written(f)), Log([f], false)))
  {
    assert log == Log([], false);
    assert [] + [UnsentFrame(t.kind)] == [UnsentFrame(t.kind)];
  }

  /** A thread's own moves, one after the other. */
  function Walk(t: Thread, log: Log, ms: seq<Move>): Option<(Thread, Log)>
    decreases |ms|
  {
    if ms == [] then Some((t, log))
    else
      match ThreadStep(t, log, ms[0])
      case None => None
      case Some((t', log')) => Walk(t', log', ms[1..])
  }

  function Smoothly(n: nat): (ms: seq<Move>)
    ensures |ms| == n
  {
    if n == 0 then [] else [Succeed] + Smoothly(n - 1)
  }

  lemma SmoothStep(t: Thread, log: Log, n: nat)
    requires n > 0 && ThreadStep(t, log, Succeed).Some?
    ensures var (t', log') := ThreadStep(t, log, Succeed).value;
      Walk(t, log, Smoothly(n)) == Walk(t', log', Smoothly(n - 1))
  {
    assert Smoothly(n)[1..] == Smoothly(n - 1);
  }

  lemma WalkedAll(t: Thread, log: Log)
    ensures Walk(t, log, Smoothly(0)) == Some((t, log))
  {
  }

  /** Storing the flag, encoding, writing and leaving puts exactly that frame on the wire. */
  lemma Delivers(t: Thread, log: Log, f: Frame)
    requires t.pc == Storing(f)
    ensures Walk(t, log, Smoothly(4)) ==
            Some((t.(pc := Leaving, committed := true), log.(begun := log.begun + [f])))
  {
    hide Walk;
    var t1 := t.(pc := Encoding(f), committed := true);
    var t2, t3 := t1.(pc := Writing(f)), t1.(pc := Written(f));
    var log' := log.(begun := log.begun + [f]);
    SmoothStep(t, log, 4);
    SmoothStep(t1, log, 3);
    SmoothStep(t2, log, 2);
    SmoothStep(t3, log', 1);
    WalkedAll(t3.(pc := Leaving), log');
  }

  /** How a call that returned is answered: `None` where the connection is just closed. */
  function AnswerTo(result: CallResult): Option<Frame> {
    match result
    case Replied => Some(Reply)
    case OpenFailed => Some(RefusedBeforeSend)
    case CallUnusable => Some(Unusable)
    case CallFailed => None
  }

  lemma QuietCallBegins(spare: bool)
    ensures var t := Thread(Serving, Authenticating, false, false, spare);
      Walk(t, Log([], false), Smoothly(5)) == Some((t.(pc := Calling, committed := true), Log([], false)))
  {
    hide Walk;
    var log := Log([], false);
    var s := Thread(Serving, Authenticating, false, false, spare);
    SmoothStep(s, log, 5);
    SmoothStep(s.(pc := ReadingFrame), log, 4);
    SmoothStep(s.(pc := Decoding), log, 3);
    SmoothStep(s.(pc := Deciding), log, 2);
    SmoothStep(s.(pc := Committing), log, 1);
    WalkedAll(s.(pc := Calling, committed := true), log);
  }

  /** Left alone, an admitted connection makes its call, which may send, and is answered with
      what the call came to; only an open failure cannot follow a send. */
  lemma QuietThreadsAnswer(spare: bool, result: CallResult, sends: bool)
    requires sends ==> result != OpenFailed
    ensures var t := Thread(Serving, Authenticating, false, false, spare);
      var called, log := t.(pc := Calling, committed := true), Log([], sends);
      && Walk(t, Log([], false), Smoothly(5)) == Some((called, Log([], false)))
      && (sends ==> ThreadStep(called, Log([], false), Send) == Some((called, log)))
      && match AnswerTo(result)
         case Some(f) =>
           && ThreadStep(called, log, Return(result)) == Some((called.(pc := Storing(f)), log))
           && Walk(called.(pc := Storing(f)), log, Smoothly(4)) == Some((called.(pc := Leaving), Log([f], sends)))
         case None => ThreadStep(called, log, Return(result)) == Some((called.(pc := Leaving), log))
  {
    hide Walk;
    QuietCallBegins(spare);
    if AnswerTo(result).Some? {
      var f := AnswerTo(result).value;
      var called := Thread(Serving, Calling, true, false, spare);
      Delivers(called.(pc := Storing(f)), Log([], sends), f);
      assert [] + [f] == [f];
    }
  }

  /** And one over capacity is told so. */
  lemma QuietRefusalsAnswer(spare: bool)
    ensures var t := Thread(Refusing, Authenticating, false, false, spare);
      Walk(t, Log([], false), Smoothly(6)) == Some((t.(pc := Leaving, committed := true), Log([AtCapacity], false)))
  {
    hide Walk;
    var log := Log([], false);
    var r := Thread(Refusing, Authenticating, false, false, spare);
    SmoothStep(r, log, 6);
    SmoothStep(r.(pc := ReadingFrame), log, 5);
    Delivers(r.(pc := Storing(AtCapacity)), log, AtCapacity);
    assert [] + [AtCapacity] == [AtCapacity];
  }

  /** What a thread that fails before its call tells the peer: nothing until it knows who asks
      and what, a refusal once the request is decided against, and nothing more once a reply
      cannot be encoded. */
  lemma FailuresAreAnsweredOnlyOnceDecided(t: Thread, log: Log)
    ensures t.pc.Authenticating? || t.pc.ReadingFrame? || t.pc.Decoding? || t.pc.Encoding? ==>
              ThreadStep(t, log, Fail) == Some((t.(pc := Leaving), log))
    ensures t.pc.Deciding? ==>
              && ThreadStep(t, log, Fail) == Some((t.(pc := Storing(RefusedBeforeSend)), log))
              && Walk(t.(pc := Storing(RefusedBeforeSend)), log, Smoothly(4))
              == Some((t.(pc := Leaving, committed := true), log.(begun := log.begun + [RefusedBeforeSend])))
  {
    if t.pc.Deciding? {
      Delivers(t.(pc := Storing(RefusedBeforeSend)), log, RefusedBeforeSend);
    }
  }

  // ---- Where the acceptor takes a connection -----------------------------------------

  function Gos(c: nat, ms: seq<Move>): (run: seq<Label>)
    ensures |run| == |ms|
  {
    if ms == [] then [] else [Go(c, ms[0])] + Gos(c, ms[1..])
  }

  /** A thread's own moves move that thread and its connection, and nothing else. */
  lemma {:induction false} ExecWalks(s: State, c: nat, ms: seq<Move>)
    requires c in s.threads && c < |s.conns| && Walk(s.threads[c], s.conns[c], ms).Some?
    ensures var (t, log) := Walk(s.threads[c], s.conns[c], ms).value;
      Exec(s, Gos(c, ms)) == s.(threads := s.threads[c := t], conns := s.conns[c := log])
    decreases |ms|
  {
    if ms == [] {
      assert s.threads[c := s.threads[c]] == s.threads && s.conns[c := s.conns[c]] == s.conns;
    } else {
      var (t, log) := ThreadStep(s.threads[c], s.conns[c], ms[0]).value;
      var next := s.(threads := s.threads[c := t], conns := s.conns[c := log]);
      assert Step(s, Go(c, ms[0])) == next;
      ExecWalks(next, c, ms[1..]);
      assert Gos(c, ms)[0] == Go(c, ms[0]) && Gos(c, ms)[1..] == Gos(c, ms[1..]);
      var (t', log') := Walk(t, log, ms[1..]).value;
      assert next.threads[c := t'] == s.threads[c := t'] && next.conns[c := log'] == s.conns[c := log'];
    }
  }

  lemma ExecTwo(s: State, a: Label, b: Label)
    ensures Exec(s, [a, b]) == Step(Step(s, a), b)
  {
    assert [a, b][1..] == [b] && [b][1..] == [];
    assert Exec(Step(s, a), [b]) == Exec(Step(Step(s, a), b), []);
  }

  lemma ExecThree(s: State, a: Label, b: Label, c: Label)
    ensures Exec(s, [a, b, c]) == Step(Step(Step(s, a), b), c)
  {
    assert [a, b, c][1..] == [b, c];
    ExecTwo(Step(s, a), b, c);
  }

  /** A connection is accepted with nothing said and nothing sent, beside all the others. */
  lemma AcceptOpensAConnection(cap: nat, run: seq<Label>)
    requires Exec(Init(cap), run).acceptor.Accepting?
    ensures var s := Exec(Init(cap), run);
      Exec(s, [Accept]) == s.(acceptor := Accepted(|s.conns|), conns := s.conns + [Log([], false)])
  {
    var s := Exec(Init(cap), run);
    assert [Accept][1..] == [];
    assert Exec(s, [Accept]) == Exec(Step(s, Accept), []);
  }

  /** An accepted connection gets a serving thread while the pool has room. */
  lemma AcceptedIsServed(cap: nat, run: seq<Label>, fallback: bool, spare: bool)
    requires Exec(Init(cap), run).acceptor.Accepted? && Exec(Init(cap), run).serving < cap
    ensures var s := Exec(Init(cap), run); var c := s.acceptor.conn;
      var end := Exec(s, [TakeServing(fallback), SpawnServing(spare)]);
      && c < |s.conns| && s.conns[c] == Log([], false) && c !in s.threads
      && end == s.(serving := s.serving + 1, acceptor := Accepting,
                   threads := s.threads[c := Thread(Serving, Authenticating, false, false, spare)])
  {
    ExecKeepsInv(Init(cap), run);
    var s := Exec(Init(cap), run);
    ExecTwo(s, TakeServing(fallback), SpawnServing(spare));
  }

  /** With the serving pool full it gets a refusing thread while that pool has room, whose
      quiet steps tell the peer so. */
  lemma OverCapacityIsRefused(cap: nat, run: seq<Label>, fallback: bool, spare: bool)
    requires var s := Exec(Init(cap), run); s.acceptor.Accepted? && s.serving == cap && s.refusing < cap
    ensures var s := Exec(Init(cap), run); var c := s.acceptor.conn;
      var spawned := Exec(s, [TakeServing(fallback), TakeRefusal, SpawnRefusal(spare)]);
      && c < |s.conns| && c in spawned.threads && spawned.threads[c].kind == Refusing && spawned.acceptor == Accepting
      && Exec(spawned, Gos(c, Smoothly(6))).conns == s.conns[c := Log([AtCapacity], false)]
  {
    ExecKeepsInv(Init(cap), run);
    var s := Exec(Init(cap), run);
    ExecThree(s, TakeServing(fallback), TakeRefusal, SpawnRefusal(spare));
    RefusalSpeaks(Exec(s, [TakeServing(fallback), TakeRefusal, SpawnRefusal(spare)]), s.acceptor.conn, spare);
  }

  lemma RefusalSpeaks(s: State, c: nat, spare: bool)
    requires c in s.threads && s.threads[c] == Thread(Refusing, Authenticating, false, false, spare)
    requires c < |s.conns| && s.conns[c] == Log([], false)
    ensures Exec(s, Gos(c, Smoothly(6))).conns == s.conns[c := Log([AtCapacity], false)]
  {
    hide Walk, Exec;
    QuietRefusalsAnswer(spare);
    ExecWalks(s, c, Smoothly(6));
  }

  /** A serving thread that cannot be spawned gives its slot back; with a fallback stream the
      connection goes the same way as one over capacity, without one it is closed unanswered. */
  lemma FailedSpawnFallsBack(cap: nat, run: seq<Label>, fallback: bool)
    requires var s := Exec(Init(cap), run); s.acceptor.Accepted? && s.serving < cap
    ensures var s := Exec(Init(cap), run); var c := s.acceptor.conn;
      Exec(s, [TakeServing(fallback), SpawnServingFails, ReleaseServing])
      == s.(acceptor := if fallback then Overflow(c) else Accepting)
  {
    ExecKeepsInv(Init(cap), run);
    ExecThree(Exec(Init(cap), run), TakeServing(fallback), SpawnServingFails, ReleaseServing);
  }

  lemma OverflowIsRefused(s: State, spare: bool)
    requires Inv(s) && s.acceptor.Overflow? && s.refusing < s.cap
    ensures var c := s.acceptor.conn; var spawned := Exec(s, [TakeRefusal, SpawnRefusal(spare)]);
      && c < |s.conns| && c in spawned.threads && spawned.threads[c].kind == Refusing && spawned.acceptor == Accepting
      && Exec(spawned, Gos(c, Smoothly(6))).conns == s.conns[c := Log([AtCapacity], false)]
  {
    ExecTwo(s, TakeRefusal, SpawnRefusal(spare));
    RefusalSpeaks(Exec(s, [TakeRefusal, SpawnRefusal(spare)]), s.acceptor.conn, spare);
  }

  lemma BothFullCloses(s: State, f: bool)
    requires s.acceptor.Accepted? && s.serving == s.cap && s.refusing == s.cap
    ensures Exec(s, [TakeServing(f), TakeRefusal]) == s.(acceptor := Accepting)
  {
    ExecTwo(s, TakeServing(f), TakeRefusal);
  }

  lemma FailedRefusalCloses(s: State, f: bool)
    requires s.acceptor.Accepted? && s.serving == s.cap && s.refusing < s.cap
    ensures Exec(s, [TakeServing(f), TakeRefusal, SpawnRefusalFails, ReleaseRefusal]) == s.(acceptor := Accepting)
  {
    var way := [TakeServing(f), TakeRefusal, SpawnRefusalFails, ReleaseRefusal];
    assert way[1..] == [TakeRefusal, SpawnRefusalFails, ReleaseRefusal];
    ExecThree(Step(s, TakeServing(f)), TakeRefusal, SpawnRefusalFails, ReleaseRefusal);
  }

  /** With both pools full, or with no way to spawn, the connection is closed and never
      answered, whatever happens later. */
  lemma UnansweredForGood(cap: nat, run: seq<Label>, way: seq<Label>, later: seq<Label>)
    requires var s := Exec(Init(cap), run); s.acceptor.Accepted?
    requires var s := Exec(Init(cap), run);
      || (s.serving == cap && s.refusing == cap && exists f :: way == [TakeServing(f), TakeRefusal])
      || (s.serving < cap && way == [TakeServing(false), SpawnServingFails, ReleaseServing])
      || (s.serving == cap && s.refusing < cap
          && exists f :: way == [TakeServing(f), TakeRefusal, SpawnRefusalFails, ReleaseRefusal])
    ensures var s := Exec(Init(cap), run); var c := s.acceptor.conn; var end := Exec(Exec(s, way), later);
      && Exec(s, way).acceptor == Accepting && c !in Exec(s, way).threads
      && c < |end.conns| && end.conns[c] == Log([], false)
  {
    ExecKeepsInv(Init(cap), run);
    var s := Exec(Init(cap), run);
    hide Exec, Step;
    ExecKeepsInv(s, way);
    if s.serving < cap {
      FailedSpawnFallsBack(cap, run, false);
    } else if s.refusing == cap {
      var f :| way == [TakeServing(f), TakeRefusal];
      BothFullCloses(s, f);
    } else {
      var f :| way == [TakeServing(f), TakeRefusal, SpawnRefusalFails, ReleaseRefusal];
      FailedRefusalCloses(s, f);
    }
    SettledForGood(Exec(s, way), later, s.acceptor.conn);
  }

  // ---- Every path returns its slot ---------------------------------------------------

  function Rank(t: Thread, log: Log): nat {
    match t.pc
    case Leaving => 0
    case Written(_) => if t.handling then 1 else 6
    case Writing(_) => if t.handling then 2 else 7
    case Encoding(_) => if t.handling then 3 else 8
    case Storing(_) => if t.handling then 4 else 9
    case Unwound => 5
    case Calling => if log.sent then 10 else 11
    case Committing => 12
    case Deciding => 13
    case Decoding => 14
    case ReadingFrame => 15
    case Authenticating => 16
  }

  /** A thread never gets stuck and takes at most sixteen steps before it leaves, whatever
      it meets; leaving drops its slot (`ExitKeepsInv`). */
  lemma EveryThreadLeaves(t: Thread, log: Log, m: Move)
    requires Sound(t, log)
    ensures Rank(t, log) <= 16 && (Rank(t, log) == 0 <==> t.pc.Leaving?)
    ensures !t.pc.Leaving? ==> ThreadStep(t, log, if t.pc.Calling? then Return(CallFailed) else Succeed).Some?
    ensures ThreadStep(t, log, m).Some? ==>
              var (t', log') := ThreadStep(t, log, m).value; Rank(t', log') < Rank(t, log)
  {
  }

  /** With no thread left and the acceptor waiting, both pools are whole again. */
  lemma QuietPoolsAreWhole(cap: nat, run: seq<Label>)
    ensures var s := Exec(Init(cap), run);
      s.threads == map[] && s.acceptor.Accepting? ==> s.serving == 0 && s.refusing == 0
  {
    ExecKeepsInv(Init(cap), run);
    var s := Exec(Init(cap), run);
    if s.threads == map[] {
      assert Held(s.threads, Serving) == {} && Held(s.threads, Refusing) == {};
    }
  }
}
