/** Length-prefixed frames over a stream that moves as few bytes as it likes.

    A schedule says what each attempt meets; a schedule that runs out is the deadline. */
module Frames {
  import opened Wrappers

  const MAX_REQUEST_FRAME_BYTES: nat := 16_842_752
  const U32: nat := 0x1_0000_0000

  datatype Attempt = Moves(n: nat) | Interrupted | WouldBlock | Breaks

  datatype ReadError = Oversize(n: nat) | Io

  /** One side of a connection: what the peer will have sent, what was taken of it, what
      this side has put on the wire, and what the next attempts meet. */
  class Stream {
    const incoming: seq<byte>
    var taken: nat
    var outgoing: seq<byte>
    var schedule: seq<Attempt>

    predicate Valid()
      reads this
    {
      taken <= |incoming|
    }

    function Unread(): seq<byte>
      requires Valid()
      reads this
    {
      incoming[taken..]
    }

    constructor (incoming: seq<byte>, schedule: seq<Attempt>)
      ensures Valid() && Unread() == incoming && outgoing == [] && this.schedule == schedule
    {
      this.incoming := incoming;
      this.schedule := schedule;
      taken, outgoing := 0, [];
    }

    /** `poll` and one read into the tail of `buf`: some of what the peer sent, or an error. */
    method ReadInto(buf: array<byte>, filled: nat) returns (r: Option<Attempt>, n: nat)
      requires Valid() && filled < buf.Length
      modifies this`taken, this`schedule, buf
      ensures Valid() && r == (if old(schedule) == [] then None else Some(old(schedule)[0]))
      ensures schedule == if old(schedule) == [] then [] else old(schedule)[1..]
      ensures n == if r.Some? && r.value.Moves? then Moved(r.value.n, |old(Unread())|, buf.Length - filled) else 0
      ensures taken == old(taken) + n && buf[..filled + n] == old(buf[..filled]) + old(Unread())[..n]
    {
      n := 0;
      assert buf[..filled + 0] == old(buf[..filled]) + old(Unread())[..0];
      if schedule == [] {
        return None, 0;
      }
      r := Some(schedule[0]);
      schedule := schedule[1..];
      if r.value.Moves? {
        n := Moved(r.value.n, |incoming| - taken, buf.Length - filled);
        for i := 0 to n
          invariant taken == old(taken) && schedule == old(schedule)[1..]
          invariant buf[..filled + i] == old(buf[..filled]) + incoming[taken..][..i]
        {
          buf[filled + i] := incoming[taken + i];
          assert incoming[taken..][..i + 1] == incoming[taken..][..i] + [incoming[taken + i]];
          assert buf[..filled + i + 1] == buf[..filled + i] + [buf[filled + i]];
        }
        taken := taken + n;
      }
    }
  }

  /** How many bytes move: what the attempt offers, at most what there is and what is wanted. */
  function Moved(n: nat, avail: nat, want: nat): (k: nat)
    ensures k <= avail && k <= want && k <= n
  {
    var k := if n < want then n else want;
    if k < avail then k else avail
  }

  // ---- What a schedule allows --------------------------------------------------------

  /** The schedule left once `want` bytes are read of `avail`, or `None` where that fails: an
      interrupt is retried, a would-block is an error, and no bytes means the peer is gone. */
  function AfterRead(schedule: seq<Attempt>, avail: nat, want: nat): (rest: Option<seq<Attempt>>)
    ensures rest.Some? ==> want <= avail
    decreases |schedule|
  {
    if want == 0 then Some(schedule)
    else if schedule == [] then None
    else
      match schedule[0]
      case Moves(n) =>
        var k := Moved(n, avail, want);
        if k == 0 then None else AfterRead(schedule[1..], avail - k, want - k)
      case Interrupted => AfterRead(schedule[1..], avail, want)
      case WouldBlock => None
      case Breaks => None
  }

  /** The same for writing, where a would-block is retried too. */
  function AfterWrite(schedule: seq<Attempt>, want: nat): Option<seq<Attempt>>
    decreases |schedule|
  {
    if want == 0 then Some(schedule)
    else if schedule == [] then None
    else
      match schedule[0]
      case Moves(n) =>
        var k := Moved(n, want, want);
        if k == 0 then None else AfterWrite(schedule[1..], want - k)
      case Interrupted => AfterWrite(schedule[1..], want)
      case WouldBlock => AfterWrite(schedule[1..], want)
      case Breaks => None
  }

  /** Nothing breaks, and every attempt that moves moves something. */
  predicate Patient(schedule: seq<Attempt>) {
    forall k | 0 <= k < |schedule| :: schedule[k].Interrupted? || (schedule[k].Moves? && schedule[k].n > 0)
  }

  /** The same for a writer, which outwaits a would-block. */
  predicate PatientWriter(schedule: seq<Attempt>) {
    forall k | 0 <= k < |schedule| ::
      schedule[k].Interrupted? || schedule[k].WouldBlock? || (schedule[k].Moves? && schedule[k].n > 0)
  }

  function Moving(schedule: seq<Attempt>): nat {
    if schedule == [] then 0 else (if schedule[0].Moves? then 1 else 0) + Moving(schedule[1..])
  }

  /** As many moves as bytes are enough, however short each is. */
  lemma {:induction false} PatienceReads(schedule: seq<Attempt>, avail: nat, want: nat)
    requires Patient(schedule) && want <= avail && want <= Moving(schedule)
    ensures AfterRead(schedule, avail, want).Some?
    ensures var rest := AfterRead(schedule, avail, want).value; Patient(rest) && Moving(schedule) <= Moving(rest) + want
    decreases |schedule|
  {
    if want > 0 {
      var k := if schedule[0].Moves? then Moved(schedule[0].n, avail, want) else 0;
      assert Patient(schedule[1..]);
      PatienceReads(schedule[1..], avail - k, if want - k <= Moving(schedule[1..]) then want - k else 0);
    }
  }

  lemma {:induction false} PatienceWrites(schedule: seq<Attempt>, want: nat)
    requires PatientWriter(schedule) && want <= Moving(schedule)
    ensures AfterWrite(schedule, want).Some?
    ensures var rest := AfterWrite(schedule, want).value; PatientWriter(rest) && Moving(schedule) <= Moving(rest) + want
    decreases |schedule|
  {
    if want > 0 {
      var k := if schedule[0].Moves? then Moved(schedule[0].n, want, want) else 0;
      assert PatientWriter(schedule[1..]);
      PatienceWrites(schedule[1..], if want - k <= Moving(schedule[1..]) then want - k else 0);
    }
  }

  function Offered(schedule: seq<Attempt>): nat {
    if schedule == [] then 0 else (if schedule[0].Moves? then schedule[0].n else 0) + Offered(schedule[1..])
  }

  /** The first `n` attempts are patient and offer enough. */
  ghost predicate EnoughBy(schedule: seq<Attempt>, n: nat, want: nat) {
    n <= |schedule| && Patient(schedule[..n]) && Offered(schedule[..n]) >= want
  }

  lemma EnoughShift(schedule: seq<Attempt>, n: nat, want: nat)
    requires 0 < n <= |schedule|
    ensures var a := schedule[0];
      EnoughBy(schedule, n, want) <==>
        && (a.Interrupted? || (a.Moves? && a.n > 0))
        && EnoughBy(schedule[1..], n - 1, if a.Moves? then (if want <= a.n then 0 else want - a.n) else want)
  {
    var head, tail := schedule[..n], schedule[1..][..n - 1];
    assert head[1..] == tail && head[0] == schedule[0];
    assert Patient(head) <==> (head[0].Interrupted? || (head[0].Moves? && head[0].n > 0)) && Patient(tail) by {
      assert forall k | 0 <= k < |tail| :: tail[k] == head[k + 1];
      assert forall k | 1 <= k < |head| :: head[k] == tail[k - 1];
    }
  }

  /** A read succeeds exactly when the bytes are there and some attempts from the first on, no
      would-block, error or empty move among them, offer them all. */
  lemma {:induction false} ReadsIffOffered(schedule: seq<Attempt>, avail: nat, want: nat)
    ensures AfterRead(schedule, avail, want).Some? <==> want <= avail && exists n :: EnoughBy(schedule, n, want)
    decreases |schedule|
  {
    hide EnoughBy;
    if want == 0 {
      NothingIsEnough(schedule);
    } else if schedule == [] {
      NoneIsNotEnough(want);
    } else {
      var a := schedule[0];
      var rest := if a.Moves? then (if want <= a.n then 0 else want - a.n) else want;
      forall n: nat
        ensures EnoughBy(schedule, n, want) <==>
          0 < n <= |schedule| && (a.Interrupted? || (a.Moves? && a.n > 0)) && EnoughBy(schedule[1..], n - 1, rest)
      {
        if 0 < n <= |schedule| {
          EnoughShift(schedule, n, want);
        } else {
          EnoughNeedsAttempts(schedule, n, want);
        }
      }
      var k := if a.Moves? then Moved(a.n, avail, want) else 0;
      ReadsIffOffered(schedule[1..], avail - k, want - k);
      if n: nat :| EnoughBy(schedule[1..], n, rest) {
        EnoughFits(schedule[1..], n, rest);
        assert EnoughBy(schedule, n + 1, want) <==> (a.Interrupted? || (a.Moves? && a.n > 0));
      }
    }
  }

  function WithoutBlocks(schedule: seq<Attempt>): seq<Attempt> {
    if schedule == [] then []
    else (if schedule[0].WouldBlock? then [] else [schedule[0]]) + WithoutBlocks(schedule[1..])
  }

  /** A write succeeds exactly where a read would once the would-blocks are left out. */
  lemma {:induction false} WritesIffOffered(schedule: seq<Attempt>, want: nat)
    ensures AfterWrite(schedule, want).Some? <==> exists n :: EnoughBy(WithoutBlocks(schedule), n, want)
    decreases |schedule|
  {
    hide EnoughBy;
    WritesAsReads(schedule, want);
    ReadsIffOffered(WithoutBlocks(schedule), want, want);
  }

  lemma {:induction false} WritesAsReads(schedule: seq<Attempt>, want: nat)
    ensures AfterWrite(schedule, want).Some? <==> AfterRead(WithoutBlocks(schedule), want, want).Some?
    decreases |schedule|
  {
    if schedule != [] {
      var k := if schedule[0].Moves? then Moved(schedule[0].n, want, want) else 0;
      WritesAsReads(schedule[1..], want - k);
      if schedule[0].WouldBlock? {
        assert WithoutBlocks(schedule) == WithoutBlocks(schedule[1..]);
      } else {
        assert WithoutBlocks(schedule)[1..] == WithoutBlocks(schedule[1..]);
      }
    }
  }

  lemma NothingIsEnough(schedule: seq<Attempt>)
    ensures EnoughBy(schedule, 0, 0)
  {
  }

  lemma NoneIsNotEnough(want: nat)
    requires want > 0
    ensures forall n :: !EnoughBy([], n, want)
  {
  }

  lemma EnoughNeedsAttempts(schedule: seq<Attempt>, n: nat, want: nat)
    requires want > 0 && !(0 < n <= |schedule|)
    ensures !EnoughBy(schedule, n, want)
  {
    assert schedule[..0] == [];
  }

  lemma EnoughFits(schedule: seq<Attempt>, n: nat, want: nat)
    requires EnoughBy(schedule, n, want)
    ensures n <= |schedule|
  {
  }

  /** `read_exact` under one deadline for the whole buffer: all of it, exactly where the
      schedule allows, or an error. */
  method ReadExactBy(s: Stream, buf: array<byte>) returns (ok: bool)
    requires s.Valid()
    modifies s`taken, s`schedule, buf
    ensures s.Valid() && ok == AfterRead(old(s.schedule), |old(s.Unread())|, buf.Length).Some?
    ensures ok ==> s.schedule == AfterRead(old(s.schedule), |old(s.Unread())|, buf.Length).value
    ensures ok ==> s.taken == old(s.taken) + buf.Length && buf[..] == old(s.Unread())[..buf.Length]
  {
    var filled := 0;
    ghost var all := s.Unread();
    ghost var goal := AfterRead(s.schedule, |all|, buf.Length);
    while filled < buf.Length
      invariant 0 <= filled <= buf.Length && s.Valid()
      invariant s.taken == old(s.taken) + filled && filled <= |all|
      invariant buf[..filled] == all[..filled]
      invariant AfterRead(s.schedule, |all| - filled, buf.Length - filled) == goal
      decreases |s.schedule|
    {
      ghost var before := s.Unread();
      var r, n := s.ReadInto(buf, filled);
      assert before == all[filled..];
      assert all[..filled + n] == all[..filled] + before[..n];
      match r
      case None => return false;
      case Some(Moves(_)) =>
        if n == 0 {
          return false;
        }
        filled := filled + n;
      case Some(Interrupted) =>
      case Some(WouldBlock) => return false;
      case Some(Breaks) => return false;
    }
    assert buf[..] == buf[..filled];
    ok := true;
  }

  /** `write_all` under one deadline. Whatever happens, the wire holds a prefix of `buf` more;
      all of it where the schedule allows. Restoring blocking mode may fail after that. */
  method WriteAllBy(s: Stream, buf: seq<byte>, canUnblock: bool, canBlock: bool) returns (ok: bool)
    modifies s`outgoing, s`schedule
    ensures |s.outgoing| >= |old(s.outgoing)| && s.outgoing[..|old(s.outgoing)|] == old(s.outgoing)
    ensures s.outgoing[|old(s.outgoing)|..] <= buf
    ensures ok == (canUnblock && canBlock && AfterWrite(old(s.schedule), |buf|).Some?)
    ensures ok ==> s.outgoing == old(s.outgoing) + buf && s.schedule == AfterWrite(old(s.schedule), |buf|).value
  {
    if !canUnblock {
      return false;
    }
    var written := 0;
    ok := true;
    while written < |buf| && ok
      invariant 0 <= written <= |buf| && s.outgoing == old(s.outgoing) + buf[..written]
      invariant ok ==> AfterWrite(s.schedule, |buf| - written) == AfterWrite(old(s.schedule), |buf|)
      invariant !ok ==> AfterWrite(old(s.schedule), |buf|).None?
      decreases |s.schedule|, ok
    {
      if s.schedule == [] {
        ok := false;
      } else {
        var a := s.schedule[0];
        s.schedule := s.schedule[1..];
        match a
        case Moves(n) =>
          var k := Moved(n, |buf| - written, |buf| - written);
          if k == 0 {
            ok := false;
          } else {
            assert buf[..written + k] == buf[..written] + buf[written..written + k];
            s.outgoing := s.outgoing + buf[written..written + k];
            written := written + k;
          }
        case Interrupted =>
        case WouldBlock =>
        case Breaks => ok := false;
      }
    }
    ok := ok && canBlock;
  }

  // ---- The frame ---------------------------------------------------------------------

  function BigEndian(n: nat): (h: seq<byte>)
    requires n < U32
    ensures |h| == 4
  {
    [(n / 0x100_0000) as byte, (n / 0x1_0000 % 0x100) as byte, (n / 0x100 % 0x100) as byte, (n % 0x100) as byte]
  }

  function FromBigEndian(h: seq<byte>): (n: nat)
    requires |h| == 4
    ensures n < U32
  {
    h[0] as nat * 0x100_0000 + h[1] as nat * 0x1_0000 + h[2] as nat * 0x100 + h[3] as nat
  }

  /** The most significant byte comes first: each byte is worth 256 of the next. */
  lemma BigEndianIsMostSignificantFirst(h: seq<byte>)
    requires |h| == 4
    ensures FromBigEndian(h) == ((h[0] as nat * 256 + h[1] as nat) * 256 + h[2] as nat) * 256 + h[3] as nat
  {
  }

  lemma BigEndianRoundTrip(n: nat)
    requires n < U32
    ensures FromBigEndian(BigEndian(n)) == n
  {
    var a := n / 0x100;
    var b := a / 0x100;
    assert n / 0x1_0000 == b && n / 0x100_0000 == b / 0x100;
    assert n == a * 0x100 + n % 0x100 && a == b * 0x100 + a % 0x100 && b == b / 0x100 * 0x100 + b % 0x100;
  }

  /** The length is cast to 32 bits before it is written. */
  function Frame(body: seq<byte>): seq<byte> {
    BigEndian(|body| % U32) + body
  }

  datatype Decoded = Short | TooLong(n: nat) | Body(body: seq<byte>)

  /** What a stream of bytes says about its first frame. */
  function Decode(bytes: seq<byte>): Decoded {
    if |bytes| < 4 then Short
    else
      var n := FromBigEndian(bytes[..4]);
      if n > MAX_REQUEST_FRAME_BYTES then TooLong(n)
      else if |bytes| < 4 + n then Short
      else Body(bytes[4..4 + n])
  }

  /** A frame reads back as its body exactly when the body is within the reader's cap; a
      longer one is refused, or past 2^32 its prefix no longer states its length. */
  lemma FrameRoundTrip(body: seq<byte>, rest: seq<byte>)
    ensures Decode(Frame(body) + rest) == Body(body) <==> |body| <= MAX_REQUEST_FRAME_BYTES
    ensures MAX_REQUEST_FRAME_BYTES < |body| < U32 ==> Decode(Frame(body) + rest) == TooLong(|body|)
  {
    var bytes := Frame(body) + rest;
    var n := |body| % U32;
    BigEndianRoundTrip(n);
    assert bytes[..4] == BigEndian(n);
    if n <= MAX_REQUEST_FRAME_BYTES {
      assert bytes[4..4 + n] == body[..n];
      if |body| <= MAX_REQUEST_FRAME_BYTES {
        assert body[..n] == body;
      }
    }
  }

  /** What the request reader makes of these bytes under this schedule. */
  function BodyRead(bytes: seq<byte>, schedule: seq<Attempt>): Result<seq<byte>, ReadError> {
    match AfterRead(schedule, |bytes|, 4)
    case None => Err(Io)
    case Some(rest) =>
      var n := FromBigEndian(bytes[..4]);
      if n > MAX_REQUEST_FRAME_BYTES then Err(Oversize(n))
      else if AfterRead(rest, |bytes| - 4, n).None? then Err(Io)
      else Ok(bytes[4..4 + n])
  }

  /** For every schedule: a read of a written frame that succeeds gives exactly the body, and
      one whose body is over the cap never does. */
  lemma WhatIsReadIsWhatWasWritten(body: seq<byte>, rest: seq<byte>, schedule: seq<Attempt>)
    requires |body| < U32
    ensures var r := BodyRead(Frame(body) + rest, schedule);
      && (r.Ok? ==> r.value == body && |body| <= MAX_REQUEST_FRAME_BYTES)
      && (r.Err? && r.error.Oversize? ==> r.error.n == |body| > MAX_REQUEST_FRAME_BYTES)
  {
    hide AfterRead;
    FrameRoundTrip(body, rest);
  }

  /** And it does succeed, however short the moves and however many interrupts, when there are
      as many moves as bytes. */
  lemma PatienceReadsTheFrame(body: seq<byte>, rest: seq<byte>, schedule: seq<Attempt>)
    requires |body| <= MAX_REQUEST_FRAME_BYTES && Patient(schedule) && Moving(schedule) >= 4 + |body|
    ensures BodyRead(Frame(body) + rest, schedule) == Ok(body)
  {
    hide AfterRead;
    var bytes := Frame(body) + rest;
    PatienceReads(schedule, |bytes|, 4);
    PatienceReads(AfterRead(schedule, |bytes|, 4).value, |bytes| - 4, |body|);
    FrameRoundTrip(body, rest);
  }

  predicate FrameWritten(body: seq<byte>, schedule: seq<Attempt>) {
    var rest := AfterWrite(schedule, 4);
    rest.Some? && AfterWrite(rest.value, |body|).Some?
  }

  lemma PatienceWritesTheFrame(body: seq<byte>, schedule: seq<Attempt>)
    requires PatientWriter(schedule) && Moving(schedule) >= 4 + |body|
    ensures FrameWritten(body, schedule)
  {
    hide AfterWrite;
    PatienceWrites(schedule, 4);
    PatienceWrites(AfterWrite(schedule, 4).value, |body|);
  }

  /** The reply writer: the prefix, then the body. */
  method WriteFrame(s: Stream, body: seq<byte>, canUnblock: bool, canBlock: bool) returns (ok: bool)
    modifies s`outgoing, s`schedule
    ensures |s.outgoing| >= |old(s.outgoing)| && s.outgoing[..|old(s.outgoing)|] == old(s.outgoing)
    ensures s.outgoing[|old(s.outgoing)|..] <= Frame(body)
    ensures ok == (canUnblock && canBlock && FrameWritten(body, old(s.schedule)))
    ensures ok ==> s.outgoing == old(s.outgoing) + Frame(body)
  {
    hide AfterWrite;
    var prefix := BigEndian(|body| % U32);
    ok := WriteAllBy(s, prefix, canUnblock, canBlock);
    if ok {
      ghost var mid := s.outgoing;
      assert mid[|old(s.outgoing)|..] == prefix;
      ok := WriteAllBy(s, body, canUnblock, canBlock);
      assert s.outgoing == mid + s.outgoing[|mid|..];
      assert s.outgoing[|old(s.outgoing)|..] == prefix + s.outgoing[|mid|..];
    }
  }

  /** The request reader. The declared length is judged before any buffer for it exists. */
  method ReadBody(s: Stream) returns (r: Result<seq<byte>, ReadError>, buffer: array?<byte>)
    requires s.Valid()
    modifies s`taken, s`schedule
    ensures s.Valid() && r == BodyRead(old(s.Unread()), old(s.schedule))
    ensures r.Ok? ==> Decode(old(s.Unread())) == Body(r.value) && s.taken == old(s.taken) + 4 + |r.value|
    ensures r.Err? && r.error.Oversize? ==>
              Decode(old(s.Unread())) == TooLong(r.error.n) && buffer == null && s.taken == old(s.taken) + 4
    ensures buffer != null ==> buffer.Length <= MAX_REQUEST_FRAME_BYTES
    ensures Decode(old(s.Unread())).TooLong? ==> buffer == null
  {
    hide AfterRead;
    buffer := null;
    var len := new byte[4];
    var ok := ReadExactBy(s, len);
    if !ok {
      return Err(Io), null;
    }
    assert len[..] == old(s.Unread())[..4];
    var n := FromBigEndian(len[..]);
    if n > MAX_REQUEST_FRAME_BYTES {
      return Err(Oversize(n)), null;
    }
    ghost var left := s.Unread();
    assert left == old(s.Unread())[4..];
    buffer := new byte[n];
    ok := ReadExactBy(s, buffer);
    if !ok {
      return Err(Io), buffer;
    }
    assert left[..n] == old(s.Unread())[4..4 + n];
    r := Ok(buffer[..]);
  }
}
