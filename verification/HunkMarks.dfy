/** Which new-file lines a hunk changes, and why an unmarked span was not changed. */
module HunkMarks {
  /** One character a body line: ' ' context, '-' deleted, '+' added. */
  type Kinds = s: string | forall i | 0 <= i < |s| :: s[i] in {' ', '-', '+'} witness ""

  function RunEnd(body: Kinds, k: nat): (e: nat)
    requires k <= |body|
    ensures k <= e <= |body|
    ensures forall i | k <= i < e :: body[i] == '-'
    ensures e < |body| ==> body[e] != '-'
    decreases |body| - k
  {
    if k < |body| && body[k] == '-' then RunEnd(body, k + 1) else k
  }

  /** The marks a deletion run leaves: the line before it and, unless an addition follows or
      the run ends a hunk with context, the line after it. */
  function RunMarks(body: Kinds, e: nat, next: nat): set<nat>
    requires e <= |body|
  {
    (if next >= 2 then {(next - 1) as nat} else {})
    + (if e < |body| then (if body[e] == '+' then {} else {next})
       else if ' ' in body then {} else {next})
  }

  /** Marks of `body[k..]`, whose first new-file line is `next`. */
  function Marks(body: Kinds, k: nat, next: nat): set<nat>
    requires k <= |body|
    decreases |body| - k
  {
    if k == |body| then {}
    else if body[k] == '+' then {next} + Marks(body, k + 1, next + 1)
    else if body[k] == ' ' then Marks(body, k + 1, next + 1)
    else RunMarks(body, RunEnd(body, k), next) + Marks(body, RunEnd(body, k), next)
  }

  /** With no new-side lines the header names the line before the deletion. */
  function FirstLine(start: nat, noNewSide: bool): nat {
    if noNewSide then start + 1 else start
  }

  method HunkLines(body: Kinds, start: nat, noNewSide: bool) returns (marked: set<nat>)
    ensures marked == Marks(body, 0, FirstLine(start, noNewSide))
  {
    marked := {};
    var next: nat := if noNewSide then start + 1 else start;
    var hasContext := ' ' in body;
    var k := 0;
    while k < |body|
      invariant 0 <= k <= |body|
      invariant marked + Marks(body, k, next) == Marks(body, 0, FirstLine(start, noNewSide))
      decreases |body| - k
    {
      if body[k] == '+' {
        marked := marked + {next};
        next := next + 1;
        k := k + 1;
      } else if body[k] == ' ' {
        next := next + 1;
        k := k + 1;
      } else {
        ghost var from := k;
        while k < |body| && body[k] == '-'
          invariant from <= k <= |body| && RunEnd(body, k) == RunEnd(body, from)
        {
          k := k + 1;
        }
        if next >= 2 {
          marked := marked + {next - 1};
        }
        if !(k < |body| && body[k] == '+') && (k < |body| || !hasContext) {
          marked := marked + {next};
        }
      }
    }
  }

  // ---- What is marked, position by position ------------------------------------------

  function NewLines(body: Kinds, k: nat): nat
    requires k <= |body|
  {
    if k == 0 then 0 else NewLines(body, k - 1) + (if body[k - 1] == '-' then 0 else 1)
  }

  /** Body position `k` marks new-file line `l`, given the hunk's first line: it adds `l`, or it
      ends a deletion run just after `l`, or just before `l` where no addition follows and the
      run does not end a hunk that has context. */
  ghost predicate MarkedBy(body: Kinds, first: nat, l: nat, k: nat)
    requires k < |body|
  {
    var at := first + NewLines(body, k);
    || (body[k] == '+' && l == at)
    || (body[k] == '-' && EndsRun(body, k) && at >= 2 && l == at - 1)
    || (body[k] == '-' && EndsRun(body, k) && l == at
        && if k + 1 < |body| then body[k + 1] != '+' else ' ' !in body)
  }

  predicate EndsRun(body: Kinds, k: nat)
    requires k < |body|
  {
    k + 1 == |body| || body[k + 1] != '-'
  }

  lemma {:induction false} RunHasNoNewLines(body: Kinds, k: nat, e: nat)
    requires k <= e <= |body| && forall i | k <= i < e :: body[i] == '-'
    ensures NewLines(body, e) == NewLines(body, k)
  {
    if k < e {
      RunHasNoNewLines(body, k, e - 1);
    }
  }

  lemma {:induction false} MarksFrom(body: Kinds, k: nat, first: nat, l: nat)
    requires k <= |body| && (k == 0 || k == |body| || body[k] != '-' || body[k - 1] != '-')
    ensures l in Marks(body, k, first + NewLines(body, k)) <==>
            exists i :: k <= i < |body| && MarkedBy(body, first, l, i)
    decreases |body| - k
  {
    if k < |body| {
      var at := first + NewLines(body, k);
      if body[k] != '-' {
        MarksFrom(body, k + 1, first, l);
        if l in Marks(body, k, at) && !(body[k] == '+' && l == at) {
          assert l in Marks(body, k + 1, at + 1);
        } else if body[k] == '+' && l == at {
          assert MarkedBy(body, first, l, k);
        }
      } else {
        var e := RunEnd(body, k);
        RunHasNoNewLines(body, k, e);
        RunHasNoNewLines(body, k, e - 1);
        MarksFrom(body, e, first, l);
        if l in RunMarks(body, e, at) {
          assert MarkedBy(body, first, l, e - 1);
        }
        forall i | k <= i < e - 1
          ensures !MarkedBy(body, first, l, i)
        {
          assert body[i + 1] == '-';
        }
      }
    }
  }

  /** Exactly the added lines, the line before every deletion run, and the line after it
      unless an addition follows or the run ends a hunk that has context. */
  lemma MarksAreExact(body: Kinds, first: nat, l: nat)
    ensures l in Marks(body, 0, first) <==> exists i :: 0 <= i < |body| && MarkedBy(body, first, l, i)
  {
    MarksFrom(body, 0, first, l);
  }
}
