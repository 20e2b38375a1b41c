/** The conversation's context budget and the meter that gates every send.

    Rust's u64 and u128 quantities are natural numbers here; `NarrowingsAreExact`
    shows that no addition, product or cast of the source loses anything. */
module Budget {
  import opened Wrappers

  const MAX_CONTEXT_TOKENS: nat := 16_777_216
  const DEFAULT_BYTES_PER_TOKEN: nat := 4
  const PREAMBLE_ALLOWANCE_TOKENS: nat := 1_536
  const U64: nat := 0x1_0000_0000_0000_0000
  const U128: nat := U64 * U64

  datatype ContextBudget = ContextBudget(contextTokens: nat, outputTokens: Option<nat>) {
    /** What `NewBudget` establishes; the fields are private in the source. */
    predicate Valid() {
      && contextTokens <= MAX_CONTEXT_TOKENS
      && (outputTokens.Some? ==> 1 <= outputTokens.value)
      && PREAMBLE_ALLOWANCE_TOKENS + (if outputTokens.Some? then outputTokens.value else 0) < contextTokens
    }

    function PromptBudget(): nat
      requires Valid()
    {
      contextTokens - (if outputTokens.Some? then outputTokens.value else 0)
    }
  }

  datatype BudgetError = AboveCeiling | NoOutputTokens | BelowPreamble

  /** Accepts exactly the pairs whose prompt budget clears the preamble allowance. */
  function NewBudget(contextTokens: nat, outputTokens: Option<nat>): (r: Result<ContextBudget, BudgetError>)
    ensures r.Ok? <==> ContextBudget(contextTokens, outputTokens).Valid()
    ensures r.Ok? ==> r.value.contextTokens == contextTokens && r.value.outputTokens == outputTokens
    ensures r.Ok? ==> r.value.PromptBudget() >= 1_537
  {
    if contextTokens > MAX_CONTEXT_TOKENS then Err(AboveCeiling)
    else if outputTokens == Some(0) then Err(NoOutputTokens)
    else
      var promptBudget := match outputTokens
        case Some(o) => if o <= contextTokens then Some(contextTokens - o) else None
        case None => Some(contextTokens);
      if promptBudget.Some? && promptBudget.value > PREAMBLE_ALLOWANCE_TOKENS
      then Ok(ContextBudget(contextTokens, outputTokens))
      else Err(BelowPreamble)
  }

  datatype Notice = Notice(percent: nat, tokens: nat, budget: nat, estimated: bool)

  datatype Gate = Send(notice: Option<Notice>) | Stop

  /** One measurement: bytes sent and the prompt tokens the provider reported for them. */
  datatype Sample = Sample(bytes: nat, tokens: nat)

  /** The meter's fields, as a value. */
  datatype MeterState = MeterState(
    budget: ContextBudget, first: Option<Sample>, last: Option<Sample>, warned80: bool, warned95: bool)
  {
    ghost predicate Valid() {
      && budget.Valid()
      && (first.Some? <==> last.Some?)
      && (first.Some? ==> first.value.tokens <= MAX_CONTEXT_TOKENS)
      && (last.Some? ==> last.value.tokens <= MAX_CONTEXT_TOKENS)
      && (warned95 ==> warned80)
    }

    function Ratio(): (r: nat)
      ensures 1 <= r <= DEFAULT_BYTES_PER_TOKEN
    {
      if first.Some? && last.Some? && last.value.bytes > first.value.bytes && last.value.tokens > first.value.tokens
      then
        var observed := Quotient(last.value.bytes - first.value.bytes, last.value.tokens - first.value.tokens);
        if observed < 1 then 1 else if observed > DEFAULT_BYTES_PER_TOKEN then DEFAULT_BYTES_PER_TOKEN else observed
      else DEFAULT_BYTES_PER_TOKEN
    }

    /** Projected tokens of a send, and whether no measurement backs the figure. */
    function Projected(bytes: nat): (nat, bool) {
      var floor := CeilDiv(bytes, DEFAULT_BYTES_PER_TOKEN);
      match last
      case Some(l) =>
        var grown := if bytes > l.bytes then bytes - l.bytes else 0;
        var measured := l.tokens + CeilDiv(grown, Ratio());
        (if measured > floor then measured else floor, false)
      case None => (PREAMBLE_ALLOWANCE_TOKENS + floor, true)
    }

    function Recorded(bytesSent: nat, promptTokens: Option<nat>): MeterState {
      if promptTokens.None? || promptTokens.value == 0 then this
      else
        var m := Sample(bytesSent,
          if promptTokens.value > MAX_CONTEXT_TOKENS then MAX_CONTEXT_TOKENS else promptTokens.value);
        this.(first := if first.None? then Some(m) else first, last := Some(m))
    }

    function Gated(bytes: nat): (Gate, MeterState)
      requires budget.Valid()
    {
      var (projected, estimated) := Projected(bytes);
      var limit := budget.PromptBudget();
      if projected > limit then (Stop, this)
      else
        var percent := Quotient(projected * 100, limit);
        var notice := Notice(percent, projected, limit, estimated);
        if percent >= 95 && !warned95 then (Send(Some(notice)), this.(warned95 := true, warned80 := true))
        else if percent >= 80 && !warned80 then (Send(Some(notice)), this.(warned80 := true))
        else (Send(None), this)
    }
  }

  /** `a / d` by repeated subtraction, which keeps the solver's arithmetic linear;
      `QuotientIsDivision` says it is the division operator. */
  function Quotient(a: nat, d: nat): (q: nat)
    requires d > 0
  {
    if a < d then 0 else 1 + Quotient(a - d, d)
  }

  function CeilDiv(a: nat, d: nat): (q: nat)
    requires d > 0
  {
    Quotient(a + d - 1, d)
  }

  function NewMeterState(budget: ContextBudget): MeterState {
    MeterState(budget, None, None, false, false)
  }

  lemma GateKeepsValid(m: MeterState, bytes: nat)
    requires m.Valid()
    ensures m.Gated(bytes).1.Valid()
  {
  }

  /** The meter object of the source, field for field. */
  class Meter {
    const budget: ContextBudget
    var first: Option<Sample>
    var last: Option<Sample>
    var warned80: bool
    var warned95: bool

    function State(): MeterState
      reads this
    {
      MeterState(budget, first, last, warned80, warned95)
    }

    constructor (budget: ContextBudget)
      requires budget.Valid()
      ensures State() == NewMeterState(budget) && State().Valid()
    {
      this.budget := budget;
      first, last, warned80, warned95 := None, None, false, false;
    }

    method Record(bytesSent: nat, promptTokens: Option<nat>)
      modifies this
      ensures State() == old(State()).Recorded(bytesSent, promptTokens)
      ensures old(State().Valid()) ==> State().Valid()
    {
      if promptTokens.None? || promptTokens.value == 0 {
        return;
      }
      var m := Sample(bytesSent,
        if promptTokens.value > MAX_CONTEXT_TOKENS then MAX_CONTEXT_TOKENS else promptTokens.value);
      if first.None? {
        first := Some(m);
      }
      last := Some(m);
    }

    method PassGate(bytes: nat) returns (g: Gate)
      requires State().Valid()
      modifies this
      ensures (g, State()) == old(State()).Gated(bytes) && State().Valid()
    {
      var (projected, estimated) := State().Projected(bytes);
      var limit := budget.PromptBudget();
      if projected > limit {
        return Stop;
      }
      var percent := Quotient(projected * 100, limit);
      var notice := Notice(percent, projected, limit, estimated);
      if percent >= 95 && !warned95 {
        warned95 := true;
        warned80 := true;
        return Send(Some(notice));
      } else if percent >= 80 && !warned80 {
        warned80 := true;
        return Send(Some(notice));
      }
      return Send(None);
    }
  }

  // ---- Arithmetic -------------------------------------------------------------------

  lemma {:induction false} QuotientBounds(a: nat, d: nat)
    requires d > 0
    ensures d * Quotient(a, d) <= a < d * Quotient(a, d) + d
  {
    if a >= d {
      QuotientBounds(a - d, d);
      assert d * Quotient(a, d) == d * Quotient(a - d, d) + d;
    }
  }

  lemma QuotientIsDivision(a: nat, d: nat)
    requires d > 0
    ensures Quotient(a, d) == a / d
  {
    hide Quotient;
    QuotientBounds(a, d);
    var q, e := Quotient(a, d), a / d;
    assert d * e + a % d == a;
    TimesMonotone(d, q + 1, e);
    TimesMonotone(d, e + 1, q);
  }

  lemma TimesMonotone(d: nat, x: nat, y: nat)
    ensures x <= y ==> d * x <= d * y
  {
  }

  lemma QuotientMonotone(a: nat, b: nat, d: nat)
    requires d > 0 && a <= b
    ensures Quotient(a, d) <= Quotient(b, d)
  {
  }

  lemma QuotientBelow(a: nat, k: nat, d: nat)
    requires d > 0 && a <= k * d
    ensures Quotient(a, d) <= k
  {
    if a >= d {
      assert k * d == (k - 1) * d + d;
      QuotientBelow(a - d, k - 1, d);
    }
  }

  lemma CeilDivBounds(a: nat, d: nat)
    requires d > 0
    ensures a <= d * CeilDiv(a, d)
    ensures CeilDiv(a, d) <= a
  {
    if a > d {
      CeilDivBounds(a - d, d);
      assert a + d - 1 - d == (a - d) + d - 1;
      assert d * CeilDiv(a, d) == d * CeilDiv(a - d, d) + d;
    } else if a > 0 {
      assert CeilDiv(a, d) == 1 + Quotient(a - 1, d) == 1;
    }
  }

  /** More bytes never project to fewer tokens, whatever was measured before. */
  lemma ProjectedMonotone(m: MeterState, a: nat, b: nat)
    requires a <= b
    ensures m.Projected(a).0 <= m.Projected(b).0
    ensures m.Projected(a).1 == m.Projected(b).1
  {
    QuotientMonotone(a + DEFAULT_BYTES_PER_TOKEN - 1, b + DEFAULT_BYTES_PER_TOKEN - 1, DEFAULT_BYTES_PER_TOKEN);
    if m.last.Some? {
      var l := m.last.value;
      var fa := if a > l.bytes then a - l.bytes else 0;
      var fb := if b > l.bytes then b - l.bytes else 0;
      QuotientMonotone(fa + m.Ratio() - 1, fb + m.Ratio() - 1, m.Ratio());
    }
  }

  /** A projection covers four bytes a token whatever was reported, and once something was
      measured, that and the growth since at the ratio in force; before, the allowance. */
  lemma ProjectedCovers(m: MeterState, bytes: nat)
    ensures bytes <= DEFAULT_BYTES_PER_TOKEN * m.Projected(bytes).0
    ensures m.last.None? ==> m.Projected(bytes).0 >= PREAMBLE_ALLOWANCE_TOKENS
    ensures m.last.Some? ==>
              var l := m.last.value;
              m.Projected(bytes).0 >= l.tokens && bytes <= l.bytes + m.Ratio() * (m.Projected(bytes).0 - l.tokens)
  {
    hide Quotient;
    var p := m.Projected(bytes).0;
    CeilDivBounds(bytes, DEFAULT_BYTES_PER_TOKEN);
    if m.last.Some? {
      var l, d := m.last.value, m.Ratio();
      var grown := if bytes > l.bytes then bytes - l.bytes else 0;
      CeilDivBounds(grown, d);
      TimesMonotone(d, CeilDiv(grown, d), p - l.tokens);
    }
  }

  /** No report of usage can switch the meter off: past four bytes per budgeted token
      the gate stops, and it changes nothing. */
  lemma UnderReportingCannotDisarm(m: MeterState, bytes: nat)
    requires m.Valid() && bytes > DEFAULT_BYTES_PER_TOKEN * m.budget.PromptBudget()
    ensures m.Gated(bytes) == (Stop, m)
  {
    CeilDivBounds(bytes, DEFAULT_BYTES_PER_TOKEN);
  }

  /** Every u128 intermediate fits, and both narrowing casts of the notice are exact. */
  lemma NarrowingsAreExact(m: MeterState, bytes: nat)
    requires m.Valid() && bytes < U64
    ensures m.Projected(bytes).0 * 100 < U128
    ensures m.Projected(bytes).0 <= m.budget.PromptBudget() ==>
              Quotient(m.Projected(bytes).0 * 100, m.budget.PromptBudget()) <= 100 < U64 && m.Projected(bytes).0 < U64
    ensures m.Gated(bytes).0.Send? && m.Gated(bytes).0.notice.Some? ==>
              var n := m.Gated(bytes).0.notice.value;
              80 <= n.percent <= 100 && n.tokens <= n.budget == m.budget.PromptBudget() <= MAX_CONTEXT_TOKENS
  {
    CeilDivBounds(bytes, DEFAULT_BYTES_PER_TOKEN);
    if m.last.Some? {
      CeilDivBounds(if bytes > m.last.value.bytes then bytes - m.last.value.bytes else 0, m.Ratio());
    }
    assert m.Projected(bytes).0 <= bytes + MAX_CONTEXT_TOKENS;
    if m.Projected(bytes).0 <= m.budget.PromptBudget() {
      QuotientBelow(m.Projected(bytes).0 * 100, 100, m.budget.PromptBudget());
    }
  }

  lemma QuotientReaches(a: nat, d: nat, k: nat)
    requires d > 0
    ensures Quotient(a, d) >= k <==> d * k <= a
  {
    hide Quotient;
    QuotientBounds(a, d);
    TimesMonotone(d, k, Quotient(a, d));
    TimesMonotone(d, Quotient(a, d) + 1, k);
  }

  lemma CeilDivReaches(a: nat, d: nat, k: nat)
    requires d > 0
    ensures CeilDiv(a, d) <= k <==> a <= d * k
  {
    hide Quotient;
    QuotientReaches(a + d - 1, d, k + 1);
    assert d * (k + 1) == d * k + d;
  }

  /** `p` tokens are enough for a send: four bytes a token, on top of the preamble allowance
      while nothing was measured, and at least the latest measurement and the growth since. */
  ghost predicate Enough(m: MeterState, bytes: nat, p: nat) {
    if m.last.None? then
      p >= PREAMBLE_ALLOWANCE_TOKENS && bytes <= 4 * (p - PREAMBLE_ALLOWANCE_TOKENS)
    else
      var l := m.last.value;
      bytes <= 4 * p && l.tokens <= p && bytes <= l.bytes + m.Ratio() * (p - l.tokens)
  }

  /** A projection is the least number of tokens that is enough. */
  lemma ProjectedIsLeast(m: MeterState, bytes: nat, p: nat)
    ensures m.Projected(bytes).0 <= p <==> Enough(m, bytes, p)
  {
    hide Quotient, CeilDiv;
    if m.last.None? {
      CeilDivReaches(bytes, 4, if p >= PREAMBLE_ALLOWANCE_TOKENS then p - PREAMBLE_ALLOWANCE_TOKENS else 0);
    } else {
      var l := m.last.value;
      CeilDivReaches(bytes, 4, p);
      CeilDivReaches(if bytes > l.bytes then bytes - l.bytes else 0, m.Ratio(), if p >= l.tokens then p - l.tokens else 0);
    }
  }

  /** Bytes per token, as observed between the first and the latest measurement where both
      grew, rounded down and kept between 1 and 4; otherwise 4. */
  lemma RatioIsObserved(m: MeterState)
    ensures var r := m.Ratio();
      if m.first.Some? && m.last.Some? && m.last.value.bytes > m.first.value.bytes && m.last.value.tokens > m.first.value.tokens
      then
        var bytes, tokens := m.last.value.bytes - m.first.value.bytes, m.last.value.tokens - m.first.value.tokens;
        (r > 1 ==> tokens * r <= bytes) && (r < 4 ==> bytes < tokens * (r + 1))
      else r == 4
  {
    if m.first.Some? && m.last.Some? && m.last.value.bytes > m.first.value.bytes && m.last.value.tokens > m.first.value.tokens {
      var bytes, tokens := m.last.value.bytes - m.first.value.bytes, m.last.value.tokens - m.first.value.tokens;
      QuotientReaches(bytes, tokens, m.Ratio());
      QuotientReaches(bytes, tokens, m.Ratio() + 1);
    }
  }

  /** The gate stops exactly past the budget. Below it, it warns exactly when the projection
      reaches 95 percent and that was not said yet, or 80 percent and nothing was; the notice
      gives the percentage rounded down, the projection, the budget, and whether no
      measurement backs it; and the flags remember both marks. */
  lemma GateWarnsAtTheMarks(m: MeterState, bytes: nat)
    requires m.Valid()
    ensures var (p, estimated) := m.Projected(bytes); var limit := m.budget.PromptBudget(); var (g, m') := m.Gated(bytes);
      var at80, at95 := p * 100 >= limit * 80, p * 100 >= limit * 95;
      && (estimated <==> m.last.None?)
      && (g.Stop? <==> p > limit)
      && (g.Stop? ==> m' == m)
      && (g.Send? ==>
            && m'.warned80 == (m.warned80 || at80) && m'.warned95 == (m.warned95 || at95)
            && (g.notice.Some? <==> (at95 && !m.warned95) || (at80 && !m.warned80))
            && (g.notice.Some? ==>
                  var n := g.notice.value;
                  && n.tokens == p && n.budget == limit && n.estimated == estimated
                  && limit * n.percent <= p * 100 < limit * (n.percent + 1)))
  {
    hide Quotient;
    var p, limit := m.Projected(bytes).0, m.budget.PromptBudget();
    QuotientReaches(p * 100, limit, 80);
    QuotientReaches(p * 100, limit, 95);
    QuotientReaches(p * 100, limit, Quotient(p * 100, limit));
    QuotientReaches(p * 100, limit, Quotient(p * 100, limit) + 1);
  }

  // ---- Notices over a whole conversation --------------------------------------------

  /** What `MeterState`'s two flags remember of the notices issued so far. */
  ghost predicate Announced(m: MeterState, ns: seq<Notice>) {
    && AtMostTwoNotices(ns)
    && (m.warned80 <==> ns != [])
    && (m.warned95 <==> ns != [] && ns[|ns| - 1].percent >= 95)
  }

  /** At most two; none below 80; only the last may reach 95, so at most one is below 95
      and none follows one at 95 or above. */
  ghost predicate AtMostTwoNotices(ns: seq<Notice>) {
    && |ns| <= 2
    && (forall i | 0 <= i < |ns| :: 80 <= ns[i].percent <= 100)
    && (|ns| == 2 ==> ns[0].percent < 95 <= ns[1].percent)
  }

  function NoticesOf(g: Gate): seq<Notice> {
    if g.Send? && g.notice.Some? then [g.notice.value] else []
  }

  lemma GateKeepsAnnounced(m: MeterState, bytes: nat, ns: seq<Notice>)
    requires m.Valid() && Announced(m, ns)
    ensures m.Gated(bytes).1.Valid() && Announced(m.Gated(bytes).1, ns + NoticesOf(m.Gated(bytes).0))
  {
    if m.Projected(bytes).0 <= m.budget.PromptBudget() {
      QuotientBelow(m.Projected(bytes).0 * 100, 100, m.budget.PromptBudget());
    }
  }

  /** One use of the meter. */
  datatype Use = Record(bytes: nat, promptTokens: Option<nat>) | PassGate(bytes: nat)

  function After(m: MeterState, u: Use): MeterState
    requires m.budget.Valid()
  {
    match u
    case Record(b, t) => m.Recorded(b, t)
    case PassGate(b) => m.Gated(b).1
  }

  function Issued(m: MeterState, u: Use): seq<Notice>
    requires m.budget.Valid()
  {
    match u
    case Record(_, _) => []
    case PassGate(b) => NoticesOf(m.Gated(b).0)
  }

  function NoticesIssued(m: MeterState, uses: seq<Use>): seq<Notice>
    requires m.budget.Valid()
    decreases |uses|
  {
    if uses == [] then [] else Issued(m, uses[0]) + NoticesIssued(After(m, uses[0]), uses[1..])
  }

  lemma UseKeepsAnnounced(m: MeterState, u: Use, ns: seq<Notice>)
    requires m.Valid() && Announced(m, ns)
    ensures After(m, u).Valid() && Announced(After(m, u), ns + Issued(m, u))
  {
    match u
    case Record(_, _) => assert ns + [] == ns;
    case PassGate(b) => GateKeepsAnnounced(m, b, ns);
  }

  lemma {:induction false} NoticesStayAnnounced(m: MeterState, uses: seq<Use>, ns: seq<Notice>)
    requires m.Valid() && Announced(m, ns)
    ensures AtMostTwoNotices(ns + NoticesIssued(m, uses))
    decreases |uses|
  {
    if uses == [] {
      assert ns + [] == ns;
    } else {
      var issued, m' := Issued(m, uses[0]), After(m, uses[0]);
      UseKeepsAnnounced(m, uses[0], ns);
      NoticesStayAnnounced(m', uses[1..], ns + issued);
      Reassociate(ns, issued, NoticesIssued(m', uses[1..]));
    }
  }

  lemma Reassociate<T>(a: seq<T>, b: seq<T>, c: seq<T>)
    ensures a + (b + c) == a + b + c
  {
  }

  /** Every interleaving of measurements and gates of one meter issues at most two notices. */
  lemma EveryConversationIsWarnedAtMostTwice(budget: ContextBudget, uses: seq<Use>)
    requires budget.Valid()
    ensures AtMostTwoNotices(NoticesIssued(NewMeterState(budget), uses))
  {
    NoticesStayAnnounced(NewMeterState(budget), uses, []);
    assert [] + NoticesIssued(NewMeterState(budget), uses) == NoticesIssued(NewMeterState(budget), uses);
  }
}
