/** Per-call usage and its checked, partial addition (src/core/usage.ts). */
module Usage {
  import opened Wrappers

  const MAX_SAFE_INTEGER: int := 0x1F_FFFF_FFFF_FFFF
  const MAX_CALL_TOKENS: int := 10_000_000
  const MAX_CALL_COST_USD: real := 10_000.0
  const MAX_CALL_DURATION_MS: int := 24 * 60 * 60 * 1_000
  const MAX_CALL_ATTEMPTS: int := 1

  datatype CallUsage = CallUsage(
    attempts: int,
    inputTokens: Option<int>,
    outputTokens: Option<int>,
    totalTokens: Option<int>,
    costUsd: Option<real>,
    durationMs: int)
  {
    function Input(): int { inputTokens.GetOr(0) }

    function Output(): int { outputTokens.GetOr(0) }

    function Cost(): real { costUsd.GetOr(0.0) }

    /** The tokens charged for one call: the reported total, else the sum of the reported parts. */
    function Tokens(): int { totalTokens.GetOr(Input() + Output()) }
  }

  datatype UsageLimits = UsageLimits(maxAttempts: int, maxTokens: int, maxCostUsd: real, maxDurationMs: int)

  const CALL_USAGE_LIMITS := UsageLimits(MAX_CALL_ATTEMPTS, MAX_CALL_TOKENS, MAX_CALL_COST_USD, MAX_CALL_DURATION_MS)
  const ADD_USAGE_LIMITS :=
    UsageLimits(MAX_SAFE_INTEGER, MAX_SAFE_INTEGER, MAX_CALL_COST_USD * 1_000_000.0, MAX_SAFE_INTEGER)
  const ZERO_CALL_USAGE := CallUsage(0, None, None, None, None, 0)

  datatype UsageError = InvalidUsage(field: string)

  predicate IsSafeInteger(n: int) {
    -MAX_SAFE_INTEGER <= n <= MAX_SAFE_INTEGER
  }

  predicate Bounded(n: int, max: int) {
    IsSafeInteger(n) && 0 <= n <= max
  }

  predicate OptionallyBounded(n: Option<int>, max: int) {
    n.Some? ==> Bounded(n.value, max)
  }

  predicate CostBounded(cost: Option<real>, max: real) {
    cost.Some? ==> 0.0 <= cost.value <= max
  }

  /** Bounds check of every field, reporting the first offending one. */
  function NormalizeCallUsage(u: CallUsage, limits: UsageLimits := CALL_USAGE_LIMITS): (r: Result<CallUsage, UsageError>)
    ensures r.Ok? <==> Within(u, limits)
    ensures r.Ok? ==> r.value == u
  {
    if !Bounded(u.attempts, limits.maxAttempts) then Err(InvalidUsage("attempts"))
    else if !Bounded(u.durationMs, limits.maxDurationMs) then Err(InvalidUsage("durationMs"))
    else if !OptionallyBounded(u.inputTokens, limits.maxTokens) then Err(InvalidUsage("inputTokens"))
    else if !OptionallyBounded(u.outputTokens, limits.maxTokens) then Err(InvalidUsage("outputTokens"))
    else if !OptionallyBounded(u.totalTokens, limits.maxTokens) then Err(InvalidUsage("totalTokens"))
    else if !CostBounded(u.costUsd, limits.maxCostUsd) then Err(InvalidUsage("costUsd"))
    else Ok(u)
  }

  /** Every field lies within its limit. */
  predicate Within(u: CallUsage, limits: UsageLimits) {
    && Bounded(u.attempts, limits.maxAttempts)
    && Bounded(u.durationMs, limits.maxDurationMs)
    && OptionallyBounded(u.inputTokens, limits.maxTokens)
    && OptionallyBounded(u.outputTokens, limits.maxTokens)
    && OptionallyBounded(u.totalTokens, limits.maxTokens)
    && CostBounded(u.costUsd, limits.maxCostUsd)
  }

  function CheckedIntegerSum(a: int, b: int, max: int): Option<int> {
    if !Bounded(a, MAX_SAFE_INTEGER) || !Bounded(b, MAX_SAFE_INTEGER) || a > max - b then None else Some(a + b)
  }

  datatype OptionalSum = Absent | Invalid | Present(sum: int) {
    function ToOption(): Option<int> {
      if Present? then Some(sum) else None
    }
  }

  function AddOptionalInteger(a: Option<int>, b: Option<int>, max: int): OptionalSum {
    if a.None? && b.None? then Absent
    else match CheckedIntegerSum(a.GetOr(0), b.GetOr(0), max)
      case None => Invalid
      case Some(sum) => Present(sum)
  }

  /** The sum of two usages, refused when an operand or a column of the sum is out of bounds. */
  function AddUsage(a: CallUsage, b: CallUsage, limits: UsageLimits := ADD_USAGE_LIMITS): Result<CallUsage, UsageError> {
    var left :- NormalizeCallUsage(a, limits);
    var right :- NormalizeCallUsage(b, limits);
    var attempts := CheckedIntegerSum(left.attempts, right.attempts, limits.maxAttempts);
    var durationMs := CheckedIntegerSum(left.durationMs, right.durationMs, limits.maxDurationMs);
    var inputTokens := AddOptionalInteger(left.inputTokens, right.inputTokens, limits.maxTokens);
    var outputTokens := AddOptionalInteger(left.outputTokens, right.outputTokens, limits.maxTokens);
    var totalTokens := AddOptionalInteger(left.totalTokens, right.totalTokens, limits.maxTokens);
    var costUsd := left.Cost() + right.Cost();
    if attempts.None? || durationMs.None? || inputTokens.Invalid? || outputTokens.Invalid?
       || totalTokens.Invalid? || costUsd > limits.maxCostUsd then
      Err(InvalidUsage("aggregate"))
    else
      Ok(CallUsage(
        attempts.value, inputTokens.ToOption(), outputTokens.ToOption(), totalTokens.ToOption(),
        if left.costUsd.Some? || right.costUsd.Some? then Some(costUsd) else None, durationMs.value))
  }

  // ----- What checked addition means: an exact, unbounded sum cut off at the limits.

  function PlusOption(a: Option<int>, b: Option<int>): Option<int> {
    if a.None? then b else if b.None? then a else Some(a.value + b.value)
  }

  /** Exact addition; a field stays absent exactly when it is absent on both sides. */
  function Plus(a: CallUsage, b: CallUsage): CallUsage {
    CallUsage(
      a.attempts + b.attempts,
      PlusOption(a.inputTokens, b.inputTokens),
      PlusOption(a.outputTokens, b.outputTokens),
      PlusOption(a.totalTokens, b.totalTokens),
      if a.costUsd.None? then b.costUsd else if b.costUsd.None? then a.costUsd else Some(a.costUsd.value + b.costUsd.value),
      a.durationMs + b.durationMs)
  }

  /** The exact sum of a sequence of usages. */
  function SumUsage(us: seq<CallUsage>): CallUsage {
    if us == [] then ZERO_CALL_USAGE else Plus(SumUsage(us[..|us| - 1]), us[|us| - 1])
  }

  /** Left-to-right accumulation with the checked addition, as every scope and segment sum does it. */
  function Accumulate(us: seq<CallUsage>): Result<CallUsage, UsageError> {
    if us == [] then Ok(ZERO_CALL_USAGE)
    else
      var total :- Accumulate(us[..|us| - 1]);
      AddUsage(total, us[|us| - 1])
  }

  lemma AccumulateAppend(us: seq<CallUsage>, u: CallUsage)
    requires Accumulate(us).Ok?
    ensures Accumulate(us + [u]) == AddUsage(Accumulate(us).value, u)
    ensures us + [] == us
  {
    assert (us + [u])[..|us|] == us;
  }

  lemma AddOptionalExact(a: Option<int>, b: Option<int>, max: int)
    requires max <= MAX_SAFE_INTEGER && OptionallyBounded(a, max) && OptionallyBounded(b, max)
    ensures AddOptionalInteger(a, b, max).Invalid? <==> !OptionallyBounded(PlusOption(a, b), max)
    ensures !AddOptionalInteger(a, b, max).Invalid? ==> AddOptionalInteger(a, b, max).ToOption() == PlusOption(a, b)
  {
  }

  /** Checked addition succeeds exactly when both operands and their exact sum are within limits, and is then exact. */
  lemma AddUsageExact(a: CallUsage, b: CallUsage, limits: UsageLimits)
    requires limits.maxAttempts <= MAX_SAFE_INTEGER && limits.maxTokens <= MAX_SAFE_INTEGER
    requires limits.maxDurationMs <= MAX_SAFE_INTEGER && 0.0 <= limits.maxCostUsd
    ensures AddUsage(a, b, limits).Ok? <==> Within(a, limits) && Within(b, limits) && Within(Plus(a, b), limits)
    ensures AddUsage(a, b, limits).Ok? ==> AddUsage(a, b, limits).value == Plus(a, b)
  {
    if Within(a, limits) && Within(b, limits) {
      AddOptionalExact(a.inputTokens, b.inputTokens, limits.maxTokens);
      AddOptionalExact(a.outputTokens, b.outputTokens, limits.maxTokens);
      AddOptionalExact(a.totalTokens, b.totalTokens, limits.maxTokens);
      assert Plus(a, b).Cost() == a.Cost() + b.Cost();
    }
  }

  lemma PlusRotates(a: CallUsage, b: CallUsage, c: CallUsage)
    ensures Plus(Plus(a, b), c) == Plus(Plus(a, c), b)
  {
  }

  /** A usage that is within limits added to a sum keeps every partial sum within limits. */
  lemma WithinPrefix(a: CallUsage, b: CallUsage, limits: UsageLimits)
    requires Within(b, limits) && Within(Plus(a, b), limits) && NonNegative(a)
    ensures Within(a, limits)
  {
  }

  predicate NonNegative(u: CallUsage) {
    && 0 <= u.attempts && 0 <= u.durationMs && 0 <= u.Input() && 0 <= u.Output()
    && 0 <= u.totalTokens.GetOr(0) && 0.0 <= u.Cost()
  }

  lemma {:induction false} SumNonNegative(us: seq<CallUsage>)
    requires forall u :: u in us ==> Within(u, ADD_USAGE_LIMITS)
    ensures NonNegative(SumUsage(us))
  {
    if us != [] {
      assert us[|us| - 1] in us;
      SumNonNegative(us[..|us| - 1]);
    }
  }

  /**
   * Accumulating succeeds exactly when every summand and the exact grand total are within limits, and the
   * outcome is that total. So the order of accumulation cannot decide whether it succeeds.
   */
  lemma {:induction false} AccumulateExact(us: seq<CallUsage>)
    ensures Accumulate(us).Ok? <==>
            (forall u :: u in us ==> Within(u, ADD_USAGE_LIMITS)) && Within(SumUsage(us), ADD_USAGE_LIMITS)
    ensures Accumulate(us).Ok? ==> Accumulate(us).value == SumUsage(us)
  {
    if us == [] {
    } else {
      var front, last := us[..|us| - 1], us[|us| - 1];
      assert us == front + [last];
      AccumulateExact(front);
      AddUsageExact(SumUsage(front), last, ADD_USAGE_LIMITS);
      if (forall u :: u in us ==> Within(u, ADD_USAGE_LIMITS)) && Within(SumUsage(us), ADD_USAGE_LIMITS) {
        SumNonNegative(front);
        WithinPrefix(SumUsage(front), last, ADD_USAGE_LIMITS);
      }
    }
  }

  /** Removing any one summand from the middle subtracts exactly it. */
  lemma {:induction false} SumWithout(us: seq<CallUsage>, k: nat)
    requires k < |us|
    ensures SumUsage(us) == Plus(SumUsage(us[..k] + us[k + 1..]), us[k])
  {
    var front, last := us[..|us| - 1], us[|us| - 1];
    if k == |us| - 1 {
      assert us[..k] + us[k + 1..] == front;
    } else {
      SumWithout(front, k);
      var rest := us[..k] + us[k + 1..];
      assert rest[..|rest| - 1] == front[..k] + front[k + 1..];
      assert rest[|rest| - 1] == last;
      PlusRotates(SumUsage(front[..k] + front[k + 1..]), us[k], last);
    }
  }

  /** The exact sum depends on which usages were added, never on their order. */
  lemma {:induction false} SumOrderIndependent(us: seq<CallUsage>, vs: seq<CallUsage>)
    requires multiset(us) == multiset(vs)
    ensures SumUsage(us) == SumUsage(vs)
    decreases |us|
  {
    if us == [] {
      assert |vs| == |multiset(vs)| == |multiset(us)| == 0;
    } else {
      var last := us[|us| - 1];
      var front := us[..|us| - 1];
      assert us == front + [last];
      assert last in multiset(us);
      var k :| 0 <= k < |vs| && vs[k] == last;
      var rest := vs[..k] + vs[k + 1..];
      assert vs == vs[..k] + [last] + vs[k + 1..];
      assert multiset(vs) == multiset(rest) + multiset{last};
      assert multiset(us) == multiset(front) + multiset{last};
      assert multiset(front) == multiset(us) - multiset{last};
      assert multiset(front) == multiset(rest);
      SumOrderIndependent(front, rest);
      SumWithout(vs, k);
    }
  }

  /** Concurrent settlements may be accumulated in any order: outcome and success are the same. */
  lemma AccumulateOrderIndependent(us: seq<CallUsage>, vs: seq<CallUsage>)
    requires multiset(us) == multiset(vs)
    ensures Accumulate(us).Ok? <==> Accumulate(vs).Ok?
    ensures Accumulate(us).Ok? ==> Accumulate(us).value == Accumulate(vs).value
  {
    AccumulateExact(us);
    AccumulateExact(vs);
    SumOrderIndependent(us, vs);
    forall u ensures u in us <==> u in vs {
      assert u in us <==> u in multiset(us);
      assert u in vs <==> u in multiset(vs);
    }
  }

  // ----- Sums of single calls.

  /** No column exceeds that of `n` maximal calls. */
  predicate AtMostCalls(u: CallUsage, n: nat) {
    && 0 <= u.attempts <= n && 0 <= u.durationMs <= n * MAX_CALL_DURATION_MS
    && (u.inputTokens.Some? ==> 0 <= u.inputTokens.value <= n * MAX_CALL_TOKENS)
    && (u.outputTokens.Some? ==> 0 <= u.outputTokens.value <= n * MAX_CALL_TOKENS)
    && (u.totalTokens.Some? ==> 0 <= u.totalTokens.value <= n * MAX_CALL_TOKENS)
    && (u.costUsd.Some? ==> 0.0 <= u.costUsd.value <= n as real * MAX_CALL_COST_USD)
  }

  lemma OneMoreCall(sum: CallUsage, usage: CallUsage, n: nat)
    requires AtMostCalls(sum, n) && Within(usage, CALL_USAGE_LIMITS)
    ensures AtMostCalls(Plus(sum, usage), n + 1)
  {
  }

  lemma {:induction false} SumAtMostCalls(us: seq<CallUsage>)
    requires forall u <- us :: Within(u, CALL_USAGE_LIMITS)
    ensures AtMostCalls(SumUsage(us), |us|)
  {
    if us != [] {
      assert us[|us| - 1] in us;
      SumAtMostCalls(us[..|us| - 1]);
      OneMoreCall(SumUsage(us[..|us| - 1]), us[|us| - 1], |us| - 1);
    }
  }

  const MILLION: nat := 1_000_000

  lemma MillionCallsFit(u: CallUsage, n: nat)
    requires AtMostCalls(u, n) && n <= MILLION
    ensures Within(u, ADD_USAGE_LIMITS)
  {
  }
}
