/** The budget that a run and all its child frames draw on (src/core/budget.ts). */
module Budget {
  import opened Wrappers
  import opened Usage

  datatype Limits = Limits(
    maxDepth: nat,
    maxFrames: nat,
    maxLogicalCalls: nat,
    maxAttempts: nat,
    maxControllerTurns: nat,
    maxConcurrency: nat,
    tokenLimit: Option<int>,
    storedByteLimit: int,
    deadlineMs: int)

  datatype BudgetUsage = BudgetUsage(
    framesOpened: int,
    logicalCalls: int,
    attempts: int,
    controllerTurns: int,
    activeLeafCalls: int,
    tokensReserved: int,
    tokensUsed: int,
    inputTokensUsed: int,
    outputTokensUsed: int,
    costUsd: real,
    providerDurationMs: int,
    storedBytes: int)

  const ZERO_USAGE := BudgetUsage(0, 0, 0, 0, 0, 0, 0, 0, 0, 0.0, 0, 0)

  datatype Ledger = Ledger(limits: Limits, usage: BudgetUsage)

  datatype BudgetError =
    | BudgetDepth | BudgetFrames | BudgetCalls | BudgetAttempts | BudgetTokens | BudgetBytes | BudgetDeadline
    | TurnsExhausted | InvalidRequest | InvalidResult

  predicate DeadlinePassed(ledger: Ledger, now: int) { now >= ledger.limits.deadlineMs }

  function OpenFrame(ledger: Ledger, childDepth: int): Result<Ledger, BudgetError> {
    if childDepth > ledger.limits.maxDepth then Err(BudgetDepth)
    else if ledger.usage.framesOpened + 1 > ledger.limits.maxFrames then Err(BudgetFrames)
    else Ok(ledger.(usage := ledger.usage.(framesOpened := ledger.usage.framesOpened + 1)))
  }

  function ReserveControllerTurn(ledger: Ledger, now: int): Result<Ledger, BudgetError> {
    if DeadlinePassed(ledger, now) then Err(BudgetDeadline)
    else if ledger.usage.controllerTurns + 1 > ledger.limits.maxControllerTurns then Err(TurnsExhausted)
    else Ok(ledger.(usage := ledger.usage.(controllerTurns := ledger.usage.controllerTurns + 1)))
  }

  function ReserveLogicalCall(ledger: Ledger, now: int): Result<Ledger, BudgetError> {
    if DeadlinePassed(ledger, now) then Err(BudgetDeadline)
    else if ledger.usage.logicalCalls + 1 > ledger.limits.maxLogicalCalls then Err(BudgetCalls)
    else Ok(ledger.(usage := ledger.usage.(logicalCalls := ledger.usage.logicalCalls + 1)))
  }

  /** One attempt, and the tokens it is expected to cost: used and reserved tokens must still fit the limit. */
  function ReserveAttempt(ledger: Ledger, now: int, reserveTokens: int): Result<Ledger, BudgetError> {
    var u := ledger.usage;
    if DeadlinePassed(ledger, now) then Err(BudgetDeadline)
    else if !Bounded(reserveTokens, MAX_CALL_TOKENS) then Err(InvalidRequest)
    else if !Bounded(u.attempts, MAX_SAFE_INTEGER) || !Bounded(u.tokensReserved, MAX_SAFE_INTEGER)
            || !Bounded(u.tokensUsed, MAX_SAFE_INTEGER) then Err(InvalidResult)
    else if u.attempts >= ledger.limits.maxAttempts then Err(BudgetAttempts)
    else if u.tokensReserved > MAX_SAFE_INTEGER - reserveTokens then Err(BudgetTokens)
    else
      var nextReserved := u.tokensReserved + reserveTokens;
      if ledger.limits.tokenLimit.Some? && u.tokensUsed > ledger.limits.tokenLimit.value - nextReserved then
        Err(BudgetTokens)
      else
        Ok(ledger.(usage := u.(attempts := u.attempts + 1, tokensReserved := nextReserved)))
  }

  predicate ValidAccounting(u: BudgetUsage) {
    && Bounded(u.tokensReserved, MAX_SAFE_INTEGER)
    && Bounded(u.tokensUsed, MAX_SAFE_INTEGER)
    && Bounded(u.inputTokensUsed, MAX_SAFE_INTEGER)
    && Bounded(u.outputTokensUsed, MAX_SAFE_INTEGER)
    && 0.0 <= u.costUsd
    && Bounded(u.providerDurationMs, MAX_SAFE_INTEGER)
  }

  function SettleAccounting(ledger: Ledger, reservedTokens: int, actualTokens: int, inputTokens: int, outputTokens: int,
                            costUsd: real, durationMs: int): Result<Ledger, BudgetError> {
    var u := ledger.usage;
    if !ValidAccounting(u) then Err(InvalidResult)
    else if !Bounded(reservedTokens, u.tokensReserved) then Err(InvalidResult)
    else if !Bounded(actualTokens, MAX_CALL_TOKENS) || !Bounded(inputTokens, MAX_CALL_TOKENS)
            || !Bounded(outputTokens, MAX_CALL_TOKENS) || inputTokens + outputTokens > actualTokens
            || costUsd < 0.0 || costUsd > MAX_CALL_COST_USD || !Bounded(durationMs, MAX_CALL_DURATION_MS)
            || u.tokensUsed > MAX_SAFE_INTEGER - actualTokens
            || u.inputTokensUsed > MAX_SAFE_INTEGER - inputTokens
            || u.outputTokensUsed > MAX_SAFE_INTEGER - outputTokens
            || u.providerDurationMs > MAX_SAFE_INTEGER - durationMs then Err(InvalidResult)
    else
      Ok(ledger.(usage := u.(
        tokensReserved := u.tokensReserved - reservedTokens,
        tokensUsed := u.tokensUsed + actualTokens,
        inputTokensUsed := u.inputTokensUsed + inputTokens,
        outputTokensUsed := u.outputTokensUsed + outputTokens,
        costUsd := u.costUsd + costUsd,
        providerDurationMs := u.providerDurationMs + durationMs)))
  }

  function SettleAttempt(ledger: Ledger, reservedTokens: int, actualTokens: int): Result<Ledger, BudgetError> {
    SettleAccounting(ledger, reservedTokens, actualTokens, 0, 0, 0.0, 0)
  }

  function SettleAttemptUsage(ledger: Ledger, reservedTokens: int, usage: CallUsage): Result<Ledger, BudgetError> {
    SettleAccounting(ledger, reservedTokens, usage.Tokens(), usage.Input(), usage.Output(), usage.Cost(), usage.durationMs)
  }

  /** `None` is the scheduling signal "saturated". */
  function AcquireLeaf(ledger: Ledger): Option<Ledger> {
    if ledger.usage.activeLeafCalls + 1 > ledger.limits.maxConcurrency then None
    else Some(ledger.(usage := ledger.usage.(activeLeafCalls := ledger.usage.activeLeafCalls + 1)))
  }

  function ReleaseLeaf(ledger: Ledger): Ledger {
    ledger.(usage := ledger.usage.(activeLeafCalls := Max(0, ledger.usage.activeLeafCalls - 1)))
  }

  function Max(a: int, b: int): int { if a < b then b else a }
}
