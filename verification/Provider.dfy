/**
 * The write-ahead accounting protocol as a state machine: concurrent operations, child frames and controller turns
 * share one ledger and one journal (src/runtime/provider.ts, src/runtime/frame.ts).
 *
 * Each action is one uninterrupted stretch of the program between two awaits; any interleaving of actions is a run.
 */
module Provider {
  import opened Wrappers
  import opened Usage
  import opened Budget
  import opened Journal

  /** What the ledger holds of an attempt: its reservation, its usage, or nothing more. */
  datatype LedgerSide = Held | Charged(usage: CallUsage) | Freed

  datatype Phase =
    | AwaitIntent
    | Running
    | AwaitSettlement(outcome: Outcome, usage: CallUsage)
    | Finished

  /** Everything that reserves tree-wide capacity, in reservation order. `durable` says what the journal holds. */
  datatype Item =
    | Attempt(intent: Intent, operation: nat, phase: Phase, ledger: LedgerSide, intended: bool,
              settled: Option<CallUsage>, leaf: bool, permit: bool)
    | Child(opening: Opened, journaled: bool)
    | Turn(frameId: FrameId, iteration: nat, committed: bool)

  /** One ModelOperation object. */
  datatype Operation = Operation(
    frameId: FrameId, operationId: OperationId, kind: OperationKind, key: string,
    logicalReserved: bool, ordinal: nat, aggregate: CallUsage, poisoned: bool)

  /** The greatest ordinals handed out so far. */
  datatype Ordinals = Ordinals(attempts: map<OperationKey, nat>, executions: map<Digest, nat>)

  datatype Run = Run(
    runId: string, ledger: Ledger, journal: seq<Event>, items: seq<Item>, operations: seq<Operation>,
    ordinals: Ordinals, authority: bool)

  function Count(items: seq<Item>, p: Item -> bool): (n: nat)
    ensures n == 0 <==> forall k | 0 <= k < |items| :: !p(items[k])
  {
    if items == [] then 0 else Count(items[..|items| - 1], p) + (if p(items[|items| - 1]) then 1 else 0)
  }

  predicate HoldsPermit(item: Item) { item.Attempt? && item.permit }

  function Permits(items: seq<Item>): nat { Count(items, HoldsPermit) }

  datatype Action =
    | StartOperation(frameId: FrameId, operationId: OperationId, kind: OperationKind, key: string)
    | BeginAttempt(operation: nat, tokens: nat, version: RequestVersion, requestSha256: string,
                   stopBefore: bool, stopAfter: bool, now: int)
    | WriteIntent(item: nat)
    | IntentAcknowledged(item: nat)
    | IntentFailed(item: nat)
    | ExternalEnded(item: nat, outcome: Outcome, usage: CallUsage)
    | WriteSettlement(item: nat, errorCode: Option<string>)
    | SettlementResolved(item: nat, failed: bool)
    | ReserveChild(parent: FrameId, depth: nat, digest: Digest, objective: string, now: int)
    | WriteChild(item: nat)
    | ReserveTurn(frameId: FrameId, iteration: nat, now: int)
    | CommitCell(item: nat, cell: Cell)
    | OtherEvent(event: Event)
    | CloseAuthority

  function NextOrdinal<K>(ordinals: map<K, nat>, k: K): nat {
    (if k in ordinals then ordinals[k] else 0) + 1
  }

  /** The frame loop makes a controller operation for the turn it has just reserved. */
  predicate OwnTurn(items: seq<Item>, f: FrameId, id: OperationId) {
    id.ControllerOperation? && id.frameId == f && TurnIn(items, f, id.iteration)
  }

  function DoStartOperation(r: Run, f: FrameId, id: OperationId, kind: OperationKind, key: string): Run {
    if kind == ControllerKind && !OwnTurn(r.items, f, id) then r
    else
      var ordinal := NextOrdinal(r.ordinals.attempts, OpKey(f, id)) - 1;
      r.(operations := r.operations + [Operation(f, id, kind, key, false, ordinal, ZERO_CALL_USAGE, false)])
  }

  /** `reserve`: the logical call once per operation, then the attempt with its tokens, or nothing at all. */
  function Reserve(ledger: Ledger, op: Operation, tokens: int, now: int): Result<Ledger, BudgetError> {
    var logical :- if op.logicalReserved then Ok(ledger) else ReserveLogicalCall(ledger, now);
    ReserveAttempt(logical, now, tokens)
  }

  /** Give an outstanding reservation back without usage. */
  function FreeReservation(ledger: Ledger, tokens: int): Ledger {
    if tokens > 0 then
      match SettleAttempt(ledger, tokens, 0)
      case Ok(settled) => settled
      case Err(_) => ledger
    else ledger
  }

  function IntentOf(r: Run, op: Operation, ordinal: nat, tokens: nat, version: RequestVersion, sha: string): Intent
    requires tokens <= MAX_CALL_TOKENS
  {
    var identity := IntentIdentity(
      r.runId, op.frameId, op.operationId, op.kind, op.key, ordinal, version, sha,
      Reservation(if op.logicalReserved then 0 else 1, 1, tokens));
    Intent(identity, IntentId(identity))
  }

  /**
   * From the granted permit to the intent append. `stopBefore` and `stopAfter` are the two checkpoints (abort,
   * deadline, poison); a refused reservation leaves no trace, a later stop leaves the attempt counted.
   */
  function DoBeginAttempt(r: Run, k: nat, tokens: nat, version: RequestVersion, sha: string,
                          stopBefore: bool, stopAfter: bool, now: int): Run
    requires k < |r.operations|
  {
    var op := r.operations[k];
    if Permits(r.items) >= r.ledger.limits.maxConcurrency || stopBefore || op.poisoned || tokens > MAX_CALL_TOKENS then r
    else
      match Reserve(r.ledger, op, tokens, now)
      case Err(_) => r
      case Ok(reserved) =>
        var ordinal := op.ordinal + 1;
        var intent := IntentOf(r, op, ordinal, tokens, version, sha);
        var r' := r.(
          operations := r.operations[k := op.(logicalReserved := true, ordinal := ordinal)],
          ordinals := r.ordinals.(attempts := r.ordinals.attempts[OpKey(op.frameId, op.operationId) := ordinal]));
        match AcquireLeaf(reserved)
        case None =>
          r'.(ledger := FreeReservation(reserved, tokens),
              items := r.items + [Attempt(intent, k, Finished, Freed, false, None, false, false)])
        case Some(acquired) =>
          if stopAfter then
            r'.(ledger := ReleaseLeaf(FreeReservation(acquired, tokens)),
                items := r.items + [Attempt(intent, k, Finished, Freed, false, None, false, false)])
          else
            r'.(ledger := acquired,
                items := r.items + [Attempt(intent, k, AwaitIntent, Held, false, None, true, true)])
  }

  /** The journal commits an intent once; a repeated one is deduplicated and reported as a failure instead. */
  function DoWriteIntent(r: Run, k: nat): Run
    requires k < |r.items|
  {
    var a := r.items[k];
    if !a.Attempt? || a.phase != AwaitIntent || a.intended || OperationIntended(a.intent) in r.journal then r
    else r.(journal := r.journal + [OperationIntended(a.intent)], items := r.items[k := a.(intended := true)])
  }

  function DoIntentAcknowledged(r: Run, k: nat): Run
    requires k < |r.items|
  {
    var a := r.items[k];
    if !a.Attempt? || a.phase != AwaitIntent || !a.intended then r
    else r.(items := r.items[k := a.(phase := Running)])
  }

  function Poison(operations: seq<Operation>, k: nat): seq<Operation> {
    if k < |operations| then operations[k := operations[k].(poisoned := true)] else operations
  }

  /** The append failed, durably or not: the reservation, the leaf and the permit go back. */
  function DoIntentFailed(r: Run, k: nat): Run
    requires k < |r.items|
  {
    var a := r.items[k];
    if !a.Attempt? || a.phase != AwaitIntent then r
    else
      r.(ledger := ReleaseLeaf(FreeReservation(r.ledger, a.intent.identity.reservation.tokens)),
         items := r.items[k := a.(phase := Finished, ledger := Freed, leaf := false, permit := false)],
         operations := Poison(r.operations, a.operation))
  }

  /** The usage a model response or failure reports is taken as one attempt, or refused when its parts exceed its total. */
  function NormalizeOwnedUsage(u: CallUsage, limits: UsageLimits): Option<CallUsage> {
    match NormalizeCallUsage(u, limits)
    case Err(_) => None
    case Ok(normalized) =>
      var usage := normalized.(attempts := 1);
      var parts := usage.Input() + usage.Output();
      if !IsSafeInteger(parts) || (usage.totalTokens.Some? && parts > usage.totalTokens.value) then None else Some(usage)
  }

  /** `accountUsage` on the ledger: charge the usage, else release the reservation without it. */
  function Account(ledger: Ledger, tokens: int, usage: CallUsage): (Ledger, bool) {
    match SettleAttemptUsage(ledger, tokens, usage)
    case Ok(settled) => (settled, true)
    case Err(_) =>
      match SettleAttempt(ledger, tokens, 0)
      case Ok(released) => (released, false)
      case Err(_) => (ledger, false)
  }

  /**
   * The external effect ended. Without authority only the permit goes back. With authority the usage is accounted,
   * and the settlement carries it whether or not accounting succeeded.
   */
  function DoExternalEnded(r: Run, k: nat, outcome: Outcome, usage: CallUsage): Run
    requires k < |r.items|
  {
    var a := r.items[k];
    if !a.Attempt? || a.phase != Running then r
    else if !r.authority then r.(items := r.items[k := a.(phase := Finished, permit := false)])
    else
      var (ledger, charged) := Account(r.ledger, a.intent.identity.reservation.tokens, usage);
      var total :=
        if charged && a.operation < |r.operations| then AddUsage(r.operations[a.operation].aggregate, usage)
        else Err(InvalidUsage("ledger"));
      var reported := if total.Ok? then outcome else OutcomeInvalidResult;
      r.(ledger := ledger,
         operations :=
           if total.Ok? then r.operations[a.operation := r.operations[a.operation].(aggregate := total.value)]
           else r.operations,
         items := r.items[k := a.(
           phase := AwaitSettlement(reported, usage), ledger := if charged then Charged(usage) else Freed)])
  }

  function SettlementOf(r: Run, a: Item, errorCode: Option<string>): Settlement
    requires a.Attempt? && a.phase.AwaitSettlement?
  {
    Settlement(r.runId, a.intent.identity.frameId, a.intent.intentId, a.phase.outcome, a.phase.usage, errorCode)
  }

  function DoWriteSettlement(r: Run, k: nat, errorCode: Option<string>): Run
    requires k < |r.items|
  {
    var a := r.items[k];
    if !a.Attempt? || !a.phase.AwaitSettlement? || a.settled.Some? then r
    else
      r.(journal := r.journal + [OperationSettled(SettlementOf(r, a, errorCode))],
         items := r.items[k := a.(settled := Some(a.phase.usage))])
  }

  /** The settlement append resolved, successfully only if it was written: leaf and permit go back either way. */
  function DoSettlementResolved(r: Run, k: nat, failed: bool): Run
    requires k < |r.items|
  {
    var a := r.items[k];
    if !a.Attempt? || !a.phase.AwaitSettlement? || (a.settled.None? && !failed) then r
    else
      r.(ledger := ReleaseLeaf(r.ledger),
         items := r.items[k := a.(phase := Finished, leaf := false, permit := false)],
         operations := if failed then Poison(r.operations, a.operation) else r.operations)
  }

  /** `runChild`: one logical call and one frame, under the next execution ordinal of the recurse call. */
  function DoReserveChild(r: Run, parent: FrameId, depth: nat, digest: Digest, objective: string, now: int): Run {
    var execution := NextOrdinal(r.ordinals.executions, digest);
    if execution > MAX_SAFE_INTEGER then r
    else
      match ReserveLogicalCall(r.ledger, now)
      case Err(_) => r
      case Ok(reserved) =>
        match OpenFrame(reserved, depth + 1)
        case Err(_) => r
        case Ok(ledger) =>
          var f := FrameId(r.runId, ExecutionTail(digest, execution));
          r.(ledger := ledger,
             ordinals := r.ordinals.(executions := r.ordinals.executions[digest := execution]),
             items := r.items + [Child(Opened(f, Some(parent), depth + 1, objective), false)])
  }

  function DoWriteChild(r: Run, k: nat): Run
    requires k < |r.items|
  {
    var c := r.items[k];
    if !c.Child? || c.journaled then r
    else r.(journal := r.journal + [FrameOpened(c.opening)], items := r.items[k := c.(journaled := true)])
  }

  predicate CellIn(journal: seq<Event>, f: FrameId, iteration: nat) {
    exists e <- journal :: e.CellCommitted? && e.cell.frameId == f && e.cell.iteration == iteration
  }

  predicate TurnIn(items: seq<Item>, f: FrameId, iteration: nat) {
    exists k | 0 <= k < |items| :: items[k].Turn? && items[k].frameId == f && items[k].iteration == iteration
  }

  /** The frame loop numbers its turns, so no turn is taken twice. */
  function DoReserveTurn(r: Run, f: FrameId, iteration: nat, now: int): Run {
    if CellIn(r.journal, f, iteration) || TurnIn(r.items, f, iteration) then r
    else
      match ReserveControllerTurn(r.ledger, now)
      case Err(_) => r
      case Ok(reserved) => r.(ledger := reserved, items := r.items + [Turn(f, iteration, false)])
  }

  function DoCommitCell(r: Run, k: nat, cell: Cell): Run
    requires k < |r.items|
  {
    var t := r.items[k];
    if !t.Turn? || t.committed || cell.frameId != t.frameId || cell.iteration != t.iteration then r
    else r.(journal := r.journal + [CellCommitted(cell)], items := r.items[k := t.(committed := true)])
  }

  /** Keys are bound once, from frames with a lineage (see KeyBinding). */
  predicate KeyConsistent(r: Run, b: KeyBinding) {
    && FrameLineage(r.runId, b.frameId).Some?
    && (forall e <- r.journal |
          e.KeyBound? && RegistryIdOf(r.runId, e.binding.kind, e.binding.key, e.binding.frameId)
                         == RegistryIdOf(r.runId, b.kind, b.key, b.frameId) ::
          e.binding.identityHash == b.identityHash)
  }

  /** Events that reserve and settle nothing. */
  predicate NotAccounting(r: Run, e: Event) {
    && !e.FrameOpened? && !e.CellCommitted? && !e.OperationIntended? && !e.OperationSettled?
    && (e.KeyBound? ==> KeyConsistent(r, e.binding))
  }

  /** An action that is not enabled changes nothing. */
  function Apply(r: Run, a: Action): Run {
    match a
    case StartOperation(f, id, kind, key) => DoStartOperation(r, f, id, kind, key)
    case BeginAttempt(k, tokens, version, sha, stopBefore, stopAfter, now) =>
      if k < |r.operations| then DoBeginAttempt(r, k, tokens, version, sha, stopBefore, stopAfter, now) else r
    case WriteIntent(k) => if k < |r.items| then DoWriteIntent(r, k) else r
    case IntentAcknowledged(k) => if k < |r.items| then DoIntentAcknowledged(r, k) else r
    case IntentFailed(k) => if k < |r.items| then DoIntentFailed(r, k) else r
    case ExternalEnded(k, outcome, usage) => if k < |r.items| then DoExternalEnded(r, k, outcome, usage) else r
    case WriteSettlement(k, errorCode) => if k < |r.items| then DoWriteSettlement(r, k, errorCode) else r
    case SettlementResolved(k, failed) => if k < |r.items| then DoSettlementResolved(r, k, failed) else r
    case ReserveChild(parent, depth, digest, objective, now) => DoReserveChild(r, parent, depth, digest, objective, now)
    case WriteChild(k) => if k < |r.items| then DoWriteChild(r, k) else r
    case ReserveTurn(f, iteration, now) => DoReserveTurn(r, f, iteration, now)
    case CommitCell(k, cell) => if k < |r.items| then DoCommitCell(r, k, cell) else r
    case OtherEvent(e) => if NotAccounting(r, e) then r.(journal := r.journal + [e]) else r
    case CloseAuthority => r.(authority := false)
  }

  function ApplyAll(r: Run, actions: seq<Action>): Run {
    if actions == [] then r else Apply(ApplyAll(r, actions[..|actions| - 1]), actions[|actions| - 1])
  }
}
