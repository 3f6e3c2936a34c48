/**
 * Undisturbed attempts, child frames and turns (src/runtime/provider.ts, src/runtime/frame.ts): when they are granted,
 * what they leave in the ledger and in the journal, and how each kind of failure ends them.
 */
module AttemptLifecycle {
  import opened Wrappers
  import opened Usage
  import opened Budget
  import opened Journal
  import opened Provider
  import opened LedgerConservation
  import opened AttemptOutcomes
  import JournalAcceptance
  import OperationDiscipline
  import OperationOrder

  // ----- When an attempt is granted.

  /** The budget has room for the next attempt of the operation before the deadline. */
  predicate HasRoom(l: Ledger, op: Operation, tokens: nat, time: int) {
    && time < l.limits.deadlineMs
    && (op.logicalReserved || l.usage.logicalCalls + 1 <= l.limits.maxLogicalCalls)
    && l.usage.attempts + 1 <= l.limits.maxAttempts && l.usage.attempts <= MAX_SAFE_INTEGER
    && tokens <= MAX_CALL_TOKENS && l.usage.tokensReserved + tokens <= MAX_SAFE_INTEGER
    && (l.limits.tokenLimit.Some? ==>
          l.usage.tokensUsed + l.usage.tokensReserved + tokens <= l.limits.tokenLimit.value)
  }

  lemma ReserveExactly(l: Ledger, op: Operation, tokens: nat, time: int)
    requires ValidAccounting(l.usage) && 0 <= l.usage.attempts
    ensures Reserve(l, op, tokens, time).Ok? <==> HasRoom(l, op, tokens, time)
  {
  }

  lemma CountersNonNegative(r: Run, actions: seq<Action>)
    requires Started(r) && 0 <= r.ledger.usage.attempts
    ensures ValidAccounting(ApplyAll(r, actions).ledger.usage) && 0 <= ApplyAll(r, actions).ledger.usage.attempts
  {
    RunKeepsLedger(r, actions);
    LedgerTotalNonNegative(ApplyAll(r, actions).items);
    AttemptsNonNegative(ApplyAll(r, actions).items);
  }

  lemma {:induction false} AttemptsNonNegative(items: seq<Item>)
    ensures LedgerTotal(items).attempts >= 0
  {
    if items != [] { AttemptsNonNegative(items[..|items| - 1]); }
  }

  /** A permit is free, the operation is not poisoned, and the budget has room. */
  predicate Grantable(r: Run, k: nat, tokens: nat, time: int)
    requires k < |r.operations|
  {
    && Permits(r.items) < r.ledger.limits.maxConcurrency && !r.operations[k].poisoned
    && HasRoom(r.ledger, r.operations[k], tokens, time)
  }

  /** In every run an attempt takes something from the budget if and only if it is grantable and not stopped before. */
  lemma AttemptGranted(r: Run, actions: seq<Action>, k: nat, tokens: nat, version: RequestVersion, sha: string,
                       stopBefore: bool, stopAfter: bool, time: int)
    requires Started(r) && 0 <= r.ledger.usage.attempts && k < |ApplyAll(r, actions).operations|
    ensures var now := ApplyAll(r, actions);
            Apply(now, BeginAttempt(k, tokens, version, sha, stopBefore, stopAfter, time)) != now <==>
              Grantable(now, k, tokens, time) && !stopBefore
  {
    var now := ApplyAll(r, actions);
    CountersNonNegative(r, actions);
    ReserveExactly(now.ledger, now.operations[k], tokens, time);
  }

  // ----- The stages of an attempt.

  /** The run with one more item, one more ordinal of the operation, and the rest as given. */
  function Staged(b: Run, k: nat, item: Item, usage: BudgetUsage, events: seq<Event>, sum: CallUsage, poisoned: bool): Run
    requires k < |b.operations|
  {
    var op := b.operations[k];
    var ordinal := op.ordinal + 1;
    b.(ledger := b.ledger.(usage := usage),
       journal := b.journal + events,
       items := b.items + [item],
       operations := b.operations[k := op.(
         logicalReserved := true, ordinal := ordinal, aggregate := sum, poisoned := poisoned)],
       ordinals := b.ordinals.(attempts := b.ordinals.attempts[OpKey(op.frameId, op.operationId) := ordinal]))
  }

  /** The ledger's columns with the attempt counted and nothing else left of it. */
  function CountedUsage(b: Run, k: nat): BudgetUsage
    requires k < |b.operations|
  {
    b.ledger.usage.(
      attempts := b.ledger.usage.attempts + 1,
      logicalCalls := b.ledger.usage.logicalCalls + (if b.operations[k].logicalReserved then 0 else 1))
  }

  /** The ledger's columns while the attempt holds its reservation and its leaf. */
  function ReservedUsage(b: Run, k: nat, tokens: nat): BudgetUsage
    requires k < |b.operations|
  {
    CountedUsage(b, k).(
      tokensReserved := b.ledger.usage.tokensReserved + tokens, activeLeafCalls := b.ledger.usage.activeLeafCalls + 1)
  }

  function NextIntent(b: Run, k: nat, tokens: nat, version: RequestVersion, sha: string): Intent
    requires k < |b.operations| && tokens <= MAX_CALL_TOKENS
  {
    IntentOf(b, b.operations[k], b.operations[k].ordinal + 1, tokens, version, sha)
  }

  /** A run in which the next attempt of the operation is granted. */
  ghost predicate Granting(b: Run, k: nat, tokens: nat, time: int) {
    && k < |b.operations| && Grantable(b, k, tokens, time) && b.authority
    && ValidAccounting(b.ledger.usage) && 0 <= b.ledger.usage.attempts && 0 <= b.ledger.usage.activeLeafCalls
    && AcquireLeaf(b.ledger).Some?
  }

  lemma RunGrants(r: Run, actions: seq<Action>, k: nat, tokens: nat, time: int)
    requires Started(r) && 0 <= r.ledger.usage.attempts && k < |ApplyAll(r, actions).operations|
    requires ApplyAll(r, actions).authority && Grantable(ApplyAll(r, actions), k, tokens, time)
    ensures Granting(ApplyAll(r, actions), k, tokens, time)
  {
    var now := ApplyAll(r, actions);
    CountersNonNegative(r, actions);
    ReservationsConserved(r, actions);
  }

  lemma StageBegin(b: Run, k: nat, tokens: nat, version: RequestVersion, sha: string, time: int)
    requires Granting(b, k, tokens, time)
    ensures Apply(b, BeginAttempt(k, tokens, version, sha, false, false, time)) ==
            Staged(b, k, Attempt(NextIntent(b, k, tokens, version, sha), k, AwaitIntent, Held, false, None, true, true),
                   ReservedUsage(b, k, tokens), [], b.operations[k].aggregate, b.operations[k].poisoned)
  {
    ReserveExactly(b.ledger, b.operations[k], tokens, time);
    ReserveIsExact(b.ledger, b.operations[k], tokens, time);
    assert b.journal + [] == b.journal;
  }

  lemma StageUpdate(b: Run, item: Item, item': Item)
    ensures (b.items + [item])[|b.items| := item'] == b.items + [item']
  {
  }

  lemma StageIntent(b: Run, k: nat, tokens: nat, intent: Intent)
    requires k < |b.operations| && OperationIntended(intent) !in b.journal
    ensures var op := b.operations[k];
            var usage := ReservedUsage(b, k, tokens);
            var begun := Staged(b, k, Attempt(intent, k, AwaitIntent, Held, false, None, true, true), usage, [],
                                op.aggregate, op.poisoned);
            var acknowledged := Apply(Apply(begun, WriteIntent(|b.items|)), IntentAcknowledged(|b.items|));
            acknowledged == Staged(b, k, Attempt(intent, k, Running, Held, true, None, true, true), usage,
                                   [OperationIntended(intent)], op.aggregate, op.poisoned)
  {
    var waiting := Attempt(intent, k, AwaitIntent, Held, false, None, true, true);
    StageUpdate(b, waiting, waiting.(intended := true));
    StageUpdate(b, waiting.(intended := true), waiting.(intended := true, phase := Running));
    assert b.journal + [] == b.journal;
  }

  /** The ledger charges the usage: it is one call's, and accounting has no reason to fail. */
  predicate Chargeable(b: Run, u: CallUsage) { !Unchargeable(b.ledger.usage, u) }

  function SettledUsage(b: Run, k: nat, u: CallUsage): BudgetUsage
    requires k < |b.operations|
  {
    if Chargeable(b, u) then Add(CountedUsage(b, k), Charge(u)) else CountedUsage(b, k)
  }

  function SettledSum(b: Run, k: nat, u: CallUsage): CallUsage
    requires k < |b.operations|
  {
    var sum := b.operations[k].aggregate;
    if Chargeable(b, u) && FitsOnto(sum, u) then Plus(sum, u) else sum
  }

  function SettledOutcome(b: Run, k: nat, outcome: Outcome, u: CallUsage): Outcome
    requires k < |b.operations|
  {
    if Chargeable(b, u) && FitsOnto(b.operations[k].aggregate, u) then outcome else OutcomeInvalidResult
  }

  function SettledLedger(b: Run, u: CallUsage): LedgerSide { if Chargeable(b, u) then Charged(u) else Freed }

  lemma StageEnd(b: Run, k: nat, tokens: nat, intent: Intent, outcome: Outcome, u: CallUsage)
    requires k < |b.operations| && b.authority && intent.identity.reservation.tokens == tokens
    requires ValidAccounting(b.ledger.usage) && b.ledger.usage.tokensReserved + tokens <= MAX_SAFE_INTEGER
    requires Within(u, CALL_USAGE_LIMITS) && Within(b.operations[k].aggregate, ADD_USAGE_LIMITS)
    ensures var op := b.operations[k];
            var events := [OperationIntended(intent)];
            Apply(Staged(b, k, Attempt(intent, k, Running, Held, true, None, true, true), ReservedUsage(b, k, tokens),
                         events, op.aggregate, op.poisoned), ExternalEnded(|b.items|, outcome, u)) ==
            Staged(b, k, Attempt(intent, k, AwaitSettlement(SettledOutcome(b, k, outcome, u), u), SettledLedger(b, u),
                                 true, None, true, true),
                   SettledUsage(b, k, u).(activeLeafCalls := b.ledger.usage.activeLeafCalls + 1), events,
                   SettledSum(b, k, u), op.poisoned)
  {
    var op := b.operations[k];
    var running := Attempt(intent, k, Running, Held, true, None, true, true);
    var s := Staged(b, k, running, ReservedUsage(b, k, tokens), [OperationIntended(intent)], op.aggregate, op.poisoned);
    AccountIsExact(s.ledger, tokens, u);
    AccountingFailsExactly(s.ledger, tokens, u);
    AddUsageExact(op.aggregate, u, ADD_USAGE_LIMITS);
    StageUpdate(b, running, running.(
      phase := AwaitSettlement(SettledOutcome(b, k, outcome, u), u), ledger := SettledLedger(b, u)));
  }

  /** What the finished attempt leaves behind; `failed` says that its settlement's append was reported as failed. */
  function Concluded(b: Run, k: nat, intent: Intent, outcome: Outcome, u: CallUsage, code: Option<string>, failed: bool): Run
    requires k < |b.operations|
  {
    Staged(b, k, Attempt(intent, k, Finished, SettledLedger(b, u), true, Some(u), false, false), SettledUsage(b, k, u),
           [OperationIntended(intent),
            OperationSettled(Settlement(b.runId, intent.identity.frameId, intent.intentId,
                                        SettledOutcome(b, k, outcome, u), u, code))],
           SettledSum(b, k, u), failed || b.operations[k].poisoned)
  }

  lemma StageSettle(b: Run, k: nat, intent: Intent, outcome: Outcome, u: CallUsage, code: Option<string>, failed: bool)
    requires k < |b.operations| && 0 <= b.ledger.usage.activeLeafCalls
    ensures var waiting := Attempt(intent, k, AwaitSettlement(SettledOutcome(b, k, outcome, u), u), SettledLedger(b, u),
                                   true, None, true, true);
            var s := Staged(b, k, waiting,
                            SettledUsage(b, k, u).(activeLeafCalls := b.ledger.usage.activeLeafCalls + 1),
                            [OperationIntended(intent)], SettledSum(b, k, u), b.operations[k].poisoned);
            var written := Apply(s, WriteSettlement(|b.items|, code));
            Apply(written, SettlementResolved(|b.items|, failed)) == Concluded(b, k, intent, outcome, u, code, failed)
  {
    var waiting := Attempt(intent, k, AwaitSettlement(SettledOutcome(b, k, outcome, u), u), SettledLedger(b, u),
                           true, None, true, true);
    var settled := waiting.(settled := Some(u));
    StageUpdate(b, waiting, settled);
    StageUpdate(b, settled, settled.(phase := Finished, leaf := false, permit := false));
    var e := OperationSettled(Settlement(b.runId, intent.identity.frameId, intent.intentId,
                                         SettledOutcome(b, k, outcome, u), u, code));
    assert b.journal + [OperationIntended(intent)] + [e] == b.journal + [OperationIntended(intent), e];
  }

  // ----- Whole attempts.

  lemma RunsOn(r: Run, path: seq<Action>, longer: seq<Action>, a: Action, s: Run, s': Run)
    requires ApplyAll(r, path) == s && Apply(s, a) == s' && longer == path + [a]
    ensures ApplyAll(r, longer) == s'
  {
    assert longer[..|path|] == path;
  }

  lemma RunsOnTwice(r: Run, path: seq<Action>, longer: seq<Action>, a: Action, b: Action, s: Run, s': Run)
    requires ApplyAll(r, path) == s && Apply(Apply(s, a), b) == s' && longer == path + [a, b]
    ensures ApplyAll(r, longer) == s'
  {
    RunsOn(r, path, path + [a], a, s, Apply(s, a));
    assert longer == path + [a] + [b];
    RunsOn(r, path + [a], longer, b, Apply(s, a), s');
  }

  /** The attempt `j` runs from its reservation to its settlement. */
  function AttemptPath(k: nat, j: nat, tokens: nat, version: RequestVersion, sha: string, time: int, outcome: Outcome,
                       u: CallUsage, code: Option<string>, failed: bool): seq<Action>
  {
    [BeginAttempt(k, tokens, version, sha, false, false, time)] + [WriteIntent(j), IntentAcknowledged(j)]
    + [ExternalEnded(j, outcome, u)] + [WriteSettlement(j, code), SettlementResolved(j, failed)]
  }

  /**
   * In every run a granted and undisturbed attempt writes exactly its intent and its settlement. It leaves the attempt,
   * the logical call of a new operation and, if it can be charged, its usage in the ledger, and nothing else; its usage
   * is added to the operation's sum if it fits, and then the effect's outcome is settled, else an invalid result. Only a
   * settlement that is reported as failed poisons the operation.
   */
  lemma UndisturbedAttempt(r: Run, actions: seq<Action>, k: nat, tokens: nat, version: RequestVersion, sha: string,
                           time: int, outcome: Outcome, u: CallUsage, code: Option<string>, failed: bool)
    requires Started(r) && 0 <= r.ledger.usage.attempts && k < |ApplyAll(r, actions).operations|
    requires ApplyAll(r, actions).authority && Grantable(ApplyAll(r, actions), k, tokens, time)
    requires OperationIntended(NextIntent(ApplyAll(r, actions), k, tokens, version, sha)) !in ApplyAll(r, actions).journal
    requires Within(u, CALL_USAGE_LIMITS)
    ensures var now := ApplyAll(r, actions);
            ApplyAll(r, actions + AttemptPath(k, |now.items|, tokens, version, sha, time, outcome, u, code, failed)) ==
            Concluded(now, k, NextIntent(now, k, tokens, version, sha), outcome, u, code, failed)
  {
    var now := ApplyAll(r, actions);
    RunGrants(r, actions, k, tokens, time);
    AggregateIsSum(r, actions, k);
    AttemptFrom(r, actions, now, k, tokens, version, sha, time, outcome, u, code, failed);
  }

  lemma AttemptFrom(r: Run, actions: seq<Action>, b: Run, k: nat, tokens: nat, version: RequestVersion, sha: string,
                    time: int, outcome: Outcome, u: CallUsage, code: Option<string>, failed: bool)
    requires b == ApplyAll(r, actions) && Granting(b, k, tokens, time)
    requires OperationIntended(NextIntent(b, k, tokens, version, sha)) !in b.journal
    requires Within(u, CALL_USAGE_LIMITS) && Within(b.operations[k].aggregate, ADD_USAGE_LIMITS)
    ensures ApplyAll(r, actions + AttemptPath(k, |b.items|, tokens, version, sha, time, outcome, u, code, failed)) ==
            Concluded(b, k, NextIntent(b, k, tokens, version, sha), outcome, u, code, failed)
  {
    var j, intent := |b.items|, NextIntent(b, k, tokens, version, sha);
    var begin := BeginAttempt(k, tokens, version, sha, false, false, time);
    var begun := actions + [begin];
    StageBegin(b, k, tokens, version, sha, time);
    RunsOn(r, actions, begun, begin, b, Apply(b, begin));
    var running := begun + [WriteIntent(j), IntentAcknowledged(j)];
    StageIntent(b, k, tokens, intent);
    RunsOnTwice(r, begun, running, WriteIntent(j), IntentAcknowledged(j), ApplyAll(r, begun),
                Apply(Apply(ApplyAll(r, begun), WriteIntent(j)), IntentAcknowledged(j)));
    var ended := running + [ExternalEnded(j, outcome, u)];
    StageEnd(b, k, tokens, intent, outcome, u);
    RunsOn(r, running, ended, ExternalEnded(j, outcome, u), ApplyAll(r, running),
           Apply(ApplyAll(r, running), ExternalEnded(j, outcome, u)));
    StageSettle(b, k, intent, outcome, u, code, failed);
    var settled := ended + [WriteSettlement(j, code), SettlementResolved(j, failed)];
    RunsOnTwice(r, ended, settled, WriteSettlement(j, code), SettlementResolved(j, failed), ApplyAll(r, ended),
                Concluded(b, k, intent, outcome, u, code, failed));
    assert settled == actions + AttemptPath(k, j, tokens, version, sha, time, outcome, u, code, failed);
  }

  // ----- Attempts that fail.

  /**
   * An intent whose append fails poisons its operation and keeps the attempt counted; reservation, leaf and permit go
   * back whether or not the event became durable.
   */
  lemma FailedIntent(b: Run, k: nat, tokens: nat, version: RequestVersion, sha: string, time: int, durable: bool)
    requires Granting(b, k, tokens, time)
    requires OperationIntended(NextIntent(b, k, tokens, version, sha)) !in b.journal
    ensures var j, intent := |b.items|, NextIntent(b, k, tokens, version, sha);
            var begun := Apply(b, BeginAttempt(k, tokens, version, sha, false, false, time));
            Apply(if durable then Apply(begun, WriteIntent(j)) else begun, IntentFailed(j)) ==
            Staged(b, k, Attempt(intent, k, Finished, Freed, durable, None, false, false), CountedUsage(b, k),
                   if durable then [OperationIntended(intent)] else [], b.operations[k].aggregate, true)
  {
    var intent := NextIntent(b, k, tokens, version, sha);
    var waiting := Attempt(intent, k, AwaitIntent, Held, false, None, true, true);
    var failing := waiting.(intended := durable);
    StageBegin(b, k, tokens, version, sha, time);
    StageUpdate(b, waiting, failing);
    StageUpdate(b, failing, failing.(phase := Finished, ledger := Freed, leaf := false, permit := false));
    assert b.journal + [] == b.journal;
    var s := Staged(b, k, failing, ReservedUsage(b, k, tokens), if durable then [OperationIntended(intent)] else [],
                    b.operations[k].aggregate, b.operations[k].poisoned);
    FreeIsExact(s.ledger, tokens);
  }

  /** An effect that ends without authority is neither charged nor settled; only the permit goes back. */
  lemma EndWithoutAuthority(b: Run, k: nat, tokens: nat, intent: Intent, outcome: Outcome, u: CallUsage)
    requires k < |b.operations|
    ensures var op := b.operations[k];
            var running := Staged(b, k, Attempt(intent, k, Running, Held, true, None, true, true),
                                  ReservedUsage(b, k, tokens), [OperationIntended(intent)], op.aggregate, op.poisoned);
            Apply(Apply(running, CloseAuthority), ExternalEnded(|b.items|, outcome, u)) ==
            Staged(b, k, Attempt(intent, k, Finished, Held, true, None, true, false), ReservedUsage(b, k, tokens),
                   [OperationIntended(intent)], op.aggregate, op.poisoned).(authority := false)
  {
    var running := Attempt(intent, k, Running, Held, true, None, true, true);
    StageUpdate(b, running, running.(phase := Finished, permit := false));
  }

  // ----- Child frames and turns.

  predicate ChildGrantable(r: Run, depth: nat, digest: Digest, time: int) {
    && NextOrdinal(r.ordinals.executions, digest) <= MAX_SAFE_INTEGER && time < r.ledger.limits.deadlineMs
    && r.ledger.usage.logicalCalls + 1 <= r.ledger.limits.maxLogicalCalls
    && depth + 1 <= r.ledger.limits.maxDepth && r.ledger.usage.framesOpened + 1 <= r.ledger.limits.maxFrames
  }

  /**
   * A child frame is granted if and only if its ordinal is representable and the budget has a call, a frame and a level
   * for it before the deadline. It then takes one call and one frame, and its opening is written under the next ordinal.
   */
  lemma UndisturbedChild(b: Run, parent: FrameId, depth: nat, digest: Digest, objective: string, time: int)
    ensures Apply(b, ReserveChild(parent, depth, digest, objective, time)) != b <==> ChildGrantable(b, depth, digest, time)
    ensures ChildGrantable(b, depth, digest, time) ==>
              var ordinal := NextOrdinal(b.ordinals.executions, digest);
              var opening := Opened(FrameId(b.runId, ExecutionTail(digest, ordinal)), Some(parent), depth + 1, objective);
              var u := b.ledger.usage;
              Apply(Apply(b, ReserveChild(parent, depth, digest, objective, time)), WriteChild(|b.items|)) ==
              b.(ledger := b.ledger.(usage := u.(framesOpened := u.framesOpened + 1, logicalCalls := u.logicalCalls + 1)),
                 journal := b.journal + [FrameOpened(opening)], items := b.items + [Child(opening, true)],
                 ordinals := b.ordinals.(executions := b.ordinals.executions[digest := ordinal]))
  {
    if ChildGrantable(b, depth, digest, time) {
      var f := FrameId(b.runId, ExecutionTail(digest, NextOrdinal(b.ordinals.executions, digest)));
      var opening := Opened(f, Some(parent), depth + 1, objective);
      StageUpdate(b, Child(opening, false), Child(opening, true));
    }
  }

  predicate TurnGrantable(r: Run, f: FrameId, iteration: nat, time: int) {
    && !CellIn(r.journal, f, iteration) && !TurnIn(r.items, f, iteration) && time < r.ledger.limits.deadlineMs
    && r.ledger.usage.controllerTurns + 1 <= r.ledger.limits.maxControllerTurns
  }

  /**
   * A turn is granted if and only if it was not taken before and the budget has one left before the deadline. It then
   * takes one turn, its controller operation can start, and its cell is written.
   */
  lemma UndisturbedTurn(b: Run, f: FrameId, iteration: nat, time: int, key: string, cell: Cell)
    requires cell.frameId == f && cell.iteration == iteration
    ensures Apply(b, ReserveTurn(f, iteration, time)) != b <==> TurnGrantable(b, f, iteration, time)
    ensures TurnGrantable(b, f, iteration, time) ==>
              var id := ControllerOperation(f, iteration);
              var op := Operation(f, id, ControllerKind, key, false, NextOrdinal(b.ordinals.attempts, OpKey(f, id)) - 1,
                                  ZERO_CALL_USAGE, false);
              var taken := Apply(b, ReserveTurn(f, iteration, time));
              var u := b.ledger.usage;
              Apply(Apply(taken, StartOperation(f, id, ControllerKind, key)), CommitCell(|b.items|, cell)) ==
              b.(ledger := b.ledger.(usage := u.(controllerTurns := u.controllerTurns + 1)),
                 journal := b.journal + [CellCommitted(cell)], items := b.items + [Turn(f, iteration, true)],
                 operations := b.operations + [op])
  {
    if TurnGrantable(b, f, iteration, time) {
      var taken := Apply(b, ReserveTurn(f, iteration, time));
      assert taken.items[|b.items|] == Turn(f, iteration, false);
      assert OwnTurn(taken.items, f, ControllerOperation(f, iteration));
      StageUpdate(b, Turn(f, iteration, false), Turn(f, iteration, true));
    }
  }

  // ----- Events that reserve nothing.

  /** Such an event is always written, a key binding only if its key has a lineage and no other identity so far. */
  lemma OtherEventsWritten(b: Run, e: Event)
    requires !e.FrameOpened? && !e.CellCommitted? && !e.OperationIntended? && !e.OperationSettled?
    ensures Apply(b, OtherEvent(e)) == b.(journal := b.journal + [e]) <==>
              (e.KeyBound? ==>
                 && FrameLineage(b.runId, e.binding.frameId).Some?
                 && forall x <- b.journal :: x.KeyBound? && SameKey(b.runId, x.binding, e.binding) ==>
                      x.binding.identityHash == e.binding.identityHash)
  {
    if !NotAccounting(b, e) { assert |b.journal + [e]| != |b.journal|; }
  }

  predicate SameKey(runId: string, x: KeyBinding, y: KeyBinding) {
    RegistryIdOf(runId, x.kind, x.key, x.frameId) == RegistryIdOf(runId, y.kind, y.key, y.frameId)
  }

  // ----- A new operation continues an old one.

  /** The ordinals count the operation's intents in the journal. */
  predicate OrdinalsMatch(r: Run, key: OperationKey) {
    NextOrdinal(r.ordinals.attempts, key) - 1 == |OperationDiscipline.Of(Intents(r.journal), key)|
  }

  /**
   * A new operation under a key whose ordinals match continues where the journal stands exactly if the last attempt
   * there has settled under the same kind and key.
   */
  lemma NewOperationContinues(b: Run, f: FrameId, id: OperationId, kind: OperationKind, key: string)
    requires kind != ControllerKind && OrdinalsMatch(b, OpKey(f, id))
    ensures var after := Apply(b, StartOperation(f, id, kind, key));
            var attempts := OperationDiscipline.Of(Intents(b.journal), OpKey(f, id));
            && after == b.(operations := after.operations) && |after.operations| == |b.operations| + 1
            && after.operations[..|b.operations|] == b.operations
            && (JournalAcceptance.InOrder(after.journal, after.operations[|b.operations|]) <==>
                  (attempts != [] ==>
                     && OperationOrder.SettledIn(b.journal, attempts[|attempts| - 1])
                     && attempts[0].identity.kind == kind && attempts[0].identity.key == key))
  {
  }

  lemma IntentsAfter(journal: seq<Event>, intent: Intent, e: Settlement)
    ensures Intents(journal + [OperationIntended(intent), OperationSettled(e)]) == Intents(journal) + [intent]
  {
    var intended := journal + [OperationIntended(intent)];
    assert journal + [OperationIntended(intent), OperationSettled(e)] == intended + [OperationSettled(e)];
    assert (intended + [OperationSettled(e)])[..|intended|] == intended;
    assert intended[..|journal|] == journal;
    assert Intents(journal) + [intent] + [] == Intents(journal) + [intent];
  }

  /** So an undisturbed attempt leaves its operation in order for the next one, unless it is an agent's. */
  lemma RetryContinues(b: Run, k: nat, tokens: nat, version: RequestVersion, sha: string, outcome: Outcome, u: CallUsage,
                       code: Option<string>)
    requires k < |b.operations| && tokens <= MAX_CALL_TOKENS && JournalAcceptance.InOrder(b.journal, b.operations[k])
    ensures var after := Concluded(b, k, NextIntent(b, k, tokens, version, sha), outcome, u, code, false);
            JournalAcceptance.InOrder(after.journal, after.operations[k]) <==> b.operations[k].kind != AgentKind
  {
    var op, intent := b.operations[k], NextIntent(b, k, tokens, version, sha);
    var after := Concluded(b, k, intent, outcome, u, code, false);
    var e := Settlement(b.runId, intent.identity.frameId, intent.intentId, SettledOutcome(b, k, outcome, u), u, code);
    IntentsAfter(b.journal, intent, e);
    OperationDiscipline.OfAppend(Intents(b.journal), intent, OpKey(op.frameId, op.operationId));
    assert after.journal[|b.journal| + 1] == OperationSettled(e);
    assert OperationSettled(e) in after.journal;
  }
}
