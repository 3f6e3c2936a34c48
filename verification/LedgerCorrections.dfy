/**
 * Where the live ledger and the rebuilt ledger differ, attempt by attempt, and when they are equal: the main results
 * about write-ahead accounting.
 */
module LedgerCorrections {
  import opened Wrappers
  import opened Usage
  import opened Budget
  import opened Journal
  import opened Provider
  import opened LedgerConservation
  import opened LedgerAgreement
  import CheckpointRecovery
  import FoldAgreement

  /** A run starts where recovery left it: with the rebuilt ledger and the rebuilt recurse ordinals. */
  ghost predicate Resumed(r: Run, storedBytes: int) {
    && Started(r)
    && (forall e <- r.journal :: e.OperationIntended? ==> e.intent.intentId == IntentId(e.intent.identity))
    && var d := CheckpointRecovery.Derive(r.runId, r.journal, storedBytes);
    && d.Some? && d.value.usage == r.ledger.usage && d.value.ordinals.recurseExecutions == r.ordinals.executions
  }

  lemma {:induction false} ChildrenReached(runId: string, es: seq<Event>, storedBytes: int)
    requires CheckpointRecovery.Derive(runId, es, storedBytes).Some?
    ensures var d := CheckpointRecovery.Derive(runId, es, storedBytes).value;
            forall f <- d.progression.childFrames :: FoldAgreement.OrdinalReached(d.ordinals.recurseExecutions, f)
  {
    if es != [] {
      ChildrenReached(runId, es[..|es| - 1], storedBytes);
      var d := CheckpointRecovery.Derive(runId, es[..|es| - 1], storedBytes).value;
      var d' := CheckpointRecovery.Derive(runId, es, storedBytes).value;
      forall f | f in d'.progression.childFrames
        ensures FoldAgreement.OrdinalReached(d'.ordinals.recurseExecutions, f)
      {
        if f in d.progression.childFrames { assert FoldAgreement.OrdinalReached(d.ordinals.recurseExecutions, f); }
      }
    }
  }

  /** Whatever recovery rebuilds from a journal stems from one of its events. */
  lemma {:induction false} SourcesHold(runId: string, executions: map<Digest, nat>, es: seq<Event>, storedBytes: int)
    requires CheckpointRecovery.Derive(runId, es, storedBytes).Some?
    requires forall e <- es :: e.OperationIntended? ==> e.intent.intentId == IntentId(e.intent.identity)
    requires forall f <- CheckpointRecovery.Derive(runId, es, storedBytes).value.progression.childFrames ::
               FoldAgreement.OrdinalReached(executions, f)
    ensures SourcesOk(runId, executions, es, CheckpointRecovery.Derive(runId, es, storedBytes).value)
  {
    if es != [] {
      var front, e := es[..|es| - 1], es[|es| - 1];
      SourcesHold(runId, executions, front, storedBytes);
      SourcesStep(runId, executions, front, e, CheckpointRecovery.Derive(runId, front, storedBytes).value);
      assert front + [e] == es;
    }
  }

  lemma {:induction false} RunKeepsJournal(r: Run, storedBytes: int, actions: seq<Action>)
    returns (d: CheckpointRecovery.Derived)
    requires Resumed(r, storedBytes)
    ensures JournalOk(ApplyAll(r, actions), storedBytes, r.ledger.usage, d)
  {
    if actions == [] {
      d := CheckpointRecovery.Derive(r.runId, r.journal, storedBytes).value;
      ChildrenReached(r.runId, r.journal, storedBytes);
      SourcesHold(r.runId, r.ordinals.executions, r.journal, storedBytes);
    } else {
      var front := actions[..|actions| - 1];
      d := RunKeepsJournal(r, storedBytes, front);
      RunKeepsLedger(r, front);
      d := ApplyKeepsJournal(ApplyAll(r, front), storedBytes, r.ledger.usage, d, actions[|actions| - 1]);
    }
  }

  // ----- The exact difference.

  /** What the ledger holds of one item beyond what the journal tells of it. */
  function Correction(item: Item): BudgetUsage {
    match item
    case Child(_, journaled) => if journaled then ZERO_USAGE else ZERO_USAGE.(framesOpened := 1, logicalCalls := 1)
    case Turn(_, _, committed) => if committed then ZERO_USAGE else ZERO_USAGE.(controllerTurns := 1)
    case Attempt(intent, _, _, ledger, intended, settled, leaf, _) =>
      var tokens := intent.identity.reservation.tokens;
      var leaves := ZERO_USAGE.(activeLeafCalls := if leaf then 1 else 0);
      if !intended then
        // Reserved, no intent: the attempt and its logical call stay counted even after everything else is given back.
        leaves.(
          logicalCalls := intent.identity.reservation.logicalCalls, attempts := 1,
          tokensReserved := if ledger.Held? then tokens else 0)
      else if settled.None? then
        match ledger
        case Held => leaves
        // Charged in the ledger, settlement not yet durable.
        case Charged(usage) => Charge(usage).(activeLeafCalls := leaves.activeLeafCalls, tokensReserved := -tokens)
        case Freed => leaves.(tokensReserved := -tokens)
      else if ledger.Freed? then
        // Accounting failed, yet the settlement carries the usage.
        Add(leaves, Subtract(ZERO_USAGE, Charge(settled.value)))
      else leaves
  }

  function CorrectionTotal(items: seq<Item>): BudgetUsage { Total(items, Correction) }

  /** A settlement that was never charged makes the journal tell of tokens that the ledger does not hold. */
  lemma UnchargedCorrection(item: Item)
    requires item.Attempt? && item.intended && item.settled.Some? && item.ledger.Freed?
    ensures Correction(item).tokensUsed == -item.settled.value.Tokens() && Correction(item).tokensReserved == 0
  {
  }

  lemma CorrectionOfTwo(a: Item, b: Item)
    ensures CorrectionTotal([a, b]) == Add(Correction(a), Correction(b))
  {
    TotalOfTwo(a, b, Correction);
  }

  predicate SplitsInto(item: Item, f: Item -> BudgetUsage, g: Item -> BudgetUsage, h: Item -> BudgetUsage) {
    f(item) == Add(g(item), h(item))
  }

  lemma SplitsAdd(whole: BudgetUsage, left: BudgetUsage, right: BudgetUsage,
                  moreWhole: BudgetUsage, moreLeft: BudgetUsage, moreRight: BudgetUsage)
    requires whole == Add(left, right) && moreWhole == Add(moreLeft, moreRight)
    ensures Add(whole, moreWhole) == Add(Add(left, moreLeft), Add(right, moreRight))
  {
  }

  lemma TotalsSplitStep(items: seq<Item>, f: Item -> BudgetUsage, g: Item -> BudgetUsage, h: Item -> BudgetUsage)
    requires items != []
    requires var front := items[..|items| - 1]; Total(front, f) == Add(Total(front, g), Total(front, h))
    requires SplitsInto(items[|items| - 1], f, g, h)
    ensures Total(items, f) == Add(Total(items, g), Total(items, h))
  {
    var front, last := items[..|items| - 1], items[|items| - 1];
    SplitsAdd(Total(front, f), Total(front, g), Total(front, h), f(last), g(last), h(last));
  }

  lemma {:induction false} TotalsSplit(items: seq<Item>, f: Item -> BudgetUsage, g: Item -> BudgetUsage,
                                       h: Item -> BudgetUsage)
    requires forall i {:trigger SplitsInto(i, f, g, h)} | i in items :: SplitsInto(i, f, g, h)
    ensures Total(items, f) == Add(Total(items, g), Total(items, h))
  {
    if items != [] {
      TotalsSplit(items[..|items| - 1], f, g, h);
      assert SplitsInto(items[|items| - 1], f, g, h);
      TotalsSplitStep(items, f, g, h);
    }
  }

  lemma AttemptCorrection(item: Item)
    requires item.Attempt? && ShapeOk(item)
    requires item.settled.Some? ==> item.intended
    ensures SplitsInto(item, LedgerPart, JournalPart, Correction)
  {
    if !item.intended {
      assert LedgerPart(item) == Add(JournalPart(item), Correction(item));
    } else if item.settled.None? {
      match item.ledger {
        case Held => assert LedgerPart(item) == Add(JournalPart(item), Correction(item));
        case Charged(_) => assert LedgerPart(item) == Add(JournalPart(item), Correction(item));
        case Freed => assert LedgerPart(item) == Add(JournalPart(item), Correction(item));
      }
    } else {
      assert LedgerPart(item) == Add(JournalPart(item), Correction(item));
    }
  }

  /**
   * Ledger and journal agree: after any interleaving of operations, child frames and turns, recovery can rebuild a
   * ledger from the journal, and the live ledger equals it plus exactly the corrections of the items.
   */
  lemma LedgerEqualsJournalPlusCorrections(r: Run, storedBytes: int, actions: seq<Action>)
    requires Resumed(r, storedBytes)
    ensures var now := ApplyAll(r, actions);
            var d := CheckpointRecovery.Derive(now.runId, now.journal, storedBytes);
            d.Some? && now.ledger.usage == Add(d.value.usage, CorrectionTotal(now.items))
  {
    var now := ApplyAll(r, actions);
    var d := RunKeepsJournal(r, storedBytes, actions);
    RunKeepsLedger(r, actions);
    forall k | 0 <= k < |now.items| ensures SplitsInto(now.items[k], LedgerPart, JournalPart, Correction) {
      assert ItemOk(now.runId, now.ordinals.executions, d, now.items[k]) && ShapeOk(now.items[k]);
      if now.items[k].Attempt? { AttemptCorrection(now.items[k]); }
    }
    TotalsSplit(now.items, LedgerPart, JournalPart, Correction);
    AddAssociative(r.ledger.usage, JournalTotal(now.items), CorrectionTotal(now.items));
  }

  lemma AddAssociative(a: BudgetUsage, b: BudgetUsage, c: BudgetUsage)
    ensures Add(a, Add(b, c)) == Add(Add(a, b), c)
  {
  }

  // ----- When nothing is in flight.

  /** The work ended the ordinary way: its intent, its accounting and its settlement all took effect. */
  predicate Complete(item: Item) {
    match item
    case Attempt(_, _, phase, ledger, intended, settled, _, _) =>
      phase.Finished? && intended && ledger.Charged? && settled.Some?
    case Child(_, journaled) => journaled
    case Turn(_, _, committed) => committed
  }

  predicate AddsNothing(item: Item, part: Item -> BudgetUsage) { part(item) == ZERO_USAGE }

  lemma {:induction false} NothingAddsUp(items: seq<Item>, part: Item -> BudgetUsage)
    requires forall k {:trigger AddsNothing(items[k], part)} | 0 <= k < |items| :: AddsNothing(items[k], part)
    ensures Total(items, part) == ZERO_USAGE
  {
    if items != [] {
      var front := items[..|items| - 1];
      forall k | 0 <= k < |front| ensures AddsNothing(front[k], part) { assert AddsNothing(items[k], part); }
      NothingAddsUp(front, part);
      assert AddsNothing(items[|items| - 1], part);
    }
  }

  /** So when everything ended the ordinary way, recovery rebuilds the live ledger, column by column. */
  lemma QuiescentLedgerIsRebuilt(r: Run, storedBytes: int, actions: seq<Action>)
    requires Resumed(r, storedBytes)
    requires forall k | 0 <= k < |ApplyAll(r, actions).items| :: Complete(ApplyAll(r, actions).items[k])
    ensures var now := ApplyAll(r, actions);
            var d := CheckpointRecovery.Derive(now.runId, now.journal, storedBytes);
            d.Some? && d.value.usage == now.ledger.usage
  {
    LedgerEqualsJournalPlusCorrections(r, storedBytes, actions);
    RunKeepsLedger(r, actions);
    var now := ApplyAll(r, actions);
    forall k | 0 <= k < |now.items| ensures AddsNothing(now.items[k], Correction) {
      assert Complete(now.items[k]) && PhaseOk(now.items[k], now.authority);
    }
    NothingAddsUp(now.items, Correction);
  }

  // ----- The counters, on every run.

  predicate Unintended(item: Item) { item.Attempt? && !item.intended }

  predicate Unopened(item: Item) { item.Child? && !item.journaled }

  predicate Uncommitted(item: Item) { item.Turn? && !item.committed }

  lemma {:induction false} CorrectionCounts(items: seq<Item>)
    ensures CorrectionTotal(items).attempts == Count(items, Unintended)
    ensures CorrectionTotal(items).framesOpened == Count(items, Unopened)
    ensures CorrectionTotal(items).controllerTurns == Count(items, Uncommitted)
  {
    if items != [] { CorrectionCounts(items[..|items| - 1]); }
  }

  /**
   * The ledger's counters never fall below the rebuilt ones. They exceed them by the attempts whose intent never
   * became durable, the child frames never opened in the journal, and the turns that ended without a cell; so each
   * counter agrees exactly when there is no such item.
   */
  lemma CountersExceedByUnjournaled(r: Run, storedBytes: int, actions: seq<Action>)
    requires Resumed(r, storedBytes)
    ensures var now := ApplyAll(r, actions);
            var d := CheckpointRecovery.Derive(now.runId, now.journal, storedBytes);
            && d.Some?
            && now.ledger.usage.attempts == d.value.usage.attempts + Count(now.items, Unintended)
            && now.ledger.usage.framesOpened == d.value.usage.framesOpened + Count(now.items, Unopened)
            && now.ledger.usage.controllerTurns == d.value.usage.controllerTurns + Count(now.items, Uncommitted)
            && (now.ledger.usage.controllerTurns == d.value.usage.controllerTurns
                <==> forall k | 0 <= k < |now.items| :: now.items[k].Turn? ==> now.items[k].committed)
            && (now.ledger.usage.attempts == d.value.usage.attempts
                <==> forall k | 0 <= k < |now.items| :: now.items[k].Attempt? ==> now.items[k].intended)
  {
    LedgerEqualsJournalPlusCorrections(r, storedBytes, actions);
    CorrectionCounts(ApplyAll(r, actions).items);
  }

  // ----- The two ways an attempt ends differently in the ledger and in the journal.

  /** Stopped between reservation and intent: the attempt stays counted and no event will ever tell of it. */
  lemma StoppedAfterReserve(r: Run, k: nat, tokens: nat, version: RequestVersion, sha: string, now: int)
    requires k < |r.operations| && tokens <= MAX_CALL_TOKENS && Permits(r.items) < r.ledger.limits.maxConcurrency
    requires !r.operations[k].poisoned && Reserve(r.ledger, r.operations[k], tokens, now).Ok?
    requires ValidAccounting(r.ledger.usage) && 0 <= r.ledger.usage.activeLeafCalls
    ensures var r' := Apply(r, BeginAttempt(k, tokens, version, sha, false, true, now));
            && r'.journal == r.journal
            && r'.ledger.usage == r.ledger.usage.(
                 attempts := r.ledger.usage.attempts + 1,
                 logicalCalls := r.ledger.usage.logicalCalls + (if r.operations[k].logicalReserved then 0 else 1))
  {
    ReserveIsExact(r.ledger, r.operations[k], tokens, now);
    var reserved := Reserve(r.ledger, r.operations[k], tokens, now).value;
    FreeIsExact(reserved, tokens);
    if AcquireLeaf(reserved).Some? { FreeIsExact(AcquireLeaf(reserved).value, tokens); }
  }

  lemma EndThenWrite(r: Run, k: nat, outcome: Outcome, usage: CallUsage, code: Option<string>)
    requires k < |r.items| && r.authority
    requires r.items[k].Attempt? && r.items[k].phase == Running && r.items[k].settled.None?
    ensures var r' := Apply(Apply(r, ExternalEnded(k, outcome, usage)), WriteSettlement(k, code));
            var (ledger, charged) := Account(r.ledger, r.items[k].intent.identity.reservation.tokens, usage);
            && r'.ledger == ledger
            && |r'.journal| == |r.journal| + 1 && r'.journal[|r.journal|].OperationSettled?
            && r'.journal[|r.journal|].settlement.usage == usage
            && (!charged ==> r'.journal[|r.journal|].settlement.outcome == OutcomeInvalidResult)
            && |r'.items| == |r.items| && r'.items[k].Attempt?
            && r'.items[k].ledger == if charged then Charged(usage) else Freed
  {
  }

  /**
   * The settlement carries the reported usage in any case. The ledger charges that usage whole, or only gets the
   * reservation back and the outcome becomes an invalid result; for a usage within one call's limits, the latter exactly
   * when it is unchargeable.
   */
  lemma SettlementCarriesUsageAnyway(r: Run, base: Ledger, k: nat, outcome: Outcome, usage: CallUsage, code: Option<string>)
    requires LedgerOk(r, base) && k < |r.items| && r.authority
    requires r.items[k].Attempt? && r.items[k].phase == Running && r.items[k].settled.None?
    ensures var r' := Apply(Apply(r, ExternalEnded(k, outcome, usage)), WriteSettlement(k, code));
            var tokens := r.items[k].intent.identity.reservation.tokens;
            var freed := r.ledger.usage.(tokensReserved := r.ledger.usage.tokensReserved - tokens);
            var uncharged := r'.ledger.usage == freed && r'.items[k].ledger.Freed?
                             && r'.journal[|r.journal|].settlement.outcome == OutcomeInvalidResult;
            && |r'.journal| == |r.journal| + 1 && r'.journal[|r.journal|].OperationSettled?
            && r'.journal[|r.journal|].settlement.usage == usage
            && (uncharged || (r'.ledger.usage == Add(freed, Charge(usage)) && r'.items[k].ledger == Charged(usage)))
            && (Within(usage, CALL_USAGE_LIMITS) ==> (uncharged <==> Unchargeable(r.ledger.usage, usage)))
  {
    assert PhaseOk(r.items[k], r.authority);
    LedgerTotalCovers(r.items, k);
    AccountIsExact(r.ledger, r.items[k].intent.identity.reservation.tokens, usage);
    EndThenWrite(r, k, outcome, usage, code);
    if Within(usage, CALL_USAGE_LIMITS) {
      AccountingFailsExactly(r.ledger, r.items[k].intent.identity.reservation.tokens, usage);
    }
  }

  /** So a response of twelve million unsummed tokens enters the journal, and the ledger never sees it. */
  lemma TwelveMillionTokensUncharged(r: Run, base: Ledger, k: nat, outcome: Outcome, code: Option<string>)
    requires LedgerOk(r, base) && k < |r.items| && r.authority
    requires r.items[k].Attempt? && r.items[k].phase == Running && r.items[k].settled.None?
    ensures var usage := CallUsage(1, Some(6_000_000), Some(6_000_000), None, None, 0);
            var r' := Apply(Apply(r, ExternalEnded(k, outcome, usage)), WriteSettlement(k, code));
            && NormalizeOwnedUsage(usage, CALL_USAGE_LIMITS) == Some(usage)
            && |r'.journal| == |r.journal| + 1 && r'.journal[|r.journal|].OperationSettled?
            && r'.journal[|r.journal|].settlement.usage.Tokens() == 12_000_000
            && r'.ledger.usage.tokensUsed == r.ledger.usage.tokensUsed
  {
    var usage := CallUsage(1, Some(6_000_000), Some(6_000_000), None, None, 0);
    AcceptedButUnchargeable(r.ledger.usage);
    SettlementCarriesUsageAnyway(r, base, k, outcome, usage, code);
  }
}
