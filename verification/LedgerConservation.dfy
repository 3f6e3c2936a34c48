/** What the ledger holds is exactly what the outstanding work accounts for, on every path of every interleaving. */
module LedgerConservation {
  import opened Wrappers
  import opened Usage
  import opened Budget
  import opened Journal
  import opened Provider

  function Add(a: BudgetUsage, b: BudgetUsage): BudgetUsage {
    BudgetUsage(
      a.framesOpened + b.framesOpened, a.logicalCalls + b.logicalCalls, a.attempts + b.attempts,
      a.controllerTurns + b.controllerTurns, a.activeLeafCalls + b.activeLeafCalls,
      a.tokensReserved + b.tokensReserved, a.tokensUsed + b.tokensUsed, a.inputTokensUsed + b.inputTokensUsed,
      a.outputTokensUsed + b.outputTokensUsed, a.costUsd + b.costUsd, a.providerDurationMs + b.providerDurationMs,
      a.storedBytes + b.storedBytes)
  }

  function Subtract(a: BudgetUsage, b: BudgetUsage): BudgetUsage {
    BudgetUsage(
      a.framesOpened - b.framesOpened, a.logicalCalls - b.logicalCalls, a.attempts - b.attempts,
      a.controllerTurns - b.controllerTurns, a.activeLeafCalls - b.activeLeafCalls,
      a.tokensReserved - b.tokensReserved, a.tokensUsed - b.tokensUsed, a.inputTokensUsed - b.inputTokensUsed,
      a.outputTokensUsed - b.outputTokensUsed, a.costUsd - b.costUsd, a.providerDurationMs - b.providerDurationMs,
      a.storedBytes - b.storedBytes)
  }

  /** The usage of one settled attempt, as ledger columns. */
  function Charge(u: CallUsage): BudgetUsage {
    ZERO_USAGE.(tokensUsed := u.Tokens(), inputTokensUsed := u.Input(), outputTokensUsed := u.Output(),
                costUsd := u.Cost(), providerDurationMs := u.durationMs)
  }

  /** What one item contributes to the ledger. */
  function LedgerPart(item: Item): BudgetUsage {
    match item
    case Attempt(intent, _, _, ledger, _, _, leaf, _) =>
      var charged := if ledger.Charged? then Charge(ledger.usage) else ZERO_USAGE;
      charged.(
        logicalCalls := intent.identity.reservation.logicalCalls,
        attempts := 1,
        activeLeafCalls := if leaf then 1 else 0,
        tokensReserved := if ledger.Held? then intent.identity.reservation.tokens else 0)
    case Child(_, _) => ZERO_USAGE.(framesOpened := 1, logicalCalls := 1)
    case Turn(_, _, _) => ZERO_USAGE.(controllerTurns := 1)
  }

  function Total(items: seq<Item>, part: Item -> BudgetUsage): BudgetUsage {
    if items == [] then ZERO_USAGE else Add(Total(items[..|items| - 1], part), part(items[|items| - 1]))
  }

  lemma TotalAppend(items: seq<Item>, item: Item, part: Item -> BudgetUsage)
    ensures Total(items + [item], part) == Add(Total(items, part), part(item))
  {
    assert (items + [item])[..|items|] == items;
  }

  lemma TotalOfOne(item: Item, part: Item -> BudgetUsage)
    ensures Total([item], part) == part(item)
  {
    TotalAppend([], item, part);
    assert [] + [item] == [item];
  }

  lemma TotalOfTwo(a: Item, b: Item, part: Item -> BudgetUsage)
    ensures Total([a, b], part) == Add(part(a), part(b))
  {
    TotalOfOne(a, part);
    TotalAppend([a], b, part);
    assert [a] + [b] == [a, b];
  }

  lemma Exchange(total: BudgetUsage, removed: BudgetUsage, added: BudgetUsage, last: BudgetUsage)
    ensures Add(Add(Subtract(total, removed), added), last) == Add(Subtract(Add(total, last), removed), added)
  {
  }

  lemma {:induction false} TotalUpdate(items: seq<Item>, k: nat, item: Item, part: Item -> BudgetUsage)
    requires k < |items|
    ensures Total(items[k := item], part) == Add(Subtract(Total(items, part), part(items[k])), part(item))
  {
    var front := items[..|items| - 1];
    if k == |items| - 1 {
      assert items[k := item][..k] == front;
    } else {
      assert items[k := item][..|items| - 1] == front[k := item];
      TotalUpdate(front, k, item, part);
      Exchange(Total(front, part), part(items[k]), part(item), part(items[|items| - 1]));
    }
  }

  function LedgerTotal(items: seq<Item>): BudgetUsage { Total(items, LedgerPart) }

  /** Every item's own reservation and leaf are part of the totals. */
  lemma {:induction false} LedgerTotalCovers(items: seq<Item>, k: nat)
    requires k < |items|
    ensures LedgerTotal(items).tokensReserved >= LedgerPart(items[k]).tokensReserved
    ensures LedgerTotal(items).activeLeafCalls >= LedgerPart(items[k]).activeLeafCalls
    ensures LedgerTotal(items).tokensReserved >= 0 && LedgerTotal(items).activeLeafCalls >= 0
  {
    LedgerTotalNonNegative(items[..|items| - 1]);
    if k < |items| - 1 { LedgerTotalCovers(items[..|items| - 1], k); }
  }

  lemma {:induction false} LedgerTotalNonNegative(items: seq<Item>)
    ensures LedgerTotal(items).tokensReserved >= 0 && LedgerTotal(items).activeLeafCalls >= 0
  {
    if items != [] { LedgerTotalNonNegative(items[..|items| - 1]); }
  }

  lemma CountAppend(items: seq<Item>, item: Item, p: Item -> bool)
    ensures Count(items + [item], p) == Count(items, p) + (if p(item) then 1 else 0)
  {
    assert (items + [item])[..|items|] == items;
  }

  lemma {:induction false} CountUpdate(items: seq<Item>, k: nat, item: Item, p: Item -> bool)
    requires k < |items|
    ensures Count(items[k := item], p) ==
            Count(items, p) - (if p(items[k]) then 1 else 0) + (if p(item) then 1 else 0)
  {
    var front := items[..|items| - 1];
    if k == |items| - 1 {
      assert items[k := item][..k] == front;
    } else {
      assert items[k := item][..|items| - 1] == front[k := item];
      CountUpdate(front, k, item, p);
    }
  }

  lemma {:induction false} CountOfFewer(items: seq<Item>, p: Item -> bool, q: Item -> bool)
    requires forall k | 0 <= k < |items| :: p(items[k]) ==> q(items[k])
    ensures Count(items, p) <= Count(items, q)
  {
    if items != [] { CountOfFewer(items[..|items| - 1], p, q); }
  }

  /** Attempts that hold a permit and have not been accounted yet. */
  predicate IsExposed(item: Item) { HoldsPermit(item) && item.ledger.Held? }

  /** What each phase holds. Only an attempt whose authority was closed keeps its reservation and leaf. */
  ghost predicate PhaseOk(item: Item, authority: bool) {
    item.Attempt? ==>
      && (item.phase.AwaitIntent? || item.phase.Running? ==> item.ledger.Held? && item.leaf && item.permit)
      && (item.phase.AwaitSettlement? ==>
            && item.leaf && item.permit
            && (item.ledger.Freed? || item.ledger == Charged(item.phase.usage)))
      && (item.phase.Finished? ==> !item.permit && (item.leaf <==> item.ledger.Held?))
      && (item.phase.Finished? && authority ==> !item.leaf)
  }

  /** A ledger with nothing outstanding, valid, and not beyond the overshoot bound. */
  ghost predicate Quiet(l: Ledger) {
    && ValidAccounting(l.usage) && l.usage.tokensReserved == 0 && l.usage.activeLeafCalls == 0
    && (l.limits.tokenLimit.Some? ==>
          l.usage.tokensUsed <= l.limits.tokenLimit.value + l.limits.maxConcurrency * MAX_CALL_TOKENS)
  }

  ghost predicate TokensBounded(l: Ledger, exposed: nat) {
    l.limits.tokenLimit.Some? ==>
      l.usage.tokensUsed + exposed * MAX_CALL_TOKENS
      <= l.limits.tokenLimit.value + l.limits.maxConcurrency * MAX_CALL_TOKENS
  }

  ghost predicate LedgerOk(r: Run, base: Ledger) {
    && Quiet(base) && r.ledger.limits == base.limits
    && r.ledger.usage == Add(base.usage, LedgerTotal(r.items))
    && ValidAccounting(r.ledger.usage)
    && (forall k {:trigger PhaseOk(r.items[k], r.authority)} | 0 <= k < |r.items| :: PhaseOk(r.items[k], r.authority))
    && Permits(r.items) <= r.ledger.limits.maxConcurrency
    && TokensBounded(r.ledger, Count(r.items, IsExposed))
  }

  // ----- Single ledger transitions.

  /** Giving a held reservation back always succeeds and changes nothing else. */
  lemma FreeIsExact(l: Ledger, tokens: nat)
    requires ValidAccounting(l.usage) && tokens <= l.usage.tokensReserved
    ensures FreeReservation(l, tokens) == l.(usage := l.usage.(tokensReserved := l.usage.tokensReserved - tokens))
  {
  }

  /** Accounting a held reservation removes it, and adds the reported usage or nothing. */
  lemma AccountIsExact(l: Ledger, tokens: nat, usage: CallUsage)
    requires ValidAccounting(l.usage) && tokens <= l.usage.tokensReserved
    ensures var (l', charged) := Account(l, tokens, usage);
            var freed := l.usage.(tokensReserved := l.usage.tokensReserved - tokens);
            && l' == l.(usage := if charged then Add(freed, Charge(usage)) else freed)
            && ValidAccounting(l'.usage)
            && (charged ==> 0 <= usage.Tokens() <= MAX_CALL_TOKENS)
  {
  }

  /**
   * A usage no ledger charges: its parts exceed the total it reports, or one call's limit where it reports none, or a
   * column would leave the safe integers.
   */
  predicate Unchargeable(ledger: BudgetUsage, usage: CallUsage) {
    || usage.Input() + usage.Output() > usage.totalTokens.GetOr(MAX_CALL_TOKENS)
    || ledger.tokensUsed + usage.Tokens() > MAX_SAFE_INTEGER
    || ledger.inputTokensUsed + usage.Input() > MAX_SAFE_INTEGER
    || ledger.outputTokensUsed + usage.Output() > MAX_SAFE_INTEGER
    || ledger.providerDurationMs + usage.durationMs > MAX_SAFE_INTEGER
  }

  /** For a usage within the limits of one call, these are exactly the cases in which accounting fails. */
  lemma AccountingFailsExactly(l: Ledger, tokens: nat, usage: CallUsage)
    requires ValidAccounting(l.usage) && tokens <= l.usage.tokensReserved && Within(usage, CALL_USAGE_LIMITS)
    ensures !Account(l, tokens, usage).1 <==> Unchargeable(l.usage, usage)
  {
  }

  /** Six million tokens in and six million out, without a total, pass for a response and are never charged. */
  lemma AcceptedButUnchargeable(ledger: BudgetUsage)
    ensures var usage := CallUsage(1, Some(6_000_000), Some(6_000_000), None, None, 0);
            NormalizeOwnedUsage(usage, CALL_USAGE_LIMITS) == Some(usage) && Unchargeable(ledger, usage)
  {
  }

  /** A response's usage passes if and only if it is one call's and its parts do not exceed its total; it counts once. */
  lemma OwnedUsageAccepted(reported: CallUsage)
    ensures NormalizeOwnedUsage(reported, CALL_USAGE_LIMITS) ==
            if Within(reported, CALL_USAGE_LIMITS)
               && (reported.totalTokens.Some? ==> reported.Input() + reported.Output() <= reported.totalTokens.value)
            then Some(reported.(attempts := 1))
            else None
  {
  }

  /** A response whose parts and total stay within one call's limit is charged by any ledger that has room for it. */
  lemma OwnedUsageFails(ledger: BudgetUsage, reported: CallUsage)
    requires NormalizeOwnedUsage(reported, CALL_USAGE_LIMITS).Some?
    requires ledger.tokensUsed + MAX_CALL_TOKENS <= MAX_SAFE_INTEGER
    requires ledger.inputTokensUsed + MAX_CALL_TOKENS <= MAX_SAFE_INTEGER
    requires ledger.outputTokensUsed + MAX_CALL_TOKENS <= MAX_SAFE_INTEGER
    requires ledger.providerDurationMs + MAX_CALL_DURATION_MS <= MAX_SAFE_INTEGER
    ensures var usage := NormalizeOwnedUsage(reported, CALL_USAGE_LIMITS).value;
            Unchargeable(ledger, usage) <==>
              usage.totalTokens.None? && usage.Input() + usage.Output() > MAX_CALL_TOKENS
  {
  }

  lemma ReserveIsExact(l: Ledger, op: Operation, tokens: nat, now: int)
    requires ValidAccounting(l.usage) && Reserve(l, op, tokens, now).Ok?
    ensures var l' := Reserve(l, op, tokens, now).value;
            && l' == l.(usage := l.usage.(
                 logicalCalls := l.usage.logicalCalls + (if op.logicalReserved then 0 else 1),
                 attempts := l.usage.attempts + 1,
                 tokensReserved := l.usage.tokensReserved + tokens))
            && ValidAccounting(l'.usage)
            && (l.limits.tokenLimit.Some? ==> l.usage.tokensUsed + l'.usage.tokensReserved <= l.limits.tokenLimit.value)
  {
  }

  // ----- Every action keeps the invariant.

  /** Replacing one item whose contribution moves exactly as the ledger did. */
  lemma UpdateKeepsLedger(r: Run, r': Run, base: Ledger, k: nat, item: Item)
    requires LedgerOk(r, base) && k < |r.items|
    requires r'.items == r.items[k := item] && r'.authority == r.authority && r'.ledger.limits == r.ledger.limits
    requires r'.ledger.usage == Add(Subtract(r.ledger.usage, LedgerPart(r.items[k])), LedgerPart(item))
    requires ValidAccounting(r'.ledger.usage) && PhaseOk(item, r.authority)
    requires HoldsPermit(item) ==> HoldsPermit(r.items[k])
    requires IsExposed(item) ==> IsExposed(r.items[k])
    requires r'.ledger.usage.tokensUsed <= r.ledger.usage.tokensUsed
             + (if IsExposed(r.items[k]) && !IsExposed(item) then MAX_CALL_TOKENS else 0)
    ensures LedgerOk(r', base)
  {
    TotalUpdate(r.items, k, item, LedgerPart);
    CountUpdate(r.items, k, item, HoldsPermit);
    CountUpdate(r.items, k, item, IsExposed);
    forall j | 0 <= j < |r'.items| ensures PhaseOk(r'.items[j], r'.authority) {
      if j != k { assert PhaseOk(r.items[j], r.authority); }
    }
  }

  lemma AppendKeepsLedger(r: Run, r': Run, base: Ledger, item: Item)
    requires LedgerOk(r, base)
    requires r'.items == r.items + [item] && r'.authority == r.authority && r'.ledger.limits == r.ledger.limits
    requires r'.ledger.usage == Add(r.ledger.usage, LedgerPart(item))
    requires ValidAccounting(r'.ledger.usage) && PhaseOk(item, r.authority)
    requires HoldsPermit(item) ==> Permits(r.items) < r.ledger.limits.maxConcurrency
    requires r'.ledger.usage.tokensUsed == r.ledger.usage.tokensUsed
    requires IsExposed(item) && r.ledger.limits.tokenLimit.Some? ==>
               r.ledger.usage.tokensUsed <= r.ledger.limits.tokenLimit.value
    ensures LedgerOk(r', base)
  {
    TotalAppend(r.items, item, LedgerPart);
    CountAppend(r.items, item, HoldsPermit);
    CountAppend(r.items, item, IsExposed);
    CountOfFewer(r.items, IsExposed, HoldsPermit);
    forall j | 0 <= j < |r'.items| ensures PhaseOk(r'.items[j], r'.authority) {
      if j < |r.items| { assert PhaseOk(r.items[j], r.authority); }
    }
  }

  lemma BeginAttemptKeepsLedger(r: Run, base: Ledger, k: nat, tokens: nat, version: RequestVersion, sha: string,
                                stopBefore: bool, stopAfter: bool, now: int)
    requires LedgerOk(r, base) && k < |r.operations|
    ensures LedgerOk(DoBeginAttempt(r, k, tokens, version, sha, stopBefore, stopAfter, now), base)
  {
    var op := r.operations[k];
    var r' := DoBeginAttempt(r, k, tokens, version, sha, stopBefore, stopAfter, now);
    if r' != r {
      ReserveIsExact(r.ledger, op, tokens, now);
      var reserved := Reserve(r.ledger, op, tokens, now).value;
      LedgerTotalNonNegative(r.items);
      FreeIsExact(reserved, tokens);
      if AcquireLeaf(reserved).Some? { FreeIsExact(AcquireLeaf(reserved).value, tokens); }
      AppendKeepsLedger(r, r', base, r'.items[|r.items|]);
    }
  }

  lemma IntentFailedKeepsLedger(r: Run, base: Ledger, k: nat)
    requires LedgerOk(r, base) && k < |r.items|
    ensures LedgerOk(DoIntentFailed(r, k), base)
  {
    var a, r' := r.items[k], DoIntentFailed(r, k);
    if a.Attempt? && a.phase == AwaitIntent {
      assert PhaseOk(a, r.authority);
      LedgerTotalCovers(r.items, k);
      FreeIsExact(r.ledger, a.intent.identity.reservation.tokens);
      UpdateKeepsLedger(r, r', base, k, r'.items[k]);
    }
  }

  lemma ExternalEndedKeepsLedger(r: Run, base: Ledger, k: nat, outcome: Outcome, usage: CallUsage)
    requires LedgerOk(r, base) && k < |r.items|
    ensures LedgerOk(DoExternalEnded(r, k, outcome, usage), base)
  {
    var a, r' := r.items[k], DoExternalEnded(r, k, outcome, usage);
    if a.Attempt? && a.phase == Running {
      assert PhaseOk(a, r.authority);
      LedgerTotalCovers(r.items, k);
      if r.authority { AccountIsExact(r.ledger, a.intent.identity.reservation.tokens, usage); }
      UpdateKeepsLedger(r, r', base, k, r'.items[k]);
    }
  }

  lemma SettlementResolvedKeepsLedger(r: Run, base: Ledger, k: nat, failed: bool)
    requires LedgerOk(r, base) && k < |r.items|
    ensures LedgerOk(DoSettlementResolved(r, k, failed), base)
  {
    var a, r' := r.items[k], DoSettlementResolved(r, k, failed);
    if r' != r {
      assert PhaseOk(a, r.authority);
      LedgerTotalCovers(r.items, k);
      UpdateKeepsLedger(r, r', base, k, r'.items[k]);
    }
  }

  /** Writing to the journal and acknowledging it leave the ledger alone. */
  lemma JournalActionKeepsLedger(r: Run, r': Run, base: Ledger, k: nat)
    requires LedgerOk(r, base) && k < |r.items|
    requires r'.ledger == r.ledger && r'.authority == r.authority
    requires |r'.items| == |r.items| && r'.items == r.items[k := r'.items[k]]
    requires LedgerPart(r'.items[k]) == LedgerPart(r.items[k]) && PhaseOk(r'.items[k], r.authority)
    requires HoldsPermit(r'.items[k]) ==> HoldsPermit(r.items[k])
    requires IsExposed(r'.items[k]) ==> IsExposed(r.items[k])
    ensures LedgerOk(r', base)
  {
    UpdateKeepsLedger(r, r', base, k, r'.items[k]);
  }

  lemma ReserveChildKeepsLedger(r: Run, base: Ledger, parent: FrameId, depth: nat, digest: Digest, objective: string, now: int)
    requires LedgerOk(r, base)
    ensures LedgerOk(DoReserveChild(r, parent, depth, digest, objective, now), base)
  {
    var r' := DoReserveChild(r, parent, depth, digest, objective, now);
    if r' != r { AppendKeepsLedger(r, r', base, r'.items[|r.items|]); }
  }

  lemma ReserveTurnKeepsLedger(r: Run, base: Ledger, f: FrameId, iteration: nat, now: int)
    requires LedgerOk(r, base)
    ensures LedgerOk(DoReserveTurn(r, f, iteration, now), base)
  {
    var r' := DoReserveTurn(r, f, iteration, now);
    if r' != r { AppendKeepsLedger(r, r', base, Turn(f, iteration, false)); }
  }

  lemma CloseAuthorityKeepsLedger(r: Run, base: Ledger)
    requires LedgerOk(r, base)
    ensures LedgerOk(r.(authority := false), base)
  {
    forall k | 0 <= k < |r.items| ensures PhaseOk(r.items[k], false) {
      assert PhaseOk(r.items[k], r.authority);
    }
  }

  lemma ItemActionKeepsLedger(r: Run, base: Ledger, a: Action)
    requires LedgerOk(r, base)
    requires a.WriteIntent? || a.IntentAcknowledged? || a.WriteSettlement? || a.WriteChild? || a.CommitCell?
    ensures LedgerOk(Apply(r, a), base)
  {
    if a.item < |r.items| && Apply(r, a) != r {
      assert PhaseOk(r.items[a.item], r.authority);
      JournalActionKeepsLedger(r, Apply(r, a), base, a.item);
    }
  }

  lemma ApplyKeepsLedger(r: Run, base: Ledger, a: Action)
    requires LedgerOk(r, base)
    ensures LedgerOk(Apply(r, a), base)
  {
    match a {
      case BeginAttempt(k, tokens, version, sha, stopBefore, stopAfter, now) =>
        if k < |r.operations| { BeginAttemptKeepsLedger(r, base, k, tokens, version, sha, stopBefore, stopAfter, now); }
      case IntentFailed(k) => if k < |r.items| { IntentFailedKeepsLedger(r, base, k); }
      case ExternalEnded(k, outcome, usage) =>
        if k < |r.items| { ExternalEndedKeepsLedger(r, base, k, outcome, usage); }
      case SettlementResolved(k, failed) => if k < |r.items| { SettlementResolvedKeepsLedger(r, base, k, failed); }
      case ReserveChild(parent, depth, digest, objective, now) =>
        ReserveChildKeepsLedger(r, base, parent, depth, digest, objective, now);
      case ReserveTurn(f, iteration, now) => ReserveTurnKeepsLedger(r, base, f, iteration, now);
      case CloseAuthority => CloseAuthorityKeepsLedger(r, base);
      case StartOperation(_, _, _, _) =>
      case OtherEvent(_) =>
      case _ => ItemActionKeepsLedger(r, base, a);
    }
  }

  // ----- Runs.

  /** A run starts with nothing outstanding: fresh, or resumed from a checkpoint. */
  ghost predicate Started(r: Run) {
    Quiet(r.ledger) && r.items == [] && r.operations == [] && r.authority
  }

  lemma {:induction false} RunKeepsLedger(r: Run, actions: seq<Action>)
    requires Started(r)
    ensures LedgerOk(ApplyAll(r, actions), r.ledger)
  {
    if actions != [] {
      RunKeepsLedger(r, actions[..|actions| - 1]);
      ApplyKeepsLedger(ApplyAll(r, actions[..|actions| - 1]), r.ledger, actions[|actions| - 1]);
    }
  }

  /**
   * The overshoot bound: although a call's actual usage may exceed its reservation, at every moment of every
   * interleaving the tokens used exceed the limit by at most one maximal call per concurrent permit.
   */
  lemma TokenOvershootBounded(r: Run, actions: seq<Action>)
    requires Started(r) && r.ledger.limits.tokenLimit.Some?
    ensures var l := ApplyAll(r, actions).ledger;
            && l.limits == r.ledger.limits
            && l.usage.tokensUsed <= l.limits.tokenLimit.value + l.limits.maxConcurrency * MAX_CALL_TOKENS
  {
    RunKeepsLedger(r, actions);
  }

  function HeldTokens(items: seq<Item>): int {
    if items == [] then 0
    else
      var last := items[|items| - 1];
      HeldTokens(items[..|items| - 1]) +
      (if last.Attempt? && last.ledger.Held? then last.intent.identity.reservation.tokens else 0)
  }

  predicate HoldsLeaf(item: Item) { item.Attempt? && item.leaf }

  lemma {:induction false} TotalColumns(items: seq<Item>)
    ensures LedgerTotal(items).tokensReserved == HeldTokens(items)
    ensures LedgerTotal(items).activeLeafCalls == Count(items, HoldsLeaf)
  {
    if items != [] { TotalColumns(items[..|items| - 1]); }
  }

  /**
   * Reservation conservation on every path: the reserved tokens are the sum over attempts that are neither
   * accounted nor given back, and the active leaves are the attempts that hold one. While authority is open these
   * are the unfinished attempts, each with its permit.
   */
  lemma ReservationsConserved(r: Run, actions: seq<Action>)
    requires Started(r)
    ensures var now := ApplyAll(r, actions);
            && now.ledger.usage.tokensReserved == HeldTokens(now.items)
            && now.ledger.usage.activeLeafCalls == Count(now.items, HoldsLeaf)
            && (now.authority ==>
                  && now.ledger.usage.activeLeafCalls == Permits(now.items)
                  && forall k | 0 <= k < |now.items| && now.items[k].Attempt? ::
                       && (now.items[k].ledger.Held? <==> now.items[k].phase.AwaitIntent? || now.items[k].phase.Running?)
                       && (now.items[k].leaf <==> now.items[k].phase != Finished))
  {
    var now := ApplyAll(r, actions);
    RunKeepsLedger(r, actions);
    TotalColumns(now.items);
    if now.authority {
      forall k | 0 <= k < |now.items| && now.items[k].Attempt?
        ensures now.items[k].ledger.Held? <==> now.items[k].phase.AwaitIntent? || now.items[k].phase.Running?
        ensures now.items[k].leaf <==> now.items[k].permit
        ensures now.items[k].leaf <==> now.items[k].phase != Finished
      {
        assert PhaseOk(now.items[k], now.authority);
      }
      CountOfFewer(now.items, HoldsLeaf, HoldsPermit);
      CountOfFewer(now.items, HoldsPermit, HoldsLeaf);
    }
  }

  /** So a permit holder is never told "saturated", and releasing a held leaf never meets the clamp at zero. */
  lemma LeavesNeverSaturateOrUnderflow(r: Run, actions: seq<Action>, k: nat)
    requires Started(r) && k < |ApplyAll(r, actions).items|
    ensures var now := ApplyAll(r, actions);
            && (now.authority && Permits(now.items) < now.ledger.limits.maxConcurrency ==> AcquireLeaf(now.ledger).Some?)
            && (now.items[k].Attempt? && now.items[k].leaf ==>
                  ReleaseLeaf(now.ledger).usage.activeLeafCalls == now.ledger.usage.activeLeafCalls - 1)
  {
    var now := ApplyAll(r, actions);
    ReservationsConserved(r, actions);
    RunKeepsLedger(r, actions);
    LedgerTotalCovers(now.items, k);
  }
}
