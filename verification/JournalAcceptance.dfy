/**
 * The write-ahead protocol against the strict fold: exactly when an event that the protocol writes is one that recovery
 * accepts (src/runtime/provider.ts, src/runtime/frame.ts against src/runtime/run-recovery-journal.ts).
 */
module JournalAcceptance {
  import opened Wrappers
  import opened Usage
  import opened Journal
  import opened Provider
  import opened LedgerConservation
  import opened LedgerCorrections
  import opened ControllerTurns
  import opened Decimals
  import CrashCut
  import FoldAgreement
  import FrameTree
  import JournalLimits
  import LedgerAgreement
  import OperationDiscipline
  import OperationOrder
  import R = RecoveryJournal

  // ----- What the ledger and the books know of each other.

  lemma {:induction false} CorrectionsNonNegative(items: seq<Item>)
    ensures CorrectionTotal(items).attempts >= 0 && CorrectionTotal(items).logicalCalls >= 0
    ensures CorrectionTotal(items).framesOpened >= 0
  {
    if items != [] { CorrectionsNonNegative(items[..|items| - 1]); }
  }

  /** The tokens that the journal tells of: those of the ledger without the corrections. */
  function JournalUsed(now: Run): int { now.ledger.usage.tokensUsed - CorrectionTotal(now.items).tokensUsed }

  function JournalReserved(now: Run): int { now.ledger.usage.tokensReserved - CorrectionTotal(now.items).tokensReserved }

  /** A binding of the key is in the journal. */
  ghost predicate KeyBoundIn(runId: string, journal: seq<Event>, id: RegistryId) {
    exists b :: KeyBound(b) in journal && RegistryIdOf(runId, b.kind, b.key, b.frameId) == Some(id)
  }

  /** The strict fold counts no more than the ledger has granted, and its books name every intent after its identity. */
  ghost predicate Tied(m: R.Manifest, now: Run, s: R.FoldState) {
    var u := now.ledger.usage;
    && now.runId == m.runId && now.ledger.limits == m.limits
    && s.totals.attempts <= u.attempts && s.totals.childFrames <= u.framesOpened
    && s.totals.logicalCalls <= u.logicalCalls && s.totals.logicalCalls <= m.limits.maxLogicalCalls
    && s.totals.committedControllerTurns + Count(now.items, Uncommitted) == u.controllerTurns
    && s.totals.tokensUsed == JournalUsed(now) && s.totals.tokensReserved == JournalReserved(now)
    && OperationOrder.JournalOk(now.journal, s)
    && (forall id <- s.book.intents :: id == IntentId(s.book.intents[id].identity))
    && (forall f <- s.frames :: f == m.Root() || FoldAgreement.OrdinalReached(now.ordinals.executions, f))
    && (forall id <- s.registry.keys :: KeyBoundIn(m.runId, now.journal, id))
    && TurnsTied(m, now, s)
  }

  lemma TotalsTied(m: R.Manifest, r: Run, storedBytes: int, actions: seq<Action>)
    requires Launched(m, r, storedBytes) && R.Fold(m, ApplyAll(r, actions).journal).Ok?
    ensures var now := ApplyAll(r, actions);
            var t, u := R.Fold(m, now.journal).value.totals, now.ledger.usage;
            && now.runId == m.runId && now.ledger.limits == m.limits
            && t.attempts <= u.attempts && t.childFrames <= u.framesOpened && t.logicalCalls <= u.logicalCalls
            && t.committedControllerTurns + Count(now.items, Uncommitted) == u.controllerTurns
            && t.tokensUsed == JournalUsed(now) && t.tokensReserved == JournalReserved(now)
  {
    var now := ApplyAll(r, actions);
    RunIdKept(r, actions);
    RunKeepsLedger(r, actions);
    LedgerEqualsJournalPlusCorrections(r, storedBytes, actions);
    FoldAgreement.DerivedStateAgrees(m, now.journal, storedBytes);
    CorrectionsNonNegative(now.items);
    CorrectionCounts(now.items);
  }

  lemma BooksTied(m: R.Manifest, r: Run, storedBytes: int, actions: seq<Action>)
    requires Launched(m, r, storedBytes) && R.Fold(m, ApplyAll(r, actions).journal).Ok?
    ensures var now := ApplyAll(r, actions);
            var s := R.Fold(m, now.journal).value;
            && (forall id <- s.book.intents :: id == IntentId(s.book.intents[id].identity))
            && (forall f <- s.frames :: f == m.Root() || FoldAgreement.OrdinalReached(now.ordinals.executions, f))
            && (forall id <- s.registry.keys :: KeyBoundIn(m.runId, now.journal, id))
  {
    var now := ApplyAll(r, actions);
    var s := R.Fold(m, now.journal).value;
    RunIdKept(r, actions);
    var d := RunKeepsJournal(r, storedBytes, actions);
    FoldAgreement.DerivedStateAgrees(m, now.journal, storedBytes);
    forall id | id in s.book.intents ensures id == IntentId(s.book.intents[id].identity) {
      assert LedgerAgreement.KnownIntent(now.journal, d, id);
    }
    forall id | id in s.registry.keys ensures KeyBoundIn(m.runId, now.journal, id) {
      assert LedgerAgreement.KnownKey(now.runId, now.journal, d, id);
    }
    FrameTree.FoldKeepsFrames(m, now.journal);
    forall f | f in s.frames ensures f == m.Root() || FoldAgreement.OrdinalReached(now.ordinals.executions, f) {
      assert FrameTree.FrameOk(m, s, f);
      if f != m.Root() {
        assert f in d.progression.childFrames;
        assert FoldAgreement.OrdinalReached(now.ordinals.executions, f);
      }
    }
  }

  lemma TiedAt(m: R.Manifest, r: Run, storedBytes: int, actions: seq<Action>)
    requires Launched(m, r, storedBytes) && R.Fold(m, ApplyAll(r, actions).journal).Ok?
    ensures Tied(m, ApplyAll(r, actions), R.Fold(m, ApplyAll(r, actions).journal).value)
  {
    var now := ApplyAll(r, actions);
    TotalsTied(m, r, storedBytes, actions);
    BooksTied(m, r, storedBytes, actions);
    TurnsTiedAt(m, r, storedBytes, actions);
    OperationOrder.FoldKeepsJournal(m, now.journal);
    JournalLimits.FoldKeepsCounters(m, now.journal);
  }

  // ----- Intents.

  ghost predicate FrameOpen(s: R.FoldState, f: FrameId) {
    s.terminal.None? && f in s.frames && s.frames[f].closed.None?
  }

  /** What authorizes the request, apart from the budget, the turns and the order of attempts. */
  ghost predicate Authorized(m: R.Manifest, s: R.FoldState, i: IntentIdentity) {
    && FrameOpen(s, i.frameId)
    && (i.version == ProviderRequest ==> i.reservation.tokens > 0)
    && (i.version == AgentRequest || i.version == ExternalExtractorRequest ==> i.reservation.tokens == 0)
    && if i.kind != ControllerKind then R.OperationAuthorized(m, s, s.frames[i.frameId], i)
       else
         var iteration := |s.frames[i.frameId].cells| + 1;
         && i.operationId == ControllerOperation(i.frameId, iteration) && i.key == Decimal(iteration)
         && i.version == ProviderRequest
  }

  lemma IntentVerdict(m: R.Manifest, s: R.FoldState, intent: Intent)
    requires m.objective.Some? && FrameOpen(s, intent.identity.frameId)
    ensures R.StepEvent(m, s, OperationIntended(intent)).Ok? <==>
              && intent.identity.runId == m.runId && intent.intentId !in s.book.intents
              && R.ReservationAllowed(m, s, intent.identity) && R.AttemptInOrder(s, intent.identity)
              && R.OperationAuthorized(m, s, s.frames[intent.identity.frameId], intent.identity)
  {
  }

  lemma ClosedVerdict(m: R.Manifest, s: R.FoldState, e: Event)
    requires m.objective.Some? && e.Frame().Some? && !FrameOpen(s, e.Frame().value)
    ensures R.StepEvent(m, s, e).Err?
  {
  }

  /**
   * The operation continues where the journal stands: each attempt it has counted has its intent there, under the same
   * kind and key, and the last one has settled. An agent's operation makes one attempt.
   */
  ghost predicate InOrder(journal: seq<Event>, op: Operation) {
    var attempts := OperationDiscipline.Of(Intents(journal), OpKey(op.frameId, op.operationId));
    && op.ordinal == |attempts|
    && (attempts == [] || op.kind == AgentKind ==> !op.logicalReserved)
    && (attempts != [] ==>
          && OperationOrder.SettledIn(journal, attempts[|attempts| - 1])
          && attempts[0].identity.kind == op.kind && attempts[0].identity.key == op.key)
  }

  /** What the books record of an operation is what the journal holds of it. */
  ghost predicate Recorded(journal: seq<Event>, s: R.FoldState, key: OperationKey) {
    var attempts := OperationDiscipline.Of(Intents(journal), key);
    && (key in s.book.operations <==> attempts != [])
    && (attempts != [] ==>
          var recorded, last := s.book.operations[key], attempts[|attempts| - 1];
          && recorded.lastAttempt == |attempts| && recorded.lastIntentId == last.intentId && |recorded.segments| > 0
          && recorded.kind == attempts[0].identity.kind && recorded.key == attempts[0].identity.key
          && (last.intentId in s.book.settlements <==> OperationOrder.SettledIn(journal, last)))
  }

  lemma BooksRecord(journal: seq<Event>, s: R.FoldState, key: OperationKey)
    requires OperationOrder.JournalOk(journal, s)
    ensures Recorded(journal, s, key)
  {
    var attempts := OperationDiscipline.Of(Intents(journal), key);
    assert OperationDiscipline.KeyOk(Intents(journal), s.book, key);
    if attempts != [] {
      OperationOrder.OfMember(Intents(journal), key, attempts[|attempts| - 1]);
      OperationOrder.BookSettlesIn(journal, s, attempts[|attempts| - 1]);
    }
  }

  lemma RecordedIsOrder(journal: seq<Event>, s: R.FoldState, op: Operation, i: IntentIdentity)
    requires Recorded(journal, s, OpKey(op.frameId, op.operationId))
    requires OpKey(i.frameId, i.operationId) == OpKey(op.frameId, op.operationId)
    requires i.kind == op.kind && i.key == op.key && i.attempt == op.ordinal + 1
    requires i.reservation.logicalCalls == if op.logicalReserved then 0 else 1
    ensures R.AttemptInOrder(s, i) <==> InOrder(journal, op)
  {
  }

  /** That is exactly what the strict fold asks of the next attempt. */
  lemma OrderIsAttemptOrder(journal: seq<Event>, s: R.FoldState, op: Operation, i: IntentIdentity)
    requires OperationOrder.JournalOk(journal, s)
    requires OpKey(i.frameId, i.operationId) == OpKey(op.frameId, op.operationId)
    requires i.kind == op.kind && i.key == op.key && i.attempt == op.ordinal + 1
    requires i.reservation.logicalCalls == if op.logicalReserved then 0 else 1
    ensures R.AttemptInOrder(s, i) <==> InOrder(journal, op)
  {
    BooksRecord(journal, s, OpKey(op.frameId, op.operationId));
    RecordedIsOrder(journal, s, op, i);
  }

  lemma KnownAttemptsAreEarlier(journal: seq<Event>, s: R.FoldState, id: IntentId)
    requires OperationOrder.JournalOk(journal, s) && id in s.book.intents
    ensures var intent := s.book.intents[id];
            && intent.OperationKey() in s.book.operations
            && intent.identity.attempt <= s.book.operations[intent.OperationKey()].lastAttempt
  {
    var intents, intent := Intents(journal), s.book.intents[id];
    var key := intent.OperationKey();
    OperationOrder.OfMember(intents, key, intent);
    var attempts := OperationDiscipline.Of(intents, key);
    var k :| 0 <= k < |attempts| && attempts[k] == intent;
    assert OperationDiscipline.KeyOk(intents, s.book, key);
  }

  /** An attempt with the next ordinal of its operation has an id that no intent has yet. */
  lemma NextIntentIsFresh(now: Run, s: R.FoldState, i: IntentIdentity)
    requires OperationOrder.JournalOk(now.journal, s)
    requires forall id <- s.book.intents :: id == IntentId(s.book.intents[id].identity)
    requires R.AttemptInOrder(s, i)
    ensures IntentId(i) !in s.book.intents
  {
    if IntentId(i) in s.book.intents { KnownAttemptsAreEarlier(now.journal, s, IntentId(i)); }
  }

  /** The tokens that the journal tells of leave room for the reservation. */
  predicate RoomInJournal(now: Run, tokens: int) {
    && JournalReserved(now) + tokens <= MAX_SAFE_INTEGER
    && (now.ledger.limits.tokenLimit.Some? ==>
          JournalUsed(now) + JournalReserved(now) + tokens <= now.ledger.limits.tokenLimit.value)
  }

  /** What the ledger grants, the manifest allows if and only if the journal has room for its tokens. */
  lemma GrantedIsAllowed(m: R.Manifest, now: Run, s: R.FoldState, op: Operation, i: IntentIdentity, time: int)
    requires Tied(m, now, s) && Reserve(now.ledger, op, i.reservation.tokens, time).Ok?
    requires i.reservation.logicalCalls == if op.logicalReserved then 0 else 1
    requires i.version == ProviderRequest ==> i.reservation.tokens > 0
    requires i.version == AgentRequest || i.version == ExternalExtractorRequest ==> i.reservation.tokens == 0
    ensures R.ReservationAllowed(m, s, i) <==> RoomInJournal(now, i.reservation.tokens)
  {
  }

  /** A controller operation made for a reserved turn never exceeds the manifest's turns. */
  lemma TurnIsAllowed(m: R.Manifest, now: Run, s: R.FoldState, k: nat, i: IntentIdentity)
    requires Tied(m, now, s) && k < |now.operations| && FrameOpen(s, i.frameId)
    requires i.kind == now.operations[k].kind && i.operationId == now.operations[k].operationId
    ensures R.OperationAuthorized(m, s, s.frames[i.frameId], i) <==>
              if i.kind != ControllerKind then R.OperationAuthorized(m, s, s.frames[i.frameId], i)
              else
                var iteration := |s.frames[i.frameId].cells| + 1;
                && i.operationId == ControllerOperation(i.frameId, iteration) && i.key == Decimal(iteration)
                && i.version == ProviderRequest
  {
    if i.kind == ControllerKind { ControllersWithinLimit(m, now, s, k); }
  }

  /** The identity is that of the next attempt of an operation. */
  predicate NextAttempt(now: Run, op: Operation, i: IntentIdentity) {
    && i.runId == now.runId && i.frameId == op.frameId && i.operationId == op.operationId
    && i.kind == op.kind && i.key == op.key && i.attempt == op.ordinal + 1
    && i.reservation.logicalCalls == (if op.logicalReserved then 0 else 1)
  }

  lemma FreshIntentVerdict(m: R.Manifest, now: Run, s: R.FoldState, i: IntentIdentity)
    requires m.objective.Some? && Tied(m, now, s) && FrameOpen(s, i.frameId) && i.runId == now.runId
    ensures R.StepEvent(m, s, OperationIntended(Intent(i, IntentId(i)))).Ok? <==>
              R.ReservationAllowed(m, s, i) && R.AttemptInOrder(s, i)
              && R.OperationAuthorized(m, s, s.frames[i.frameId], i)
  {
    IntentVerdict(m, s, Intent(i, IntentId(i)));
    if R.AttemptInOrder(s, i) { NextIntentIsFresh(now, s, i); }
  }

  lemma AllowedAndAuthorized(m: R.Manifest, now: Run, s: R.FoldState, k: nat, i: IntentIdentity, time: int)
    requires Tied(m, now, s) && k < |now.operations| && NextAttempt(now, now.operations[k], i)
    requires FrameOpen(s, i.frameId) && Reserve(now.ledger, now.operations[k], i.reservation.tokens, time).Ok?
    ensures R.ReservationAllowed(m, s, i) && R.OperationAuthorized(m, s, s.frames[i.frameId], i) <==>
              Authorized(m, s, i) && RoomInJournal(now, i.reservation.tokens)
  {
    TurnIsAllowed(m, now, s, k, i);
    if (i.version == ProviderRequest ==> i.reservation.tokens > 0)
       && (i.version == AgentRequest || i.version == ExternalExtractorRequest ==> i.reservation.tokens == 0) {
      GrantedIsAllowed(m, now, s, now.operations[k], i, time);
    }
  }

  lemma OpenIntentAccepted(m: R.Manifest, now: Run, s: R.FoldState, k: nat, i: IntentIdentity, time: int)
    requires m.objective.Some? && Tied(m, now, s) && k < |now.operations| && NextAttempt(now, now.operations[k], i)
    requires FrameOpen(s, i.frameId) && Reserve(now.ledger, now.operations[k], i.reservation.tokens, time).Ok?
    ensures R.StepEvent(m, s, OperationIntended(Intent(i, IntentId(i)))).Ok? <==>
              Authorized(m, s, i) && InOrder(now.journal, now.operations[k]) && RoomInJournal(now, i.reservation.tokens)
  {
    OrderIsAttemptOrder(now.journal, s, now.operations[k], i);
    FreshIntentVerdict(m, now, s, i);
    AllowedAndAuthorized(m, now, s, k, i, time);
  }

  /**
   * A granted attempt's intent is accepted if and only if the journal authorizes it, its operation continues where the
   * journal stands, and the journal has room for its tokens. No limit on attempts, calls or turns ever refuses it.
   */
  lemma IntentAccepted(m: R.Manifest, now: Run, s: R.FoldState, k: nat, tokens: nat, version: RequestVersion,
                       sha: string, time: int)
    requires m.objective.Some? && Tied(m, now, s) && k < |now.operations|
    requires tokens <= MAX_CALL_TOKENS && Reserve(now.ledger, now.operations[k], tokens, time).Ok?
    ensures var op := now.operations[k];
            var intent := IntentOf(now, op, op.ordinal + 1, tokens, version, sha);
            R.StepEvent(m, s, OperationIntended(intent)).Ok? <==>
              Authorized(m, s, intent.identity) && InOrder(now.journal, op) && RoomInJournal(now, tokens)
  {
    var op := now.operations[k];
    var intent := IntentOf(now, op, op.ordinal + 1, tokens, version, sha);
    if FrameOpen(s, op.frameId) {
      OpenIntentAccepted(m, now, s, k, intent.identity, time);
    } else {
      ClosedVerdict(m, s, OperationIntended(intent));
    }
  }

  /** Without room in the journal the granted attempt's intent is refused. */
  lemma NoRoomIsRefused(m: R.Manifest, now: Run, s: R.FoldState, k: nat, tokens: nat, version: RequestVersion,
                        sha: string, time: int)
    requires m.objective.Some? && Tied(m, now, s) && k < |now.operations| && !RoomInJournal(now, tokens)
    requires tokens <= MAX_CALL_TOKENS && Reserve(now.ledger, now.operations[k], tokens, time).Ok?
    ensures var op := now.operations[k];
            R.StepEvent(m, s, OperationIntended(IntentOf(now, op, op.ordinal + 1, tokens, version, sha))).Err?
  {
    IntentAccepted(m, now, s, k, tokens, version, sha, time);
  }

  // ----- When there is room.

  /** The journal tells of an attempt exactly what the ledger holds: it runs, or was charged what its settlement says. */
  predicate InStep(item: Item) {
    item.Attempt? ==>
      if !item.intended then item.ledger.Freed? else if item.settled.None? then item.ledger.Held? else item.ledger.Charged?
  }

  ghost predicate AllInStep(items: seq<Item>) {
    forall k {:trigger InStep(items[k])} | 0 <= k < |items| :: InStep(items[k]) && LedgerAgreement.ShapeOk(items[k])
  }

  lemma {:induction false} InStepTokens(items: seq<Item>)
    requires AllInStep(items)
    ensures CorrectionTotal(items).tokensUsed == 0 && CorrectionTotal(items).tokensReserved == 0
  {
    if items != [] {
      var front := items[..|items| - 1];
      forall k | 0 <= k < |front| ensures InStep(front[k]) && LedgerAgreement.ShapeOk(front[k]) {
        assert InStep(items[k]);
      }
      InStepTokens(front);
      assert InStep(items[|items| - 1]);
    }
  }

  /** While every attempt is in step, the journal has room for whatever the ledger grants. */
  lemma InStepHasRoom(now: Run, op: Operation, tokens: nat, time: int)
    requires AllInStep(now.items) && Reserve(now.ledger, op, tokens, time).Ok?
    ensures RoomInJournal(now, tokens)
  {
    InStepTokens(now.items);
  }

  // ----- Settlements.

  /** A usage of one call whose parts do not exceed its total, and whose sums stay representable. */
  ghost predicate SettlementFits(s: R.FoldState, id: IntentId, usage: CallUsage) {
    && Within(usage, CALL_USAGE_LIMITS)
    && (usage.totalTokens.Some? ==> usage.Input() + usage.Output() <= usage.totalTokens.value)
    && s.totals.tokensUsed + usage.Tokens() <= MAX_SAFE_INTEGER
    && R.HasSegment(s.book, id) && AddUsage(R.SegmentFor(s.book, id).usage, usage).Ok?
  }

  /** The books answer for an attempt that has not settled. */
  ghost predicate Unsettled(s: R.FoldState, e: Settlement) {
    && e.intentId in s.book.intents && e.intentId !in s.book.settlements
    && e.frameId == s.book.intents[e.intentId].identity.frameId
  }

  lemma UnsettledInBooks(journal: seq<Event>, s: R.FoldState, e: Settlement)
    requires OperationOrder.JournalOk(journal, s) && Unsettled(s, e)
    ensures R.HasSegment(s.book, e.intentId)
    ensures s.totals.tokensReserved >= s.book.intents[e.intentId].identity.reservation.tokens
  {
    assert OperationDiscipline.AttemptOk(s.book, e.intentId);
    OperationDiscipline.ReservedCovers(Intents(journal), s.book.settlements.Keys, s.book.intents[e.intentId]);
  }

  lemma SettlementVerdict(m: R.Manifest, s: R.FoldState, e: Settlement)
    requires m.objective.Some? && FrameOpen(s, e.frameId) && Unsettled(s, e) && R.HasSegment(s.book, e.intentId)
    requires e.runId == m.runId && s.totals.tokensReserved >= s.book.intents[e.intentId].identity.reservation.tokens
    ensures R.StepEvent(m, s, OperationSettled(e)).Ok? <==> SettlementFits(s, e.intentId, e.usage)
  {
  }

  /** A settlement of an unsettled attempt is accepted if and only if its frame is open and its usage fits. */
  lemma SettlementAccepted(m: R.Manifest, journal: seq<Event>, s: R.FoldState, e: Settlement)
    requires m.objective.Some? && OperationOrder.JournalOk(journal, s) && Unsettled(s, e) && e.runId == m.runId
    ensures R.StepEvent(m, s, OperationSettled(e)).Ok? <==>
              FrameOpen(s, e.frameId) && SettlementFits(s, e.intentId, e.usage)
  {
    if FrameOpen(s, e.frameId) {
      UnsettledInBooks(journal, s, e);
      SettlementVerdict(m, s, e);
    } else {
      ClosedVerdict(m, s, OperationSettled(e));
    }
  }

  /** A usage whose parts exceed its own total passes as a call's usage, and its settlement is refused. */
  lemma PartsAboveTotalAreRefused(m: R.Manifest, journal: seq<Event>, s: R.FoldState, e: Settlement)
    requires m.objective.Some? && OperationOrder.JournalOk(journal, s) && Unsettled(s, e) && e.runId == m.runId
    requires e.usage == CallUsage(1, Some(2), Some(1), Some(2), None, 0)
    ensures NormalizeCallUsage(e.usage).Ok? && R.StepEvent(m, s, OperationSettled(e)).Err?
  {
    SettlementAccepted(m, journal, s, e);
  }

  // ----- Sums.

  /** The books count the attempts, and no settlement adds more than two maximal calls to the used tokens. */
  ghost predicate Counted(s: R.FoldState) {
    && |s.book.intents| == s.totals.attempts && s.book.settlements.Keys <= s.book.intents.Keys
    && s.totals.tokensUsed <= 2 * MAX_CALL_TOKENS * |s.book.settlements|
  }

  lemma OneMoreKey<K, V>(entries: map<K, V>, key: K, value: V)
    requires key !in entries
    ensures |entries[key := value]| == |entries| + 1
  {
    assert entries[key := value].Keys == entries.Keys + {key};
  }

  lemma KeysWithin<K, V, W>(some: map<K, V>, all: map<K, W>)
    requires some.Keys <= all.Keys
    ensures |some| <= |all|
  {
    SubsetSize(some.Keys, all.Keys);
  }

  lemma {:induction false} SubsetSize<K>(some: set<K>, all: set<K>)
    requires some <= all
    ensures |some| <= |all|
  {
    if some != {} {
      var x :| x in some;
      SubsetSize(some - {x}, all - {x});
    }
  }

  lemma IntentCounted(m: R.Manifest, s: R.FoldState, intent: Intent)
    requires m.objective.Some? && Counted(s) && R.StepEvent(m, s, OperationIntended(intent)).Ok?
    ensures Counted(R.StepEvent(m, s, OperationIntended(intent)).value)
  {
    var frame := s.frames[intent.identity.frameId];
    FoldAgreement.IntendedBooks(m, s, frame, intent);
    OperationOrder.IntendedStep(m, s, frame, intent);
    OneMoreKey(s.book.intents, intent.intentId, intent);
  }

  lemma SettlementCounted(m: R.Manifest, s: R.FoldState, e: Settlement)
    requires m.objective.Some? && Counted(s) && R.StepEvent(m, s, OperationSettled(e)).Ok?
    ensures Counted(R.StepEvent(m, s, OperationSettled(e)).value)
  {
    FoldAgreement.SettledBooks(m, s, e);
    var usage := OperationOrder.SettledStep(m, s, e);
    OneMoreKey(s.book.settlements, e.intentId, e);
  }

  lemma OtherCounted(m: R.Manifest, s: R.FoldState, e: Event)
    requires m.objective.Some? && R.StepEvent(m, s, e).Ok? && !e.OperationIntended? && !e.OperationSettled?
    ensures var t := R.StepEvent(m, s, e).value.totals; t.attempts == s.totals.attempts && t.tokensUsed == s.totals.tokensUsed
  {
  }

  lemma {:induction false} FoldKeepsCounted(m: R.Manifest, es: seq<Event>)
    requires m.objective.Some? && R.Fold(m, es).Ok?
    ensures Counted(R.Fold(m, es).value)
  {
    if es != [] {
      var front, e := es[..|es| - 1], es[|es| - 1];
      var s := R.Fold(m, front).value;
      FoldKeepsCounted(m, front);
      if e.OperationIntended? {
        IntentCounted(m, s, e.intent);
      } else if e.OperationSettled? {
        SettlementCounted(m, s, e.settlement);
      } else {
        OtherCounted(m, s, e);
        OperationOrder.OtherEventsKeepBook(m, s, e);
      }
    }
  }

  lemma {:induction false} OfIsFewer(intents: seq<Intent>, key: OperationKey)
    ensures |OperationDiscipline.Of(intents, key)| <= |intents|
  {
    if intents != [] { OfIsFewer(intents[..|intents| - 1], key); }
  }

  lemma {:induction false} FlattenCovers(segments: seq<R.Segment>, k: nat)
    requires k < |segments|
    ensures |segments[k].intents| <= |OperationDiscipline.Flatten(segments)|
  {
    if k < |segments| - 1 { FlattenCovers(segments[..|segments| - 1], k); }
  }

  /** An unsettled attempt's logical call holds the exact sum of fewer settlements than there are attempts. */
  lemma SegmentSum(journal: seq<Event>, s: R.FoldState, id: IntentId) returns (n: nat)
    requires OperationOrder.JournalOk(journal, s) && id in s.book.intents && id !in s.book.settlements
    ensures R.HasSegment(s.book, id) && n < |Intents(journal)| && AtMostCalls(R.SegmentFor(s.book, id).usage, n)
  {
    var a, intents := s.book.attemptRecords[id], Intents(journal);
    assert OperationDiscipline.AttemptOk(s.book, id);
    var op, segment := s.book.operations[a.operation], R.SegmentFor(s.book, id);
    assert OperationDiscipline.KeyOk(intents, s.book, a.operation);
    assert OperationDiscipline.SegmentOk(a.operation, segment, s.book);
    FlattenCovers(op.segments, a.segment);
    OfIsFewer(intents, a.operation);
    SettledOutcomes(s.book, segment, a.operation, id);
    AccumulateExact(OperationDiscipline.Usages(segment.outcomes));
    SumAtMostCalls(OperationDiscipline.Usages(segment.outcomes));
    n := |segment.outcomes|;
  }

  lemma SettledOutcomes(book: R.Book, segment: R.Segment, key: OperationKey, id: IntentId)
    requires OperationDiscipline.SegmentOk(key, segment, book)
    requires id in book.intents && id !in book.settlements && book.intents[id] in segment.intents
    requires book.intents[id].intentId == id && book.settlements.Keys <= book.intents.Keys
    requires forall x {:trigger OperationDiscipline.SettlementOk(book, x)} | x in book.settlements ::
               OperationDiscipline.SettlementOk(book, x)
    ensures |segment.outcomes| < |segment.intents|
    ensures forall u <- OperationDiscipline.Usages(segment.outcomes) :: Within(u, CALL_USAGE_LIMITS)
  {
    var j :| 0 <= j < |segment.intents| && segment.intents[j] == book.intents[id];
    forall u | u in OperationDiscipline.Usages(segment.outcomes) ensures Within(u, CALL_USAGE_LIMITS) {
      var i :| 0 <= i < |segment.outcomes| && OperationDiscipline.Usages(segment.outcomes)[i] == u;
      assert OperationDiscipline.SettlementOk(book, segment.intents[i].intentId);
    }
  }

  lemma SumsFitState(s: R.FoldState, id: IntentId, usage: CallUsage, n: nat)
    requires Counted(s) && n < s.totals.attempts <= MILLION && Within(usage, CALL_USAGE_LIMITS)
    requires R.HasSegment(s.book, id) && AtMostCalls(R.SegmentFor(s.book, id).usage, n)
    requires usage.totalTokens.Some? ==> usage.Input() + usage.Output() <= usage.totalTokens.value
    ensures SettlementFits(s, id, usage)
  {
    KeysWithin(s.book.settlements, s.book.intents);
    SumsFitIn(s, R.SegmentFor(s.book, id).usage, usage, n);
  }

  /** Under a manifest of at most a million attempts, no sum of settlements ever overflows. */
  lemma SumsFit(m: R.Manifest, journal: seq<Event>, s: R.FoldState, id: IntentId, usage: CallUsage)
    requires m.objective.Some? && R.Fold(m, journal) == Ok(s) && m.limits.maxAttempts <= MILLION
    requires id in s.book.intents && id !in s.book.settlements && Within(usage, CALL_USAGE_LIMITS)
    requires usage.totalTokens.Some? ==> usage.Input() + usage.Output() <= usage.totalTokens.value
    ensures SettlementFits(s, id, usage)
  {
    OperationOrder.FoldKeepsJournal(m, journal);
    JournalLimits.FoldKeepsCounters(m, journal);
    FoldKeepsCounted(m, journal);
    var n := SegmentSum(journal, s, id);
    SumsFitState(s, id, usage, n);
  }

  lemma SumsFitIn(s: R.FoldState, sum: CallUsage, usage: CallUsage, n: nat)
    requires AtMostCalls(sum, n) && n < MILLION && Within(usage, CALL_USAGE_LIMITS)
    requires s.totals.tokensUsed <= 2 * MAX_CALL_TOKENS * MILLION
    ensures s.totals.tokensUsed + usage.Tokens() <= MAX_SAFE_INTEGER
    ensures AddUsage(sum, usage).Ok?
  {
    OneMoreCall(sum, usage, n);
    MillionCallsFit(sum, n);
    MillionCallsFit(usage, 1);
    MillionCallsFit(Plus(sum, usage), n + 1);
    AddUsageExact(sum, usage, ADD_USAGE_LIMITS);
  }

  // ----- Child frames.

  lemma OpeningVerdict(m: R.Manifest, s: R.FoldState, o: Opened)
    requires m.objective.Some? && o.parent.Some? && o.frameId.runId == m.runId && o.frameId !in s.frames
    ensures R.StepEvent(m, s, FrameOpened(o)).Ok? <==>
              && FrameOpen(s, o.parent.value)
              && o.depth == s.frames[o.parent.value].opening.depth + 1 && o.depth <= m.limits.maxDepth
              && s.totals.childFrames + 1 <= m.limits.maxFrames && s.totals.logicalCalls + 1 <= m.limits.maxLogicalCalls
  {
  }

  /** A granted child frame's opening is accepted if and only if its parent is open, one level above it. */
  lemma OpeningAccepted(m: R.Manifest, now: Run, s: R.FoldState, parent: FrameId, depth: nat, digest: Digest,
                        objective: string, time: int)
    requires m.objective.Some? && Tied(m, now, s) && DoReserveChild(now, parent, depth, digest, objective, time) != now
    ensures var r := DoReserveChild(now, parent, depth, digest, objective, time);
            && |r.items| == |now.items| + 1 && r.items[|now.items|].Child?
            && (R.StepEvent(m, s, FrameOpened(r.items[|now.items|].opening)).Ok? <==>
                  FrameOpen(s, parent) && depth == s.frames[parent].opening.depth)
  {
    var r := DoReserveChild(now, parent, depth, digest, objective, time);
    var o := r.items[|now.items|].opening;
    assert !FoldAgreement.OrdinalReached(now.ordinals.executions, o.frameId);
    OpeningVerdict(m, s, o);
  }

  // ----- Cells.

  /** The next cell of an open frame reports what its controller operation settled, and its output is complete. */
  ghost predicate CellFits(s: R.FoldState, c: Cell) {
    && FrameOpen(s, c.frameId) && c.iteration == |s.frames[c.frameId].cells| + 1
    && var controller := OpKey(c.frameId, ControllerOperation(c.frameId, c.iteration));
       && (controller in s.book.operations ==> R.ControllerComplete(s.book.operations[controller]))
       && c.usage.GetOr(ZERO_CALL_USAGE) == R.ControllerUsage(s, c)
       && (c.output.id.Some? ==> c.output.Complete())
  }

  lemma CellVerdict(m: R.Manifest, s: R.FoldState, c: Cell)
    requires m.objective.Some? && FrameOpen(s, c.frameId) && (c.frameId, c.iteration) !in s.cells
    ensures R.StepEvent(m, s, CellCommitted(c)).Ok? <==>
              && c.iteration <= m.limits.maxControllerTurns
              && s.totals.committedControllerTurns + 1 <= m.limits.maxControllerTurns && CellFits(s, c)
  {
  }

  lemma {:induction false} FrameCellsCounted(f: FrameId, iterations: set<nat>, cells: set<(FrameId, nat)>)
    requires forall i <- iterations :: (f, i) in cells
    ensures |iterations| <= |cells|
  {
    if iterations != {} {
      var i :| i in iterations;
      FrameCellsCounted(f, iterations - {i}, cells - {(f, i)});
    }
  }

  /** A reserved turn's cell is accepted if and only if it is its frame's next cell and reports its controller's usage. */
  lemma CellAccepted(m: R.Manifest, now: Run, s: R.FoldState, k: nat, c: Cell)
    requires m.objective.Some? && Tied(m, now, s) && CrashCut.RegistryOk(s)
    requires |s.cells| == s.totals.committedControllerTurns && (c.frameId, c.iteration) !in s.cells
    requires k < |now.items| && now.items[k] == Turn(c.frameId, c.iteration, false)
    ensures R.StepEvent(m, s, CellCommitted(c)).Ok? <==> CellFits(s, c)
  {
    if FrameOpen(s, c.frameId) {
      assert Uncommitted(now.items[k]);
      FrameCellsCounted(c.frameId, s.frames[c.frameId].cells.Keys, s.cells.Keys);
      CellVerdict(m, s, c);
    } else {
      ClosedVerdict(m, s, CellCommitted(c));
    }
  }

  // ----- Key bindings.

  /** No earlier event of the journal binds the key. */
  ghost predicate Unbound(runId: string, journal: seq<Event>, b: KeyBinding) {
    forall e <- journal | e.KeyBound? ::
      RegistryIdOf(runId, e.binding.kind, e.binding.key, e.binding.frameId)
      != RegistryIdOf(runId, b.kind, b.key, b.frameId)
  }

  lemma BindingVerdict(m: R.Manifest, s: R.FoldState, b: KeyBinding)
    requires m.objective.Some? && FrameOpen(s, b.frameId) && RegistryIdOf(m.runId, b.kind, b.key, b.frameId).Some?
    requires RegistryIdOf(m.runId, b.kind, b.key, b.frameId).value !in s.registry.keys
    ensures R.StepEvent(m, s, KeyBound(b)).Ok?
  {
  }

  /** The first binding of a key is accepted if and only if its frame is open. */
  lemma BindingAccepted(m: R.Manifest, now: Run, s: R.FoldState, b: KeyBinding)
    requires m.objective.Some? && Tied(m, now, s) && Unbound(m.runId, now.journal, b)
    requires RegistryIdOf(m.runId, b.kind, b.key, b.frameId).Some?
    ensures R.StepEvent(m, s, KeyBound(b)).Ok? <==> FrameOpen(s, b.frameId)
  {
    if FrameOpen(s, b.frameId) {
      var id := RegistryIdOf(m.runId, b.kind, b.key, b.frameId).value;
      if id in s.registry.keys { UnboundIsNew(m.runId, now.journal, b, id); }
      BindingVerdict(m, s, b);
    } else {
      ClosedVerdict(m, s, KeyBound(b));
    }
  }

  lemma UnboundIsNew(runId: string, journal: seq<Event>, b: KeyBinding, id: RegistryId)
    requires Unbound(runId, journal, b) && RegistryIdOf(runId, b.kind, b.key, b.frameId) == Some(id)
    ensures !KeyBoundIn(runId, journal, id)
  {
  }
}
