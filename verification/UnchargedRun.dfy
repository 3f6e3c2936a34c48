/**
 * Runs whose ledger grants an attempt that recovery refuses: a response reports twelve million tokens without a total,
 * the ledger charges none of them, and the journal has that much less room under the token limit.
 */
module UnchargedRun {
  import opened Wrappers
  import opened Usage
  import opened Budget
  import opened Journal
  import opened Provider
  import opened LedgerCorrections
  import opened ControllerTurns
  import opened JournalAcceptance
  import opened Decimals
  import CheckpointRecovery
  import FoldAgreement
  import OperationDiscipline
  import OperationOrder
  import R = RecoveryJournal

  /** What the run is called and asked for, its token limit, and the digest of its first request. */
  datatype Setting = Setting(runId: string, objective: string, hash: string, tokenLimit: int, request: string) {
    function Limits(): Limits { Budget.Limits(1, 1, 2, 2, 1, 1, Some(tokenLimit), 0, 1) }

    function Manifest(): R.Manifest { R.Manifest(runId, hash, Limits(), [], Some(objective), false) }

    function Root(): FrameId { FrameId(runId, RootTail) }

    function Opening(): Opened { Opened(Root(), None, 0, objective) }

    function OperationId(): OperationId { ControllerOperation(Root(), 1) }

    function Key(): OperationKey { OpKey(Root(), OperationId()) }

    function Identity(): IntentIdentity {
      IntentIdentity(runId, Root(), OperationId(), ControllerKind, "1", 1, ProviderRequest, request, Reservation(1, 1, 1))
    }

    function Intent(): Intent { Journal.Intent(Identity(), IntentId(Identity())) }

    function Settlement(): Settlement {
      Journal.Settlement(runId, Root(), IntentId(Identity()), OutcomeInvalidResult, UNSUMMED, None)
    }

    function Events(): seq<Event> {
      [FrameOpened(Opening()), OperationIntended(Intent()), OperationSettled(Settlement())]
    }

    /** The root is open and nothing else has happened. */
    function Start(): Run {
      Run(runId, Ledger(Limits(), ZERO_USAGE), [FrameOpened(Opening())], [], [], Ordinals(map[], map[]), true)
    }

    function Actions(): seq<Action> {
      [ReserveTurn(Root(), 1, 0),
       StartOperation(Root(), OperationId(), ControllerKind, "1"),
       BeginAttempt(0, 1, ProviderRequest, request, false, false, 0),
       WriteIntent(1),
       IntentAcknowledged(1),
       ExternalEnded(1, OutcomeOk, UNSUMMED),
       WriteSettlement(1, None),
       SettlementResolved(1, false)]
    }

    function Attempt(phase: Phase, ledger: LedgerSide, intended: bool, settled: Option<CallUsage>, held: bool): Item {
      Item.Attempt(Intent(), 0, phase, ledger, intended, settled, held, held)
    }

    function Operation(begun: bool): Operation {
      Provider.Operation(
        Root(), OperationId(), ControllerKind, "1", begun, if begun then 1 else 0, ZERO_CALL_USAGE, false)
    }

    /** The run after its first `n` actions: it holds the turn, then the attempt, and never a used token. */
    function At(n: nat): Run
      requires n <= 8
    {
      Start().(
        ledger := Ledger(Limits(), UsageAt(n)),
        journal := if n <= 3 then Events()[..1] else if n <= 6 then Events()[..2] else Events(),
        operations := if n <= 1 then [] else [Operation(n >= 3)],
        ordinals := Ordinals(if n <= 2 then map[] else map[Key() := 1], map[]),
        items := if n == 0 then [] else if n <= 2 then [Turn(Root(), 1, false)] else [Turn(Root(), 1, false), AttemptAt(n)])
    }

    function UsageAt(n: nat): BudgetUsage {
      var turn := ZERO_USAGE.(controllerTurns := if n == 0 then 0 else 1);
      if n <= 2 then turn
      else
        turn.(attempts := 1, logicalCalls := 1, tokensReserved := if n <= 5 then 1 else 0,
              activeLeafCalls := if n <= 7 then 1 else 0)
    }

    function AttemptAt(n: nat): Item {
      if n <= 3 then Attempt(AwaitIntent, Held, false, None, true)
      else if n == 4 then Attempt(AwaitIntent, Held, true, None, true)
      else if n == 5 then Attempt(Running, Held, true, None, true)
      else if n == 6 then Attempt(AwaitSettlement(OutcomeInvalidResult, UNSUMMED), Freed, true, None, true)
      else if n == 7 then Attempt(AwaitSettlement(OutcomeInvalidResult, UNSUMMED), Freed, true, Some(UNSUMMED), true)
      else Attempt(Finished, Freed, true, Some(UNSUMMED), false)
    }

    /** What the strict fold knows once the root is open, and once the attempt is intended. */
    function RootFrame(): R.FrameRecord { R.FrameRecord(Opening(), map[], map[], map[], None, None, None, None) }

    function AfterOpening(): R.FoldState { R.EMPTY_FOLD.(frames := map[Root() := RootFrame()]) }

    function Recorded(): R.Operation {
      R.Operation(ControllerKind, "1", [R.Segment([Intent()], [], ZERO_CALL_USAGE)], 1, Intent().intentId)
    }

    function AfterIntent(): R.FoldState {
      AfterOpening().(
        totals := AfterOpening().totals.(attempts := 1, logicalCalls := 1, tokensReserved := 1),
        book := R.Book(
          map[Intent().intentId := Intent()], map[], map[Intent().intentId := R.Attempt(Key(), 0)],
          map[Key() := Recorded()], {OperationId()}))
    }
  }

  const UNSUMMED := CallUsage(1, Some(6_000_000), Some(6_000_000), None, None, 0)

  // ----- The run, action by action.

  lemma Turned(p: Setting)
    ensures Apply(p.At(0), p.Actions()[0]) == p.At(1)
  {
    assert !TurnIn([], p.Root(), 1);
  }

  lemma OperationMade(p: Setting)
    ensures Apply(p.At(1), p.Actions()[1]) == p.At(2)
  {
    assert p.At(1).items[0] == Turn(p.Root(), 1, false);
    assert OwnTurn(p.At(1).items, p.Root(), p.OperationId());
  }

  lemma AttemptBegun(p: Setting)
    requires p.tokenLimit >= 1
    ensures Apply(p.At(2), p.Actions()[2]) == p.At(3)
  {
    assert Permits(p.At(2).items) == 0 by { assert p.At(2).items[..0] == []; }
    assert map[][p.Key() := 1] == map[p.Key() := 1];
  }

  lemma IntentWritten(p: Setting)
    ensures Apply(p.At(3), p.Actions()[3]) == p.At(4)
  {
    assert p.Events()[..2] == p.Events()[..1] + [OperationIntended(p.Intent())];
  }

  lemma ResponseEnded(p: Setting)
    ensures Apply(p.At(4), p.Actions()[4]) == p.At(5)
    ensures Apply(p.At(5), p.Actions()[5]) == p.At(6)
  {
  }

  lemma SettlementWritten(p: Setting)
    ensures Apply(p.At(6), p.Actions()[6]) == p.At(7)
    ensures Apply(p.At(7), p.Actions()[7]) == p.At(8)
  {
    assert p.Events() == p.Events()[..2] + [OperationSettled(p.Settlement())];
  }

  lemma {:induction false} Reached(p: Setting, n: nat)
    requires p.tokenLimit >= 1 && n <= 8
    ensures ApplyAll(p.Start(), p.Actions()[..n]) == p.At(n)
  {
    if n == 0 {
      assert p.Events()[..1] == [FrameOpened(p.Opening())];
    } else {
      Reached(p, n - 1);
      assert p.Actions()[..n][..n - 1] == p.Actions()[..n - 1];
      if n == 1 { Turned(p); }
      else if n == 2 { OperationMade(p); }
      else if n == 3 { AttemptBegun(p); }
      else if n == 4 { IntentWritten(p); }
      else if n <= 6 { ResponseEnded(p); }
      else { SettlementWritten(p); }
    }
  }

  // ----- Its journal folds.

  lemma OpeningFolds(p: Setting)
    ensures R.Fold(p.Manifest(), p.Events()[..1]) == Ok(p.AfterOpening())
  {
    assert p.Events()[..1][..0] == [];
    assert R.Fold(p.Manifest(), []) == Ok(R.EMPTY_FOLD);
  }

  lemma IntentAllowed(p: Setting)
    requires p.tokenLimit >= 1
    ensures R.ReservationAllowed(p.Manifest(), p.AfterOpening(), p.Identity()) && R.AttemptInOrder(p.AfterOpening(), p.Identity())
    ensures R.OperationAuthorized(p.Manifest(), p.AfterOpening(), p.RootFrame(), p.Identity())
  {
    assert Decimal(1) == "1";
    assert {} + {p.OperationId()} == {p.OperationId()};
  }

  lemma IntentBooked(p: Setting)
    ensures R.Intend(p.AfterOpening().book, p.Intent()) == p.AfterIntent().book
  {
    assert [] + [R.Segment([p.Intent()], [], ZERO_CALL_USAGE)] == [R.Segment([p.Intent()], [], ZERO_CALL_USAGE)];
    assert R.RecordIntent(None, p.Intent()) == p.Recorded();
  }

  lemma IntentFolds(p: Setting)
    requires p.tokenLimit >= 1
    ensures R.Fold(p.Manifest(), p.Events()[..2]) == Ok(p.AfterIntent())
  {
    OpeningFolds(p);
    IntentStep(p);
    assert p.Events()[..2][..1] == p.Events()[..1];
  }

  lemma IntentStep(p: Setting)
    requires p.tokenLimit >= 1
    ensures R.StepEvent(p.Manifest(), p.AfterOpening(), OperationIntended(p.Intent())) == Ok(p.AfterIntent())
  {
    IntentAllowed(p);
    IntentBooked(p);
    FoldAgreement.IntendedBooks(p.Manifest(), p.AfterOpening(), p.RootFrame(), p.Intent());
    OperationOrder.IntendedStep(p.Manifest(), p.AfterOpening(), p.RootFrame(), p.Intent());
  }

  lemma UnsummedIsCallUsage()
    ensures UNSUMMED.Tokens() == 12_000_000 && Within(UNSUMMED, CALL_USAGE_LIMITS)
  {
  }

  lemma UnsummedAdds(sum: CallUsage)
    requires sum == ZERO_CALL_USAGE
    ensures AddUsage(sum, UNSUMMED).Ok?
  {
    AddUsageExact(sum, UNSUMMED, ADD_USAGE_LIMITS);
  }

  lemma FirstSegment(p: Setting)
    ensures R.HasSegment(p.AfterIntent().book, p.Intent().intentId)
    ensures R.SegmentFor(p.AfterIntent().book, p.Intent().intentId).usage == ZERO_CALL_USAGE
  {
  }

  lemma UnsummedFits(p: Setting)
    ensures SettlementFits(p.AfterIntent(), p.Intent().intentId, UNSUMMED)
  {
    UnsummedIsCallUsage();
    FirstSegment(p);
    UnsummedAdds(R.SegmentFor(p.AfterIntent().book, p.Intent().intentId).usage);
  }

  lemma SettlementStep(p: Setting)
    ensures R.StepEvent(p.Manifest(), p.AfterIntent(), OperationSettled(p.Settlement())).Ok?
    ensures var s := R.StepEvent(p.Manifest(), p.AfterIntent(), OperationSettled(p.Settlement())).value;
            s.frames == p.AfterOpening().frames && s.terminal.None?
  {
    UnsummedFits(p);
    SettlementVerdict(p.Manifest(), p.AfterIntent(), p.Settlement());
    FoldAgreement.SettledBooks(p.Manifest(), p.AfterIntent(), p.Settlement());
  }

  lemma JournalFolds(p: Setting)
    requires p.tokenLimit >= 1
    ensures R.Fold(p.Manifest(), p.Events()).Ok?
    ensures var s := R.Fold(p.Manifest(), p.Events()).value; s.frames == p.AfterOpening().frames && s.terminal.None?
  {
    IntentFolds(p);
    SettlementStep(p);
    assert p.Events()[..|p.Events()| - 1] == p.Events()[..2];
  }

  lemma LaunchedAtStart(p: Setting)
    requires p.tokenLimit >= 1
    ensures Launched(p.Manifest(), p.Start(), 0)
  {
    OpeningFolds(p);
    var journal := [FrameOpened(p.Opening())];
    assert p.Events()[..1] == journal && journal[..0] == [];
    assert CheckpointRecovery.Derive(p.runId, [], 0) == Some(CheckpointRecovery.Initial(0));
    assert CheckpointRecovery.Derive(p.runId, journal, 0) == Some(CheckpointRecovery.Initial(0));
  }

  // ----- The next attempt.

  lemma IntentsOfThree(opening: Event, intent: Intent, settlement: Event)
    requires !opening.OperationIntended? && !settlement.OperationIntended?
    ensures Intents([opening, OperationIntended(intent), settlement]) == [intent]
  {
    var intended := OperationIntended(intent);
    OperationOrder.ViewsAppend([], opening);
    OperationOrder.ViewsAppend([opening], intended);
    OperationOrder.ViewsAppend([opening, intended], settlement);
    assert [] + [opening] == [opening] && [opening] + [intended] == [opening, intended];
    assert [opening, intended] + [settlement] == [opening, intended, settlement];
  }

  lemma AttemptsOfOne(intent: Intent, key: OperationKey)
    requires intent.OperationKey() == key
    ensures OperationDiscipline.Of([intent], key) == [intent]
  {
    OperationDiscipline.OfAppend([], intent, key);
    assert [] + [intent] == [intent];
  }

  lemma NextIsInOrder(p: Setting)
    ensures InOrder(p.Events(), p.Operation(true))
  {
    IntentsOfThree(p.Events()[0], p.Intent(), p.Events()[2]);
    assert p.Events() == [p.Events()[0], OperationIntended(p.Intent()), p.Events()[2]];
    AttemptsOfOne(p.Intent(), p.Key());
    assert p.Events()[2].settlement.intentId == p.Intent().intentId;
  }

  lemma TwoItemsTell(now: Run, turn: Item, attempt: Item)
    requires now.items == [turn, attempt] && turn.Turn?
    requires attempt.Attempt? && attempt.intended && attempt.settled.Some? && attempt.ledger.Freed?
    ensures JournalUsed(now) == now.ledger.usage.tokensUsed + attempt.settled.value.Tokens()
    ensures JournalReserved(now) == now.ledger.usage.tokensReserved
  {
    CorrectionOfTwo(turn, attempt);
    UnchargedCorrection(attempt);
  }

  lemma AttemptAtEnd(p: Setting)
    ensures var a := p.AttemptAt(8);
            a.Attempt? && a.intended && a.settled == Some(UNSUMMED) && a.ledger.Freed?
  {
  }

  lemma JournalTells(p: Setting, now: Run, turn: Item)
    requires now.items == [turn, p.AttemptAt(8)] && turn.Turn?
    requires now.ledger.usage.tokensUsed == 0 && now.ledger.usage.tokensReserved == 0
    ensures JournalUsed(now) == 12_000_000 && JournalReserved(now) == 0
  {
    AttemptAtEnd(p);
    UnsummedIsCallUsage();
    TwoItemsTell(now, turn, p.AttemptAt(8));
  }

  lemma AtEnd(p: Setting)
    ensures var now := p.At(8);
            && now.items == [Turn(p.Root(), 1, false), p.AttemptAt(8)] && now.operations == [p.Operation(true)]
            && now.journal == p.Events() && now.runId == p.runId
            && now.ledger == Ledger(p.Limits(), p.UsageAt(8))
  {
  }

  lemma NextIsAuthorized(p: Setting, s: R.FoldState, i: IntentIdentity)
    requires FrameOpen(s, p.Root()) && s.frames[p.Root()].cells == map[]
    requires i.frameId == p.Root() && i.operationId == p.OperationId() && i.kind == ControllerKind && i.key == "1"
    requires i.version == ProviderRequest && i.reservation.tokens > 0
    ensures Authorized(p.Manifest(), s, i)
  {
    assert Decimal(1) == "1";
  }

  lemma NextIsGranted(p: Setting, tokens: nat)
    requires tokens <= p.tokenLimit && tokens <= MAX_CALL_TOKENS
    ensures Reserve(Ledger(p.Limits(), p.UsageAt(8)), p.Operation(true), tokens, 0).Ok?
  {
  }

  lemma RootIsOpen(p: Setting, s: R.FoldState)
    requires s.frames == p.AfterOpening().frames && s.terminal.None?
    ensures FrameOpen(s, p.Root()) && s.frames[p.Root()].cells == map[]
  {
  }

  /**
   * The ledger grants the next attempt any tokens within the limit; the journal folds, authorizes the attempt, and its
   * operation continues where the journal stands. Recovery accepts its intent if and only if the limit has room for the
   * twelve million tokens besides: of thirteen million, five are granted and refused.
   */
  lemma GrantedButRefused(p: Setting, tokens: nat, sha: string)
    requires 1 <= tokens <= p.tokenLimit && tokens <= MAX_CALL_TOKENS
    ensures var now, op := ApplyAll(p.Start(), p.Actions()), p.Operation(true);
            var fold := R.Fold(p.Manifest(), now.journal);
            var intent := IntentOf(now, op, 2, tokens, ProviderRequest, sha);
            && Launched(p.Manifest(), p.Start(), 0) && fold.Ok? && now.operations == [op]
            && Reserve(now.ledger, op, tokens, 0).Ok?
            && InOrder(now.journal, op) && Authorized(p.Manifest(), fold.value, intent.identity)
            && (R.StepEvent(p.Manifest(), fold.value, OperationIntended(intent)).Ok?
                <==> 12_000_000 + tokens <= p.tokenLimit)
  {
    Reached(p, 8);
    assert p.Actions()[..8] == p.Actions();
    AtEnd(p);
    LaunchedAtStart(p);
    JournalFolds(p);
    TiedAt(p.Manifest(), p.Start(), 0, p.Actions());
    NextVerdict(p, ApplyAll(p.Start(), p.Actions()), R.Fold(p.Manifest(), p.Events()).value, tokens, sha);
  }

  lemma NextVerdict(p: Setting, now: Run, s: R.FoldState, tokens: nat, sha: string)
    requires 1 <= tokens <= p.tokenLimit && tokens <= MAX_CALL_TOKENS
    requires now.items == [Turn(p.Root(), 1, false), p.AttemptAt(8)] && now.operations == [p.Operation(true)]
    requires now.journal == p.Events() && now.runId == p.runId && now.ledger == Ledger(p.Limits(), p.UsageAt(8))
    requires Tied(p.Manifest(), now, s) && s.frames == p.AfterOpening().frames && s.terminal.None?
    ensures var op := p.Operation(true);
            var intent := IntentOf(now, op, 2, tokens, ProviderRequest, sha);
            && Reserve(now.ledger, op, tokens, 0).Ok?
            && InOrder(now.journal, op) && Authorized(p.Manifest(), s, intent.identity)
            && (R.StepEvent(p.Manifest(), s, OperationIntended(intent)).Ok? <==> 12_000_000 + tokens <= p.tokenLimit)
  {
    NextIsGranted(p, tokens);
    NextIsInOrder(p);
    RootIsOpen(p, s);
    NextIsAuthorized(p, s, IntentOf(now, p.Operation(true), 2, tokens, ProviderRequest, sha).identity);
    JournalTells(p, now, now.items[0]);
    IntentAccepted(p.Manifest(), now, s, 0, tokens, ProviderRequest, sha, 0);
  }
}
