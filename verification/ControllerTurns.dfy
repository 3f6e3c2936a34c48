/**
 * Controller operations against controller turns: whatever controller operation a journal knows was made for a turn
 * that the ledger reserved (src/runtime/frame.ts, src/runtime/provider.ts).
 */
module ControllerTurns {
  import opened Wrappers
  import opened Usage
  import opened Budget
  import opened Journal
  import opened Provider
  import opened LedgerConservation
  import opened LedgerCorrections
  import CheckpointRecovery
  import FoldAgreement
  import JournalLimits
  import LedgerAgreement
  import OperationOrder
  import R = RecoveryJournal

  // ----- Turns without a cell.

  function OpenTurns(items: seq<Item>): set<(FrameId, nat)> {
    if items == [] then {}
    else
      var last := items[|items| - 1];
      OpenTurns(items[..|items| - 1]) + (if Uncommitted(last) then {(last.frameId, last.iteration)} else {})
  }

  lemma {:induction false} OpenTurnsCounted(items: seq<Item>)
    ensures |OpenTurns(items)| <= Count(items, Uncommitted)
  {
    if items != [] { OpenTurnsCounted(items[..|items| - 1]); }
  }

  lemma {:induction false} OpenTurnListed(items: seq<Item>, k: nat)
    requires k < |items| && Uncommitted(items[k])
    ensures (items[k].frameId, items[k].iteration) in OpenTurns(items)
  {
    if k < |items| - 1 { OpenTurnListed(items[..|items| - 1], k); }
  }

  /** The operation belongs to a turn that has its cell, or to one that is open. */
  predicate Backed(cells: set<(FrameId, nat)>, open: set<(FrameId, nat)>, id: OperationId) {
    id.ControllerOperation? && ((id.frameId, id.iteration) in cells || (id.frameId, id.iteration) in open)
  }

  lemma {:induction false} BackedCounted(ids: set<OperationId>, turns: set<(FrameId, nat)>)
    requires forall id <- ids :: id.ControllerOperation? && (id.frameId, id.iteration) in turns
    ensures |ids| <= |turns|
  {
    if ids != {} {
      var id :| id in ids;
      BackedCounted(ids - {id}, turns - {(id.frameId, id.iteration)});
    }
  }

  lemma UnionSize<T>(a: set<T>, b: set<T>)
    ensures |a + b| <= |a| + |b|
  {
    assert a + b == a + (b - a) && a !! (b - a);
    assert b == (b - a) + (b * a);
  }

  // ----- Operations and attempts keep their turns.

  predicate AttemptTurned(items: seq<Item>, item: Item) {
    item.Attempt? && item.intent.identity.kind == ControllerKind ==>
      OwnTurn(items, item.intent.identity.frameId, item.intent.identity.operationId)
  }

  predicate OperationTurned(items: seq<Item>, op: Operation) {
    op.kind == ControllerKind ==> OwnTurn(items, op.frameId, op.operationId)
  }

  ghost predicate Turned(r: Run) {
    && (forall k {:trigger AttemptTurned(r.items, r.items[k])} | 0 <= k < |r.items| :: AttemptTurned(r.items, r.items[k]))
    && (forall k {:trigger OperationTurned(r.items, r.operations[k])} | 0 <= k < |r.operations| ::
          OperationTurned(r.items, r.operations[k]))
  }

  /** An item keeps its subject and an attempt its intent; an operation keeps what it is. */
  ghost predicate ItemsGrow(before: Run, after: Run) {
    && |before.items| <= |after.items|
    && (forall k | 0 <= k < |before.items| ::
          && LedgerAgreement.SameSubject(before.items[k], after.items[k])
          && (before.items[k].Attempt? ==> after.items[k].intent == before.items[k].intent))
  }

  lemma ApplyGrows(r: Run, a: Action)
    ensures ItemsGrow(r, Apply(r, a))
  {
  }

  lemma OwnTurnKept(before: Run, after: Run, f: FrameId, id: OperationId)
    requires ItemsGrow(before, after) && OwnTurn(before.items, f, id)
    ensures OwnTurn(after.items, f, id)
  {
    var k :| 0 <= k < |before.items| && before.items[k].Turn? && before.items[k].frameId == f
             && before.items[k].iteration == id.iteration;
    assert LedgerAgreement.SameSubject(before.items[k], after.items[k]);
  }

  /** An action adds one item at most, and an attempt only for an operation. */
  lemma ItemAdded(r: Run, a: Action)
    ensures var r' := Apply(r, a);
            && |r.items| <= |r'.items| <= |r.items| + 1
            && (|r'.items| > |r.items| && r'.items[|r.items|].Attempt? ==>
                  var i := r'.items[|r.items|].intent.identity;
                  && a.BeginAttempt? && a.operation < |r.operations|
                  && r.operations[a.operation].kind == i.kind && r.operations[a.operation].frameId == i.frameId
                  && r.operations[a.operation].operationId == i.operationId)
  {
  }

  predicate SameOperation(a: Operation, b: Operation) {
    a.kind == b.kind && a.frameId == b.frameId && a.operationId == b.operationId
  }

  /** It adds one operation at most, of a reserved turn if it is a controller's, and operations keep what they are. */
  lemma OperationAdded(r: Run, a: Action)
    ensures var r' := Apply(r, a);
            && |r.operations| <= |r'.operations| <= |r.operations| + 1
            && (forall k | 0 <= k < |r.operations| :: SameOperation(r.operations[k], r'.operations[k]))
            && (|r'.operations| > |r.operations| ==>
                  OperationTurned(r.items, r'.operations[|r.operations|]) && r'.items == r.items)
  {
  }

  lemma ApplyKeepsTurned(r: Run, a: Action)
    requires Turned(r)
    ensures Turned(Apply(r, a))
  {
    var r' := Apply(r, a);
    ApplyGrows(r, a);
    ItemAdded(r, a);
    OperationAdded(r, a);
    forall k | 0 <= k < |r'.operations| ensures OperationTurned(r'.items, r'.operations[k]) {
      if k < |r.operations| {
        assert OperationTurned(r.items, r.operations[k]) && SameOperation(r.operations[k], r'.operations[k]);
        if r.operations[k].kind == ControllerKind {
          OwnTurnKept(r, r', r.operations[k].frameId, r.operations[k].operationId);
        }
      }
    }
    forall k | 0 <= k < |r'.items| ensures AttemptTurned(r'.items, r'.items[k]) {
      if k < |r.items| {
        assert AttemptTurned(r.items, r.items[k]) && LedgerAgreement.SameSubject(r.items[k], r'.items[k]);
        if r.items[k].Attempt? && r.items[k].intent.identity.kind == ControllerKind {
          OwnTurnKept(r, r', r.items[k].intent.identity.frameId, r.items[k].intent.identity.operationId);
        }
      } else if r'.items[k].Attempt? {
        assert OperationTurned(r.items, r.operations[a.operation]);
        if r'.items[k].intent.identity.kind == ControllerKind {
          OwnTurnKept(r, r', r'.items[k].intent.identity.frameId, r'.items[k].intent.identity.operationId);
        }
      }
    }
  }

  lemma {:induction false} RunKeepsTurned(r: Run, actions: seq<Action>)
    requires Started(r)
    ensures Turned(ApplyAll(r, actions))
  {
    if actions != [] {
      RunKeepsTurned(r, actions[..|actions| - 1]);
      ApplyKeepsTurned(ApplyAll(r, actions[..|actions| - 1]), actions[|actions| - 1]);
    }
  }

  // ----- The books know no other controller operations.

  /** A run and its manifest agree from the start, on a journal that folds and whose controller operations have cells. */
  ghost predicate Launched(m: R.Manifest, r: Run, storedBytes: int) {
    && Resumed(r, storedBytes) && m.objective.Some? && m.runId == r.runId && m.limits == r.ledger.limits
    && R.Fold(m, r.journal).Ok?
    && var s := R.Fold(m, r.journal).value;
       forall id <- s.book.controllerOperations :: Backed(s.cells.Keys, {}, id)
  }

  ghost predicate BooksTurned(items: seq<Item>, s: R.FoldState) {
    forall id <- s.book.controllerOperations ::
      id.ControllerOperation? && ((id.frameId, id.iteration) in s.cells || TurnIn(items, id.frameId, id.iteration))
  }

  lemma StepControllers(m: R.Manifest, s: R.FoldState, e: Event)
    requires m.objective.Some? && R.StepEvent(m, s, e).Ok?
    ensures var s' := R.StepEvent(m, s, e).value;
            && s.cells.Keys <= s'.cells.Keys
            && s'.book.controllerOperations == s.book.controllerOperations +
                 (if e.OperationIntended? && e.intent.identity.kind == ControllerKind
                  then {e.intent.identity.operationId} else {})
  {
    if e.OperationIntended? {
      OperationOrder.IntendedStep(m, s, s.frames[e.intent.identity.frameId], e.intent);
    } else if e.OperationSettled? {
      var usage := OperationOrder.SettledStep(m, s, e.settlement);
    } else {
      OperationOrder.OtherEventsKeepBook(m, s, e);
    }
    CellsStay(m, s, e);
  }

  lemma CellsStay(m: R.Manifest, s: R.FoldState, e: Event)
    requires m.objective.Some? && R.StepEvent(m, s, e).Ok?
    ensures s.cells.Keys <= R.StepEvent(m, s, e).value.cells.Keys
  {
    if e.CellCommitted? { FoldAgreement.CellStep(m, s, s.frames[e.cell.frameId], e.cell); }
  }

  /** An action writes one event or none; it writes an intent only for its own attempt. */
  lemma ApplyWrites(r: Run, a: Action)
    ensures var r' := Apply(r, a);
            r'.journal == r.journal ||
            (|r'.journal| == |r.journal| + 1 && r'.journal[..|r.journal|] == r.journal
             && (r'.journal[|r.journal|].OperationIntended? ==>
                   && a.WriteIntent? && a.item < |r.items| && r.items[a.item].Attempt?
                   && r'.journal[|r.journal|].intent == r.items[a.item].intent))
  {
  }

  lemma BooksTurnedStep(m: R.Manifest, before: Run, after: Run, s: R.FoldState, e: Event)
    requires m.objective.Some? && BooksTurned(before.items, s) && ItemsGrow(before, after)
    requires R.StepEvent(m, s, e).Ok?
    requires e.OperationIntended? && e.intent.identity.kind == ControllerKind ==>
               OwnTurn(before.items, e.intent.identity.frameId, e.intent.identity.operationId)
    ensures BooksTurned(after.items, R.StepEvent(m, s, e).value)
  {
    StepControllers(m, s, e);
    var s' := R.StepEvent(m, s, e).value;
    forall id | id in s'.book.controllerOperations
      ensures id.ControllerOperation?
              && ((id.frameId, id.iteration) in s'.cells || TurnIn(after.items, id.frameId, id.iteration))
    {
      if TurnIn(before.items, id.frameId, id.iteration) { OwnTurnKept(before, after, id.frameId, id); }
    }
  }

  lemma BooksTurnedKept(before: Run, after: Run, s: R.FoldState)
    requires BooksTurned(before.items, s) && ItemsGrow(before, after)
    ensures BooksTurned(after.items, s)
  {
    forall id | id in s.book.controllerOperations
      ensures (id.frameId, id.iteration) in s.cells || TurnIn(after.items, id.frameId, id.iteration)
    {
      if TurnIn(before.items, id.frameId, id.iteration) { OwnTurnKept(before, after, id.frameId, id); }
    }
  }

  lemma FoldBefore(m: R.Manifest, before: Run, a: Action)
    requires m.objective.Some? && R.Fold(m, Apply(before, a).journal).Ok?
    ensures R.Fold(m, before.journal).Ok?
  {
    var after := Apply(before, a);
    ApplyWrites(before, a);
    if after.journal != before.journal {
      assert after.journal == before.journal + [after.journal[|before.journal|]];
      R.LastStep(m, before.journal, after.journal[|before.journal|]);
    }
  }

  lemma BooksTurnedAction(m: R.Manifest, before: Run, a: Action, s: R.FoldState)
    requires m.objective.Some? && R.Fold(m, before.journal) == Ok(s) && R.Fold(m, Apply(before, a).journal).Ok?
    requires BooksTurned(before.items, s) && Turned(before)
    ensures BooksTurned(Apply(before, a).items, R.Fold(m, Apply(before, a).journal).value)
  {
    var after := Apply(before, a);
    ApplyGrows(before, a);
    ApplyWrites(before, a);
    if after.journal == before.journal {
      BooksTurnedKept(before, after, s);
    } else {
      var e := after.journal[|before.journal|];
      assert after.journal == before.journal + [e];
      R.LastStep(m, before.journal, e);
      assert e.OperationIntended? ==> AttemptTurned(before.items, before.items[a.item]);
      BooksTurnedStep(m, before, after, s, e);
    }
  }

  lemma {:induction false} BooksTurnedAt(m: R.Manifest, r: Run, storedBytes: int, actions: seq<Action>)
    requires Launched(m, r, storedBytes) && R.Fold(m, ApplyAll(r, actions).journal).Ok?
    ensures BooksTurned(ApplyAll(r, actions).items, R.Fold(m, ApplyAll(r, actions).journal).value)
  {
    if actions != [] {
      var front, a := actions[..|actions| - 1], actions[|actions| - 1];
      FoldBefore(m, ApplyAll(r, front), a);
      BooksTurnedAt(m, r, storedBytes, front);
      RunKeepsTurned(r, front);
      BooksTurnedAction(m, ApplyAll(r, front), a, R.Fold(m, ApplyAll(r, front).journal).value);
    }
  }

  // ----- So the ledger's turns bound them.

  predicate SameTurns(before: Ledger, after: Ledger) {
    after.limits == before.limits && after.usage.controllerTurns == before.usage.controllerTurns
  }

  lemma AccountKeepsTurns(l: Ledger, tokens: nat, usage: CallUsage)
    ensures SameTurns(l, Account(l, tokens, usage).0)
  {
  }

  lemma EndKeepsTurns(r: Run, k: nat, outcome: Outcome, usage: CallUsage)
    requires k < |r.items|
    ensures SameTurns(r.ledger, DoExternalEnded(r, k, outcome, usage).ledger)
  {
    if r.items[k].Attempt? { AccountKeepsTurns(r.ledger, r.items[k].intent.identity.reservation.tokens, usage); }
  }

  lemma BeginKeepsTurns(r: Run, k: nat, tokens: nat, version: RequestVersion, sha: string, stopBefore: bool,
                        stopAfter: bool, now: int)
    requires k < |r.operations|
    ensures SameTurns(r.ledger, DoBeginAttempt(r, k, tokens, version, sha, stopBefore, stopAfter, now).ledger)
  {
  }

  lemma TurnStep(r: Run, a: Action)
    requires r.ledger.usage.controllerTurns <= r.ledger.limits.maxControllerTurns
    ensures var l := Apply(r, a).ledger; l.usage.controllerTurns <= l.limits.maxControllerTurns
  {
    match a {
      case BeginAttempt(k, tokens, version, sha, stopBefore, stopAfter, now) =>
        if k < |r.operations| { BeginKeepsTurns(r, k, tokens, version, sha, stopBefore, stopAfter, now); }
      case ExternalEnded(k, outcome, usage) => if k < |r.items| { EndKeepsTurns(r, k, outcome, usage); }
      case _ =>
    }
  }

  lemma {:induction false} TurnsWithin(r: Run, actions: seq<Action>)
    requires r.ledger.usage.controllerTurns <= r.ledger.limits.maxControllerTurns
    ensures var l := ApplyAll(r, actions).ledger; l.usage.controllerTurns <= l.limits.maxControllerTurns
  {
    if actions != [] {
      TurnsWithin(r, actions[..|actions| - 1]);
      TurnStep(ApplyAll(r, actions[..|actions| - 1]), actions[|actions| - 1]);
    }
  }

  lemma TurnsAtLaunch(m: R.Manifest, r: Run, storedBytes: int)
    requires Launched(m, r, storedBytes)
    ensures r.ledger.usage.controllerTurns <= m.limits.maxControllerTurns
  {
    JournalLimits.DerivedStateWithinManifest(m, r.journal, storedBytes);
  }

  /** Every controller operation, in the books or about to be, belongs to a committed cell or to an open turn. */
  ghost predicate TurnsTied(m: R.Manifest, now: Run, s: R.FoldState) {
    && |s.cells| + Count(now.items, Uncommitted) <= m.limits.maxControllerTurns
    && (forall id <- s.book.controllerOperations :: Backed(s.cells.Keys, OpenTurns(now.items), id))
    && (forall k {:trigger now.operations[k]} | 0 <= k < |now.operations| && now.operations[k].kind == ControllerKind ::
          Backed(s.cells.Keys, OpenTurns(now.items), now.operations[k].operationId))
  }

  /** So no further one exceeds the manifest's limit of controller operations. */
  lemma ControllersWithinLimit(m: R.Manifest, now: Run, s: R.FoldState, k: nat)
    requires TurnsTied(m, now, s) && k < |now.operations| && now.operations[k].kind == ControllerKind
    ensures |s.book.controllerOperations + {now.operations[k].operationId}| <= m.limits.maxControllerTurns
  {
    var open := OpenTurns(now.items);
    OpenTurnsCounted(now.items);
    BackedCounted(s.book.controllerOperations + {now.operations[k].operationId}, s.cells.Keys + open);
    UnionSize(s.cells.Keys, open);
  }

  lemma TurnKnown(runId: string, executions: map<Digest, nat>, d: CheckpointRecovery.Derived, items: seq<Item>, f: FrameId,
                  iteration: nat)
    requires LedgerAgreement.ItemsOk(runId, executions, d, items) && TurnIn(items, f, iteration)
    ensures (f, iteration) in d.progression.cells || (f, iteration) in OpenTurns(items)
  {
    var k :| 0 <= k < |items| && items[k].Turn? && items[k].frameId == f && items[k].iteration == iteration;
    assert LedgerAgreement.ItemOk(runId, executions, d, items[k]);
    if Uncommitted(items[k]) { OpenTurnListed(items, k); }
  }

  lemma BackedBooks(m: R.Manifest, now: Run, s: R.FoldState, d: CheckpointRecovery.Derived)
    requires LedgerAgreement.ItemsOk(now.runId, now.ordinals.executions, d, now.items) && d.progression.cells == s.cells.Keys
    requires BooksTurned(now.items, s) && Turned(now)
    requires |s.cells| + Count(now.items, Uncommitted) <= m.limits.maxControllerTurns
    ensures TurnsTied(m, now, s)
  {
    forall id | id in s.book.controllerOperations ensures Backed(s.cells.Keys, OpenTurns(now.items), id) {
      if (id.frameId, id.iteration) !in s.cells {
        TurnKnown(now.runId, now.ordinals.executions, d, now.items, id.frameId, id.iteration);
      }
    }
    forall k | 0 <= k < |now.operations| && now.operations[k].kind == ControllerKind
      ensures Backed(s.cells.Keys, OpenTurns(now.items), now.operations[k].operationId)
    {
      assert OperationTurned(now.items, now.operations[k]);
      var id := now.operations[k].operationId;
      TurnKnown(now.runId, now.ordinals.executions, d, now.items, id.frameId, id.iteration);
    }
  }

  lemma TurnsCounted(m: R.Manifest, r: Run, storedBytes: int, actions: seq<Action>)
    requires Launched(m, r, storedBytes) && R.Fold(m, ApplyAll(r, actions).journal).Ok?
    ensures var now := ApplyAll(r, actions);
            |R.Fold(m, now.journal).value.cells| + Count(now.items, Uncommitted) <= m.limits.maxControllerTurns
  {
    var now := ApplyAll(r, actions);
    RunIdKept(r, actions);
    RunKeepsLedger(r, actions);
    TurnsAtLaunch(m, r, storedBytes);
    TurnsWithin(r, actions);
    CountersExceedByUnjournaled(r, storedBytes, actions);
    JournalLimits.DerivedStateWithinManifest(m, now.journal, storedBytes);
  }

  lemma {:induction false} RunIdKept(r: Run, actions: seq<Action>)
    ensures ApplyAll(r, actions).runId == r.runId
  {
    if actions != [] { RunIdKept(r, actions[..|actions| - 1]); }
  }

  lemma TurnsTiedAt(m: R.Manifest, r: Run, storedBytes: int, actions: seq<Action>)
    requires Launched(m, r, storedBytes) && R.Fold(m, ApplyAll(r, actions).journal).Ok?
    ensures TurnsTied(m, ApplyAll(r, actions), R.Fold(m, ApplyAll(r, actions).journal).value)
  {
    var now := ApplyAll(r, actions);
    RunIdKept(r, actions);
    var d := RunKeepsJournal(r, storedBytes, actions);
    FoldAgreement.DerivedStateAgrees(m, now.journal, storedBytes);
    BooksTurnedAt(m, r, storedBytes, actions);
    RunKeepsTurned(r, actions);
    TurnsCounted(m, r, storedBytes, actions);
    BackedBooks(m, now, R.Fold(m, now.journal).value, d);
  }

  // ----- A run resumed from a checkpoint starts the same way.

  lemma NoOpenTurns(items: seq<Item>)
    requires Count(items, Uncommitted) == 0
    ensures OpenTurns(items) == {}
  {
    OpenTurnsCounted(items);
  }

  /**
   * Recovery takes a checkpoint only if its ledger is the one the journal tells of. Then every turn had its cell, so the
   * controller operations of the resumed run's journal have theirs.
   */
  lemma CheckpointLaunches(m: R.Manifest, r: Run, storedBytes: int, actions: seq<Action>, next: Run, nextBytes: int)
    requires Launched(m, r, storedBytes) && R.Fold(m, ApplyAll(r, actions).journal).Ok?
    requires Resumed(next, nextBytes) && next.runId == m.runId && next.ledger.limits == m.limits
    requires next.journal == ApplyAll(r, actions).journal
    requires next.ledger.usage.controllerTurns == ApplyAll(r, actions).ledger.usage.controllerTurns
    ensures Launched(m, next, nextBytes)
  {
    var now := ApplyAll(r, actions);
    RunIdKept(r, actions);
    CountersExceedByUnjournaled(r, storedBytes, actions);
    JournalLimits.DerivedStateWithinManifest(m, now.journal, storedBytes);
    JournalLimits.DerivedStateWithinManifest(m, now.journal, nextBytes);
    TurnsTiedAt(m, r, storedBytes, actions);
    NoOpenTurns(now.items);
  }
}
