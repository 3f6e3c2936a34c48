/**
 * Whole runs of the write-ahead protocol whose journal the strict fold accepts at every moment
 * (src/runtime/provider.ts, src/runtime/frame.ts against src/runtime/run-recovery-journal.ts).
 */
module LawfulRuns {
  import opened Wrappers
  import opened Usage
  import opened Journal
  import opened Provider
  import opened LedgerCorrections
  import opened ControllerTurns
  import opened JournalAcceptance
  import CrashCut
  import FoldAgreement
  import JournalLimits
  import LedgerAgreement
  import OperationOrder
  import R = RecoveryJournal

  // ----- Writes under way.

  /** An event handed to the journal and not yet durable. */
  predicate Pending(item: Item) {
    match item
    case Attempt(_, _, phase, _, intended, settled, _, _) =>
      (phase.AwaitIntent? && !intended) || (phase.AwaitSettlement? && settled.None?)
    case Child(_, journaled) => !journaled
    case Turn(_, _, _) => false
  }

  predicate NonePending(items: seq<Item>) { forall k | 0 <= k < |items| :: !Pending(items[k]) }

  function PendingEvent(runId: string, item: Item, code: Option<string>): Event
    requires Pending(item)
  {
    if item.Child? then FrameOpened(item.opening)
    else if item.phase.AwaitIntent? then OperationIntended(item.intent)
    else
      OperationSettled(Settlement(
        runId, item.intent.identity.frameId, item.intent.intentId, item.phase.outcome, item.phase.usage, code))
  }

  /** The strict fold accepts the event once it is written. */
  ghost predicate Writable(m: R.Manifest, s: R.FoldState, runId: string, item: Item)
    requires m.objective.Some?
  {
    Pending(item) ==>
      forall code {:trigger PendingEvent(runId, item, code)} :: R.StepEvent(m, s, PendingEvent(runId, item, code)).Ok?
  }

  // ----- What the books know of the attempts.

  ghost predicate Booked(item: Item, book: R.Book) {
    item.Attempt? && item.intended ==>
      && item.intent.intentId in book.intents && book.intents[item.intent.intentId] == item.intent
      && (item.settled.None? <==> item.intent.intentId !in book.settlements)
  }

  predicate OtherIntent(a: Item, b: Item) {
    a.Attempt? && a.intended && b.Attempt? && b.intended ==> a.intent.intentId != b.intent.intentId
  }

  /** An attempt with its intent written and its settlement not. */
  predicate Outstanding(item: Item) { item.Attempt? && item.intended && item.settled.None? }

  ghost predicate Stands(items: seq<Item>, id: IntentId) {
    exists k :: 0 <= k < |items| && Outstanding(items[k]) && items[k].intent.intentId == id
  }

  /** The books list every intended attempt, and what they list as unsettled is such an attempt. */
  ghost predicate BooksMatch(items: seq<Item>, book: R.Book) {
    && (forall k {:trigger Booked(items[k], book)} | 0 <= k < |items| :: Booked(items[k], book))
    && (forall j, k {:trigger OtherIntent(items[j], items[k])} | 0 <= j < k < |items| :: OtherIntent(items[j], items[k]))
    && (forall id {:trigger Stands(items, id)} | id in book.intents && id !in book.settlements :: Stands(items, id))
  }

  /** The journal folds, one write at most is under way, and it will be accepted. */
  ghost predicate Accepting(m: R.Manifest, r: Run, s: R.FoldState)
    requires m.objective.Some?
  {
    && R.Fold(m, r.journal) == Ok(s) && r.runId == m.runId
    && (forall k {:trigger Writable(m, s, r.runId, r.items[k])} | 0 <= k < |r.items| :: Writable(m, s, r.runId, r.items[k]))
    && (forall j, k | 0 <= j < k < |r.items| :: !(Pending(r.items[j]) && Pending(r.items[k])))
    && BooksMatch(r.items, s.book)
  }

  // ----- Lawful actions.

  /**
   * Events reach the journal in the order in which they are handed to it, so nothing else is written while a write is
   * under way. An attempt begins when the journal has room for its tokens, its operation continues where the journal
   * stands and the journal authorizes it. Usages are plausible, frames that things happen in are open, keys are bound
   * once, and other events that reserve nothing are acceptable by themselves. Stops and failures are always lawful.
   */
  ghost predicate Lawful(m: R.Manifest, r: Run, s: R.FoldState, a: Action)
    requires m.objective.Some?
  {
    Apply(r, a) == r ||
    match a
    case BeginAttempt(k, tokens, version, sha, stopBefore, stopAfter, time) =>
      stopAfter ||
      (k < |r.operations| && tokens <= MAX_CALL_TOKENS && NonePending(r.items) && RoomInJournal(r, tokens)
       && Authorized(m, s, IntentOf(r, r.operations[k], r.operations[k].ordinal + 1, tokens, version, sha).identity)
       && InOrder(r.journal, r.operations[k]))
    case ExternalEnded(k, outcome, usage) =>
      r.authority && k < |r.items| && r.items[k].Attempt? ==>
        && NonePending(r.items) && FrameOpen(s, r.items[k].intent.identity.frameId)
        && SettlementFits(s, r.items[k].intent.intentId, usage)
    case ReserveChild(parent, depth, digest, objective, time) =>
      NonePending(r.items) && FrameOpen(s, parent) && depth == s.frames[parent].opening.depth
    case CommitCell(k, cell) => NonePending(r.items) && CellFits(s, cell)
    case OtherEvent(e) =>
      && NonePending(r.items)
      && (if e.KeyBound? then FrameOpen(s, e.binding.frameId) && Unbound(m.runId, r.journal, e.binding)
          else R.StepEvent(m, s, e).Ok?)
    case _ => true
  }

  // ----- Books, step by step.

  lemma BooksAppend(items: seq<Item>, item: Item, book: R.Book)
    requires BooksMatch(items, book) && (item.Attempt? ==> !item.intended)
    ensures BooksMatch(items + [item], book)
  {
    var items' := items + [item];
    forall k | 0 <= k < |items'| ensures Booked(items'[k], book) { if k < |items| { assert Booked(items[k], book); } }
    forall j, k | 0 <= j < k < |items'| ensures OtherIntent(items'[j], items'[k]) {
      if k < |items| { assert OtherIntent(items[j], items[k]); }
    }
    forall id | id in book.intents && id !in book.settlements ensures Stands(items', id) {
      assert Stands(items, id);
      var k :| 0 <= k < |items| && Outstanding(items[k]) && items[k].intent.intentId == id;
      assert items'[k] == items[k];
    }
  }

  /** The change is none that the journal tells of. */
  predicate SameBooking(a: Item, b: Item) {
    if a.Attempt? && b.Attempt? then b.intent == a.intent && b.intended == a.intended && b.settled == a.settled
    else !a.Attempt? && !b.Attempt?
  }

  lemma BooksSame(items: seq<Item>, k: nat, item: Item, book: R.Book)
    requires BooksMatch(items, book) && k < |items| && SameBooking(items[k], item)
    ensures BooksMatch(items[k := item], book)
  {
    var items' := items[k := item];
    forall j | 0 <= j < |items'| ensures Booked(items'[j], book) { assert Booked(items[j], book); }
    forall i, j | 0 <= i < j < |items'| ensures OtherIntent(items'[i], items'[j]) { assert OtherIntent(items[i], items[j]); }
    forall id | id in book.intents && id !in book.settlements ensures Stands(items', id) {
      assert Stands(items, id);
      var j :| 0 <= j < |items| && Outstanding(items[j]) && items[j].intent.intentId == id;
      assert Outstanding(items'[j]) && items'[j].intent.intentId == id;
    }
  }

  lemma BooksIntend(items: seq<Item>, k: nat, book: R.Book, book': R.Book)
    requires BooksMatch(items, book) && k < |items| && items[k].Attempt? && !items[k].intended && items[k].settled.None?
    requires items[k].intent.intentId !in book.intents && book.settlements.Keys <= book.intents.Keys
    requires book'.intents == book.intents[items[k].intent.intentId := items[k].intent]
    requires book'.settlements == book.settlements
    ensures BooksMatch(items[k := items[k].(intended := true)], book')
  {
    var items' := items[k := items[k].(intended := true)];
    forall j | 0 <= j < |items'| ensures Booked(items'[j], book') { assert Booked(items[j], book); }
    forall i, j | 0 <= i < j < |items'| ensures OtherIntent(items'[i], items'[j]) {
      assert OtherIntent(items[i], items[j]) && Booked(items[i], book) && Booked(items[j], book);
    }
    forall id | id in book'.intents && id !in book'.settlements ensures Stands(items', id) {
      if id == items[k].intent.intentId {
        assert Outstanding(items'[k]);
      } else {
        assert Stands(items, id);
        var j :| 0 <= j < |items| && Outstanding(items[j]) && items[j].intent.intentId == id;
        assert items'[j] == items[j];
      }
    }
  }

  lemma BooksSettle(items: seq<Item>, k: nat, usage: CallUsage, book: R.Book, book': R.Book, e: Settlement)
    requires BooksMatch(items, book) && k < |items| && Outstanding(items[k]) && e.intentId == items[k].intent.intentId
    requires book'.intents == book.intents && book'.settlements == book.settlements[e.intentId := e]
    ensures BooksMatch(items[k := items[k].(settled := Some(usage))], book')
  {
    var items' := items[k := items[k].(settled := Some(usage))];
    forall j | 0 <= j < |items'| ensures Booked(items'[j], book') {
      assert Booked(items[j], book);
      if j < k { assert OtherIntent(items[j], items[k]); } else if k < j { assert OtherIntent(items[k], items[j]); }
    }
    forall i, j | 0 <= i < j < |items'| ensures OtherIntent(items'[i], items'[j]) { assert OtherIntent(items[i], items[j]); }
    forall id | id in book'.intents && id !in book'.settlements ensures Stands(items', id) {
      assert Stands(items, id);
      var j :| 0 <= j < |items| && Outstanding(items[j]) && items[j].intent.intentId == id;
      assert items'[j] == items[j];
    }
  }

  // ----- Actions that write nothing.

  lemma QuietChange(m: R.Manifest, r: Run, r': Run, s: R.FoldState, k: nat)
    requires m.objective.Some? && Accepting(m, r, s) && k < |r.items| == |r'.items|
    requires r'.journal == r.journal && r'.runId == r.runId && r'.items == r.items[k := r'.items[k]]
    requires SameBooking(r.items[k], r'.items[k])
    requires Pending(r'.items[k]) ==> NonePending(r.items) && Writable(m, s, r.runId, r'.items[k])
    ensures Accepting(m, r', s)
  {
    BooksSame(r.items, k, r'.items[k], s.book);
    forall j | 0 <= j < |r'.items| ensures Writable(m, s, r'.runId, r'.items[j]) {
      assert Writable(m, s, r.runId, r.items[j]);
    }
  }

  lemma QuietAppend(m: R.Manifest, r: Run, r': Run, s: R.FoldState, item: Item)
    requires m.objective.Some? && Accepting(m, r, s)
    requires r'.journal == r.journal && r'.runId == r.runId && r'.items == r.items + [item]
    requires item.Attempt? ==> !item.intended
    requires Pending(item) ==> NonePending(r.items) && Writable(m, s, r.runId, item)
    ensures Accepting(m, r', s)
  {
    BooksAppend(r.items, item, s.book);
    forall j | 0 <= j < |r'.items| ensures Writable(m, s, r'.runId, r'.items[j]) {
      if j < |r.items| { assert Writable(m, s, r.runId, r.items[j]); }
    }
  }

  lemma BegunItem(r: Run, a: Action)
    requires a.BeginAttempt? && Apply(r, a) != r
    ensures a.operation < |r.operations| && a.tokens <= MAX_CALL_TOKENS
    ensures Reserve(r.ledger, r.operations[a.operation], a.tokens, a.now).Ok?
    ensures var r', op := Apply(r, a), r.operations[a.operation];
            && r'.journal == r.journal && r'.runId == r.runId && |r'.items| == |r.items| + 1
            && var item := r'.items[|r.items|];
               && r'.items == r.items + [item] && item.Attempt? && !item.intended
               && (Pending(item) ==> !a.stopAfter && item.phase.AwaitIntent?)
               && item.intent == IntentOf(r, op, op.ordinal + 1, a.tokens, a.version, a.requestSha256)
  {
  }

  lemma IntentIsWritable(m: R.Manifest, s: R.FoldState, runId: string, item: Item)
    requires m.objective.Some? && Pending(item) && item.Attempt? && item.phase.AwaitIntent?
    requires R.StepEvent(m, s, OperationIntended(item.intent)).Ok?
    ensures Writable(m, s, runId, item)
  {
    assert forall code :: PendingEvent(runId, item, code) == OperationIntended(item.intent);
  }

  lemma BegunIsWritable(m: R.Manifest, r: Run, s: R.FoldState, a: Action, item: Item)
    requires m.objective.Some? && Tied(m, r, s) && a.BeginAttempt? && a.operation < |r.operations|
    requires a.tokens <= MAX_CALL_TOKENS && RoomInJournal(r, a.tokens)
    requires Reserve(r.ledger, r.operations[a.operation], a.tokens, a.now).Ok? && InOrder(r.journal, r.operations[a.operation])
    requires Pending(item) && item.Attempt? && item.phase.AwaitIntent?
    requires var op := r.operations[a.operation];
             item.intent == IntentOf(r, op, op.ordinal + 1, a.tokens, a.version, a.requestSha256)
    requires Authorized(m, s, item.intent.identity)
    ensures Writable(m, s, r.runId, item)
  {
    IntentAccepted(m, r, s, a.operation, a.tokens, a.version, a.requestSha256, a.now);
    IntentIsWritable(m, s, r.runId, item);
  }

  lemma BeginKeepsAccepting(m: R.Manifest, r: Run, s: R.FoldState, a: Action)
    requires m.objective.Some? && Accepting(m, r, s) && Tied(m, r, s) && a.BeginAttempt? && Lawful(m, r, s, a)
    ensures Accepting(m, Apply(r, a), s)
  {
    var r' := Apply(r, a);
    if r' != r {
      BegunItem(r, a);
      var item := r'.items[|r.items|];
      if Pending(item) { BegunIsWritable(m, r, s, a, item); }
      QuietAppend(m, r, r', s, item);
    }
  }

  lemma EndKeepsAccepting(m: R.Manifest, r: Run, s: R.FoldState, a: Action)
    requires m.objective.Some? && Accepting(m, r, s) && Tied(m, r, s) && a.ExternalEnded? && Lawful(m, r, s, a)
    requires a.item < |r.items| ==> LedgerAgreement.ShapeOk(r.items[a.item])
    ensures Accepting(m, Apply(r, a), s)
  {
    var r' := Apply(r, a);
    if r' != r {
      var item := r'.items[a.item];
      if Pending(item) {
        assert Booked(r.items[a.item], s.book);
        forall code {:trigger PendingEvent(r.runId, item, code)}
          ensures R.StepEvent(m, s, PendingEvent(r.runId, item, code)).Ok?
        {
          SettlementAccepted(m, r.journal, s, PendingEvent(r.runId, item, code).settlement);
        }
      }
      QuietChange(m, r, r', s, a.item);
    }
  }

  lemma ReserveChildKeepsAccepting(m: R.Manifest, r: Run, s: R.FoldState, a: Action)
    requires m.objective.Some? && Accepting(m, r, s) && Tied(m, r, s) && a.ReserveChild? && Lawful(m, r, s, a)
    ensures Accepting(m, Apply(r, a), s)
  {
    var r' := Apply(r, a);
    if r' != r {
      OpeningAccepted(m, r, s, a.parent, a.depth, a.digest, a.objective, a.now);
      var item := r'.items[|r.items|];
      assert forall code :: PendingEvent(r.runId, item, code) == FrameOpened(item.opening);
      QuietAppend(m, r, r', s, item);
    }
  }

  /** Acknowledgements, failures and resolutions end a write or none. */
  lemma QuietItemAction(m: R.Manifest, r: Run, s: R.FoldState, a: Action)
    requires m.objective.Some? && Accepting(m, r, s)
    requires a.IntentAcknowledged? || a.IntentFailed? || a.SettlementResolved?
    ensures Accepting(m, Apply(r, a), s)
  {
    if Apply(r, a) != r { QuietChange(m, r, Apply(r, a), s, a.item); }
  }

  lemma ReserveTurnKeepsAccepting(m: R.Manifest, r: Run, s: R.FoldState, a: Action)
    requires m.objective.Some? && Accepting(m, r, s) && a.ReserveTurn?
    ensures Accepting(m, Apply(r, a), s)
  {
    var r' := Apply(r, a);
    if r' != r { QuietAppend(m, r, r', s, Turn(a.frameId, a.iteration, false)); }
  }

  // ----- Actions that write one event.

  lemma Written(m: R.Manifest, r: Run, r': Run, s: R.FoldState, s': R.FoldState, e: Event)
    requires m.objective.Some? && Accepting(m, r, s) && R.StepEvent(m, s, e) == Ok(s')
    requires r'.journal == r.journal + [e] && r'.runId == r.runId
    requires NonePending(r'.items) && BooksMatch(r'.items, s'.book)
    ensures Accepting(m, r', s')
  {
    assert r'.journal[..|r'.journal| - 1] == r.journal;
    forall j | 0 <= j < |r'.items| ensures Writable(m, s', r'.runId, r'.items[j]) {}
  }

  lemma WriteIntentKeepsAccepting(m: R.Manifest, r: Run, s: R.FoldState, a: Action) returns (s': R.FoldState)
    requires m.objective.Some? && Accepting(m, r, s) && Tied(m, r, s) && a.WriteIntent?
    requires a.item < |r.items| ==> LedgerAgreement.ShapeOk(r.items[a.item])
    ensures Accepting(m, Apply(r, a), s')
  {
    s' := s;
    var r' := Apply(r, a);
    if r' != r {
      var item := r.items[a.item];
      assert Writable(m, s, r.runId, item);
      assert PendingEvent(r.runId, item, None) == OperationIntended(item.intent);
      s' := R.StepEvent(m, s, OperationIntended(item.intent)).value;
      IntentBooks(m, s, item.intent);
      BooksIntend(r.items, a.item, s.book, s'.book);
      Written(m, r, r', s, s', OperationIntended(item.intent));
    }
  }

  lemma IntentBooks(m: R.Manifest, s: R.FoldState, intent: Intent)
    requires m.objective.Some? && R.StepEvent(m, s, OperationIntended(intent)).Ok?
    ensures var book := R.StepEvent(m, s, OperationIntended(intent)).value.book;
            && intent.intentId !in s.book.intents
            && book.intents == s.book.intents[intent.intentId := intent] && book.settlements == s.book.settlements
  {
    OperationOrder.IntendedStep(m, s, s.frames[intent.identity.frameId], intent);
  }

  lemma WriteSettlementKeepsAccepting(m: R.Manifest, r: Run, s: R.FoldState, a: Action) returns (s': R.FoldState)
    requires m.objective.Some? && Accepting(m, r, s) && a.WriteSettlement?
    requires a.item < |r.items| ==> LedgerAgreement.ShapeOk(r.items[a.item])
    ensures Accepting(m, Apply(r, a), s')
  {
    s' := s;
    var r' := Apply(r, a);
    if r' != r {
      var item := r.items[a.item];
      assert Writable(m, s, r.runId, item);
      var e := PendingEvent(r.runId, item, a.errorCode);
      s' := R.StepEvent(m, s, e).value;
      SettlementBooks(m, s, e.settlement);
      BooksSettle(r.items, a.item, item.phase.usage, s.book, s'.book, e.settlement);
      Written(m, r, r', s, s', e);
    }
  }

  lemma SettlementBooks(m: R.Manifest, s: R.FoldState, e: Settlement)
    requires m.objective.Some? && R.StepEvent(m, s, OperationSettled(e)).Ok?
    ensures var book := R.StepEvent(m, s, OperationSettled(e)).value.book;
            book.intents == s.book.intents && book.settlements == s.book.settlements[e.intentId := e]
  {
    var usage := OperationOrder.SettledStep(m, s, e);
  }

  lemma WriteChildKeepsAccepting(m: R.Manifest, r: Run, s: R.FoldState, a: Action) returns (s': R.FoldState)
    requires m.objective.Some? && Accepting(m, r, s) && a.WriteChild?
    ensures Accepting(m, Apply(r, a), s')
  {
    s' := s;
    var r' := Apply(r, a);
    if r' != r {
      var item := r.items[a.item];
      assert Writable(m, s, r.runId, item);
      var e := PendingEvent(r.runId, item, None);
      s' := R.StepEvent(m, s, e).value;
      OperationOrder.OtherEventsKeepBook(m, s, e);
      BooksSame(r.items, a.item, r'.items[a.item], s.book);
      Written(m, r, r', s, s', e);
    }
  }

  lemma CommittedTurn(r: Run, a: Action)
    requires a.CommitCell? && Apply(r, a) != r
    ensures a.item < |r.items| && r.items[a.item] == Turn(a.cell.frameId, a.cell.iteration, false)
    ensures var r' := Apply(r, a);
            && r'.journal == r.journal + [CellCommitted(a.cell)] && r'.runId == r.runId
            && r'.items == r.items[a.item := Turn(a.cell.frameId, a.cell.iteration, true)]
  {
  }

  lemma CommitCellKeepsAccepting(m: R.Manifest, r: Run, s: R.FoldState, a: Action) returns (s': R.FoldState)
    requires m.objective.Some? && Accepting(m, r, s) && Tied(m, r, s) && a.CommitCell? && Lawful(m, r, s, a)
    requires CrashCut.RegistryOk(s) && |s.cells| == s.totals.committedControllerTurns
    requires a.item < |r.items| && Uncommitted(r.items[a.item]) ==>
               (r.items[a.item].frameId, r.items[a.item].iteration) !in s.cells
    ensures Accepting(m, Apply(r, a), s')
  {
    s' := s;
    if Apply(r, a) != r {
      CommittedTurn(r, a);
      CellAccepted(m, r, s, a.item, a.cell);
      s' := CellKeepsAccepting(m, r, Apply(r, a), s, a.item, a.cell);
    }
  }

  lemma CellKeepsAccepting(m: R.Manifest, r: Run, r': Run, s: R.FoldState, k: nat, cell: Cell) returns (s': R.FoldState)
    requires m.objective.Some? && Accepting(m, r, s) && NonePending(r.items) && k < |r.items| && r.items[k].Turn?
    requires r'.journal == r.journal + [CellCommitted(cell)] && r'.runId == r.runId
    requires r'.items == r.items[k := Turn(cell.frameId, cell.iteration, true)]
    requires R.StepEvent(m, s, CellCommitted(cell)).Ok?
    ensures Accepting(m, r', s')
  {
    s' := R.StepEvent(m, s, CellCommitted(cell)).value;
    OperationOrder.OtherEventsKeepBook(m, s, CellCommitted(cell));
    BooksSame(r.items, k, r'.items[k], s.book);
    Written(m, r, r', s, s', CellCommitted(cell));
  }

  lemma OtherEventKeepsAccepting(m: R.Manifest, r: Run, s: R.FoldState, a: Action) returns (s': R.FoldState)
    requires m.objective.Some? && Accepting(m, r, s) && Tied(m, r, s) && a.OtherEvent? && Lawful(m, r, s, a)
    ensures Accepting(m, Apply(r, a), s')
  {
    s' := s;
    if Apply(r, a) != r {
      if a.event.KeyBound? { BindingAccepted(m, r, s, a.event.binding); }
      s' := R.StepEvent(m, s, a.event).value;
      OperationOrder.OtherEventsKeepBook(m, s, a.event);
      Written(m, r, Apply(r, a), s, s', a.event);
    }
  }

  // ----- Whole runs.

  ghost predicate Context(m: R.Manifest, now: Run, s: R.FoldState) {
    && Tied(m, now, s) && CrashCut.RegistryOk(s) && |s.cells| == s.totals.committedControllerTurns
    && (forall k {:trigger LedgerAgreement.ShapeOk(now.items[k])} | 0 <= k < |now.items| ::
          LedgerAgreement.ShapeOk(now.items[k]))
    && (forall k {:trigger Uncommitted(now.items[k])} | 0 <= k < |now.items| && Uncommitted(now.items[k]) ::
          (now.items[k].frameId, now.items[k].iteration) !in s.cells)
  }

  lemma ItemsInContext(m: R.Manifest, r: Run, storedBytes: int, actions: seq<Action>)
    requires Launched(m, r, storedBytes) && R.Fold(m, ApplyAll(r, actions).journal).Ok?
    ensures var now := ApplyAll(r, actions);
            var s := R.Fold(m, now.journal).value;
            && (forall k {:trigger LedgerAgreement.ShapeOk(now.items[k])} | 0 <= k < |now.items| ::
                  LedgerAgreement.ShapeOk(now.items[k]))
            && (forall k {:trigger Uncommitted(now.items[k])} | 0 <= k < |now.items| && Uncommitted(now.items[k]) ::
                  (now.items[k].frameId, now.items[k].iteration) !in s.cells)
  {
    var now := ApplyAll(r, actions);
    var s := R.Fold(m, now.journal).value;
    RunIdKept(r, actions);
    var d := RunKeepsJournal(r, storedBytes, actions);
    FoldAgreement.DerivedStateAgrees(m, now.journal, storedBytes);
    forall k | 0 <= k < |now.items| && Uncommitted(now.items[k])
      ensures (now.items[k].frameId, now.items[k].iteration) !in s.cells
    {
      assert LedgerAgreement.ItemOk(now.runId, now.ordinals.executions, d, now.items[k]);
    }
  }

  lemma ContextAt(m: R.Manifest, r: Run, storedBytes: int, actions: seq<Action>)
    requires Launched(m, r, storedBytes) && R.Fold(m, ApplyAll(r, actions).journal).Ok?
    ensures Context(m, ApplyAll(r, actions), R.Fold(m, ApplyAll(r, actions).journal).value)
  {
    var now := ApplyAll(r, actions);
    TiedAt(m, r, storedBytes, actions);
    ItemsInContext(m, r, storedBytes, actions);
    CrashCut.FoldKeepsContent(m, now.journal);
    JournalLimits.FoldKeepsCounters(m, now.journal);
  }

  predicate Writes(a: Action) {
    a.WriteIntent? || a.WriteSettlement? || a.WriteChild? || a.CommitCell? || a.OtherEvent?
  }

  lemma QuietStepKeepsAccepting(m: R.Manifest, now: Run, s: R.FoldState, a: Action)
    requires m.objective.Some? && Accepting(m, now, s) && Context(m, now, s) && Lawful(m, now, s, a) && !Writes(a)
    ensures Accepting(m, Apply(now, a), s)
  {
    match a {
      case StartOperation(_, _, _, _) =>
      case CloseAuthority =>
      case BeginAttempt(_, _, _, _, _, _, _) => BeginKeepsAccepting(m, now, s, a);
      case ExternalEnded(_, _, _) => EndKeepsAccepting(m, now, s, a);
      case ReserveChild(_, _, _, _, _) => ReserveChildKeepsAccepting(m, now, s, a);
      case ReserveTurn(_, _, _) => ReserveTurnKeepsAccepting(m, now, s, a);
      case _ => QuietItemAction(m, now, s, a);
    }
  }

  lemma WriteKeepsAccepting(m: R.Manifest, now: Run, s: R.FoldState, a: Action) returns (s': R.FoldState)
    requires m.objective.Some? && Accepting(m, now, s) && Context(m, now, s) && Lawful(m, now, s, a) && Writes(a)
    ensures Accepting(m, Apply(now, a), s')
  {
    if a.WriteIntent? {
      s' := WriteIntentKeepsAccepting(m, now, s, a);
    } else if a.WriteSettlement? {
      s' := WriteSettlementKeepsAccepting(m, now, s, a);
    } else if a.WriteChild? {
      s' := WriteChildKeepsAccepting(m, now, s, a);
    } else if a.CommitCell? {
      s' := CommitCellKeepsAccepting(m, now, s, a);
    } else {
      s' := OtherEventKeepsAccepting(m, now, s, a);
    }
  }

  lemma StepKeepsAccepting(m: R.Manifest, now: Run, s: R.FoldState, a: Action) returns (s': R.FoldState)
    requires m.objective.Some? && Accepting(m, now, s) && Context(m, now, s) && Lawful(m, now, s, a)
    ensures Accepting(m, Apply(now, a), s')
  {
    s' := s;
    if Writes(a) { s' := WriteKeepsAccepting(m, now, s, a); } else { QuietStepKeepsAccepting(m, now, s, a); }
  }

  /** Every action was lawful when it was taken. */
  ghost predicate LawfulRun(m: R.Manifest, r: Run, actions: seq<Action>)
    requires m.objective.Some?
  {
    actions != [] ==>
      var front := actions[..|actions| - 1];
      var now := ApplyAll(r, front);
      && LawfulRun(m, r, front)
      && (R.Fold(m, now.journal).Ok? ==> Lawful(m, now, R.Fold(m, now.journal).value, actions[|actions| - 1]))
  }

  lemma {:induction false} RunKeepsAccepting(m: R.Manifest, r: Run, storedBytes: int, actions: seq<Action>)
    returns (s: R.FoldState)
    requires Launched(m, r, storedBytes) && LawfulRun(m, r, actions)
    requires !R.Unresolved(R.Fold(m, r.journal).value)
    ensures Accepting(m, ApplyAll(r, actions), s)
  {
    if actions == [] {
      s := R.Fold(m, r.journal).value;
    } else {
      var front := actions[..|actions| - 1];
      s := RunKeepsAccepting(m, r, storedBytes, front);
      ContextAt(m, r, storedBytes, front);
      s := StepKeepsAccepting(m, ApplyAll(r, front), s, actions[|actions| - 1]);
    }
  }

  lemma UnresolvedIsOutstanding(items: seq<Item>, s: R.FoldState)
    requires BooksMatch(items, s.book)
    ensures R.Unresolved(s) <==> exists k :: 0 <= k < |items| && Outstanding(items[k])
  {
    if id :| id in s.book.intents && id !in s.book.settlements { assert Stands(items, id); }
    if k :| 0 <= k < |items| && Outstanding(items[k]) { assert Booked(items[k], s.book); }
  }

  /**
   * The journal of a lawful run is one that the strict fold accepts, at every moment of every interleaving, and what the
   * fold holds unresolved is exactly the attempts whose settlement is not written.
   */
  lemma LawfulJournalFolds(m: R.Manifest, r: Run, storedBytes: int, actions: seq<Action>)
    requires Launched(m, r, storedBytes) && LawfulRun(m, r, actions)
    requires !R.Unresolved(R.Fold(m, r.journal).value)
    ensures var now := ApplyAll(r, actions);
            && R.Fold(m, now.journal).Ok?
            && (R.Unresolved(R.Fold(m, now.journal).value)
                <==> exists k :: 0 <= k < |now.items| && Outstanding(now.items[k]))
  {
    var s := RunKeepsAccepting(m, r, storedBytes, actions);
    UnresolvedIsOutstanding(ApplyAll(r, actions).items, s);
  }

  /** Every cell has its workspace and its answer. */
  predicate FramesComplete(s: R.FoldState) {
    forall f <- s.frames :: R.CellsComplete(s.frames[f]) && R.WorkspacesPlaced(s.frames[f], s.terminal.Some?)
  }

  /**
   * So recovery never finds a lawful, unfinished run corrupt: once every cell has its workspace and answer, the journal
   * is accepted if no attempt is outstanding, and ambiguous if one is.
   */
  lemma LawfulJournalRecovers(m: R.Manifest, r: Run, storedBytes: int, actions: seq<Action>, start: Event)
    requires Launched(m, r, storedBytes) && LawfulRun(m, r, actions)
    requires !R.Unresolved(R.Fold(m, r.journal).value)
    requires R.CheckStart(m, [start] + ApplyAll(r, actions).journal).Ok?
    requires var fold := R.Fold(m, ApplyAll(r, actions).journal);
             fold.Ok? ==> FramesComplete(fold.value) && fold.value.terminal.None?
    ensures var now := ApplyAll(r, actions);
            var verdict := R.Validate(m, [start] + now.journal);
            if exists k :: 0 <= k < |now.items| && Outstanding(now.items[k]) then verdict == Err(R.Ambiguous)
            else verdict.Ok?
  {
    var journal := ApplyAll(r, actions).journal;
    LawfulJournalFolds(m, r, storedBytes, actions);
    assert ([start] + journal)[1..] == journal;
    OperationOrder.ReservationsAreOutstanding(m, journal);
    FinishVerdict(m, R.Fold(m, journal).value);
  }

  lemma FinishVerdict(m: R.Manifest, s: R.FoldState)
    requires FramesComplete(s) && s.terminal.None? && (!R.Unresolved(s) ==> s.totals.tokensReserved == 0)
    ensures if R.Unresolved(s) then R.Finish(m, s) == Err(R.Ambiguous) else R.Finish(m, s).Ok?
  {
  }

  // ----- After a stop.

  /**
   * An attempt stopped between its reservation and its intent leaves a gap: its operation no longer continues where the
   * journal stands, so the next intent it writes is refused.
   */
  lemma StopLeavesGap(r: Run, stop: Action)
    requires stop.BeginAttempt? && stop.stopAfter && Apply(r, stop) != r
    ensures stop.operation < |r.operations| == |Apply(r, stop).operations|
    ensures InOrder(r.journal, r.operations[stop.operation]) ==>
              !InOrder(Apply(r, stop).journal, Apply(r, stop).operations[stop.operation])
  {
  }

  lemma OutOfOrderIsRefused(m: R.Manifest, now: Run, s: R.FoldState, k: nat, tokens: nat, version: RequestVersion,
                            sha: string, time: int)
    requires m.objective.Some? && Tied(m, now, s) && k < |now.operations| && !InOrder(now.journal, now.operations[k])
    requires tokens <= MAX_CALL_TOKENS && Reserve(now.ledger, now.operations[k], tokens, time).Ok?
    ensures var op := now.operations[k];
            R.StepEvent(m, s, OperationIntended(IntentOf(now, op, op.ordinal + 1, tokens, version, sha))).Err?
  {
    IntentAccepted(m, now, s, k, tokens, version, sha, time);
  }
}
