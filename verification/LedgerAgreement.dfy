/**
 * The live ledger against the ledger that recovery rebuilds from the journal: at every moment of every interleaving
 * they differ by exactly the work that only one of them has seen.
 */
module LedgerAgreement {
  import opened Wrappers
  import opened Budget
  import opened Journal
  import opened Provider
  import opened LedgerConservation
  import opened CheckpointRecovery
  import FoldAgreement

  /** What one item contributes to the rebuilt ledger. */
  function JournalPart(item: Item): BudgetUsage {
    match item
    case Attempt(intent, _, _, _, intended, settled, _, _) =>
      if !intended then ZERO_USAGE
      else
        var charged := if settled.Some? then Charge(settled.value) else ZERO_USAGE;
        charged.(
          logicalCalls := intent.identity.reservation.logicalCalls,
          attempts := 1,
          tokensReserved := if settled.Some? then 0 else intent.identity.reservation.tokens)
    case Child(_, journaled) => if journaled then ZERO_USAGE.(framesOpened := 1, logicalCalls := 1) else ZERO_USAGE
    case Turn(_, _, committed) => if committed then ZERO_USAGE.(controllerTurns := 1) else ZERO_USAGE
  }

  function JournalTotal(items: seq<Item>): BudgetUsage { Total(items, JournalPart) }

  // ----- What the journal and the rebuilt state know about the items.

  ghost predicate ItemOk(runId: string, executions: map<Digest, nat>, d: Derived, item: Item) {
    match item
    case Attempt(intent, _, _, _, intended, settled, _, _) =>
      && intent.intentId == IntentId(intent.identity)
      && (intended ==> intent.intentId in d.intents && d.intents[intent.intentId] == intent)
      && (settled.Some? ==> intended)
    case Child(o, journaled) =>
      && o.parent.Some? && ExecutionNamed(runId, o.frameId)
      && FoldAgreement.OrdinalReached(executions, o.frameId)
      && (!journaled ==> o.frameId !in d.progression.childFrames)
    case Turn(f, iteration, committed) => committed <==> (f, iteration) in d.progression.cells
  }

  ghost predicate ItemsOk(runId: string, executions: map<Digest, nat>, d: Derived, items: seq<Item>) {
    forall k {:trigger ItemOk(runId, executions, d, items[k])} | 0 <= k < |items| ::
      ItemOk(runId, executions, d, items[k])
  }

  /** An attempt past its intent has a durable intent, and a durable settlement carries the usage to be charged. */
  predicate ShapeOk(item: Item) {
    item.Attempt? ==>
      && (item.phase.Running? || item.phase.AwaitSettlement? ==> item.intended)
      && (item.phase.AwaitIntent? || item.phase.Running? ==> item.settled.None?)
      && (item.phase.AwaitSettlement? && item.settled.Some? ==> item.settled == Some(item.phase.usage))
      && (item.settled.Some? ==> item.ledger.Freed? || item.ledger == Charged(item.settled.value))
      && (item.ledger.Charged? ==> item.intended)
  }

  /** Two items never stand for the same frame or the same turn. */
  predicate Apart(a: Item, b: Item) {
    && (a.Child? && b.Child? ==> a.opening.frameId != b.opening.frameId)
    && (a.Turn? && b.Turn? ==> a.frameId != b.frameId || a.iteration != b.iteration)
  }

  ghost predicate ShapesOk(items: seq<Item>) {
    && (forall k {:trigger ShapeOk(items[k])} | 0 <= k < |items| :: ShapeOk(items[k]))
    && (forall j, k {:trigger Apart(items[j], items[k])} | 0 <= j < k < |items| :: Apart(items[j], items[k]))
  }

  /** A change of an item never changes which frame or turn it stands for. */
  predicate SameSubject(a: Item, b: Item) {
    match a
    case Attempt(_, _, _, _, _, _, _, _) => b.Attempt?
    case Child(o, _) => b.Child? && b.opening == o
    case Turn(f, iteration, _) => b.Turn? && b.frameId == f && b.iteration == iteration
  }

  lemma ShapesUpdate(items: seq<Item>, k: nat, item: Item)
    requires ShapesOk(items) && k < |items| && ShapeOk(item) && SameSubject(items[k], item)
    ensures ShapesOk(items[k := item])
  {
    var items' := items[k := item];
    forall j | 0 <= j < |items'| ensures ShapeOk(items'[j]) { assert ShapeOk(items[j]); }
    forall i, j | 0 <= i < j < |items'| ensures Apart(items'[i], items'[j]) { assert Apart(items[i], items[j]); }
  }

  lemma ShapesAppend(items: seq<Item>, item: Item)
    requires ShapesOk(items) && ShapeOk(item) && forall j | 0 <= j < |items| :: Apart(items[j], item)
    ensures ShapesOk(items + [item])
  {
    var items' := items + [item];
    forall j | 0 <= j < |items'| ensures ShapeOk(items'[j]) { if j < |items| { assert ShapeOk(items[j]); } }
    forall i, j | 0 <= i < j < |items'| ensures Apart(items'[i], items'[j]) {
      if j < |items| { assert Apart(items[i], items[j]); }
    }
  }

  ghost predicate KnownIntent(journal: seq<Event>, d: Derived, id: IntentId)
    requires id in d.intents
  {
    && id == IntentId(d.intents[id].identity) && d.intents[id].intentId == id
    && OperationIntended(d.intents[id]) in journal
  }

  ghost predicate KnownKey(runId: string, journal: seq<Event>, d: Derived, id: RegistryId)
    requires id in d.keys
  {
    exists b ::
      && KeyBound(b) in journal
      && RegistryIdOf(runId, b.kind, b.key, b.frameId) == Some(id)
      && b.identityHash == d.keys[id]
  }

  /** Whatever was rebuilt stems from an event, and recurse ordinals are never handed out again. */
  ghost predicate SourcesOk(runId: string, executions: map<Digest, nat>, journal: seq<Event>, d: Derived) {
    && (forall id {:trigger KnownIntent(journal, d, id)} | id in d.intents :: KnownIntent(journal, d, id))
    && (forall id {:trigger KnownKey(runId, journal, d, id)} | id in d.keys :: KnownKey(runId, journal, d, id))
    && (forall c {:trigger c in d.progression.cells} | c in d.progression.cells :: CellIn(journal, c.0, c.1))
    && (forall f {:trigger FoldAgreement.OrdinalReached(executions, f)} | f in d.progression.childFrames ::
          FoldAgreement.OrdinalReached(executions, f))
  }

  ghost predicate JournalOk(r: Run, storedBytes: int, base: BudgetUsage, d: Derived) {
    && Derive(r.runId, r.journal, storedBytes) == Some(d)
    && d.usage == Add(base, JournalTotal(r.items))
    && ItemsOk(r.runId, r.ordinals.executions, d, r.items)
    && ShapesOk(r.items)
    && SourcesOk(r.runId, r.ordinals.executions, r.journal, d)
  }

  lemma DeriveAppend(runId: string, es: seq<Event>, e: Event, storedBytes: int)
    requires Derive(runId, es, storedBytes).Some?
    ensures Derive(runId, es + [e], storedBytes) == DeriveEvent(runId, Derive(runId, es, storedBytes).value, e)
  {
    assert (es + [e])[..|es|] == es;
  }

  // ----- Actions that do not write.

  /** The item changed, but not in anything the journal tells. */
  predicate SameInJournal(a: Item, b: Item) {
    && a.Attempt? && b.Attempt?
    && b.intent == a.intent && b.intended == a.intended && b.settled == a.settled
  }

  lemma TotalUnchanged(items: seq<Item>, k: nat, item: Item, part: Item -> BudgetUsage)
    requires k < |items| && part(item) == part(items[k])
    ensures Total(items[k := item], part) == Total(items, part)
  {
    TotalUpdate(items, k, item, part);
  }

  lemma TotalAppendNothing(items: seq<Item>, item: Item, part: Item -> BudgetUsage)
    requires part(item) == ZERO_USAGE
    ensures Total(items + [item], part) == Total(items, part)
  {
    TotalAppend(items, item, part);
  }

  lemma SilentUpdate(r: Run, r': Run, storedBytes: int, base: BudgetUsage, d: Derived, k: nat)
    requires JournalOk(r, storedBytes, base, d) && k < |r.items|
    requires r'.journal == r.journal && r'.runId == r.runId && r'.ordinals == r.ordinals
    requires |r'.items| == |r.items| && r'.items == r.items[k := r'.items[k]]
    requires SameInJournal(r.items[k], r'.items[k]) && ShapeOk(r'.items[k])
    ensures JournalOk(r', storedBytes, base, d)
  {
    TotalUnchanged(r.items, k, r'.items[k], JournalPart);
    ShapesUpdate(r.items, k, r'.items[k]);
    forall j | 0 <= j < |r'.items| ensures ItemOk(r.runId, r.ordinals.executions, d, r'.items[j]) {
      assert ItemOk(r.runId, r.ordinals.executions, d, r.items[j]);
    }
  }

  lemma SilentAppend(r: Run, r': Run, storedBytes: int, base: BudgetUsage, d: Derived, item: Item)
    requires JournalOk(r, storedBytes, base, d)
    requires r'.journal == r.journal && r'.runId == r.runId && r'.items == r.items + [item]
    requires r'.ordinals.executions == r.ordinals.executions
    requires JournalPart(item) == ZERO_USAGE && ItemOk(r.runId, r.ordinals.executions, d, item) && ShapeOk(item)
    requires forall j | 0 <= j < |r.items| :: Apart(r.items[j], item)
    ensures JournalOk(r', storedBytes, base, d)
  {
    TotalAppendNothing(r.items, item, JournalPart);
    ShapesAppend(r.items, item);
    ItemsAppend(r.runId, r.ordinals.executions, d, r.items, item);
  }

  lemma ItemsAppend(runId: string, executions: map<Digest, nat>, d: Derived, items: seq<Item>, item: Item)
    requires ItemsOk(runId, executions, d, items) && ItemOk(runId, executions, d, item)
    ensures ItemsOk(runId, executions, d, items + [item])
  {
    forall j | 0 <= j < |items + [item]| ensures ItemOk(runId, executions, d, (items + [item])[j]) {
      if j < |items| { assert ItemOk(runId, executions, d, items[j]); }
    }
  }

  // ----- Actions that write one event.

  lemma Regroup(base: BudgetUsage, total: BudgetUsage, removed: BudgetUsage, added: BudgetUsage)
    ensures Add(Subtract(Add(base, total), removed), added) == Add(base, Add(Subtract(total, removed), added))
  {
  }

  lemma WriteUpdate(r: Run, r': Run, storedBytes: int, base: BudgetUsage, d: Derived, d': Derived, k: nat)
    requires JournalOk(r, storedBytes, base, d) && k < |r.items|
    requires r'.runId == r.runId && r'.ordinals == r.ordinals
    requires |r'.items| == |r.items| && r'.items == r.items[k := r'.items[k]]
    requires Derive(r.runId, r'.journal, storedBytes) == Some(d')
    requires d'.usage == Add(Subtract(d.usage, JournalPart(r.items[k])), JournalPart(r'.items[k]))
    requires SameSubject(r.items[k], r'.items[k]) && ShapeOk(r'.items[k])
    requires ItemsOk(r.runId, r.ordinals.executions, d', r'.items)
    requires SourcesOk(r.runId, r.ordinals.executions, r'.journal, d')
    ensures JournalOk(r', storedBytes, base, d')
  {
    TotalUpdate(r.items, k, r'.items[k], JournalPart);
    Regroup(base, JournalTotal(r.items), JournalPart(r.items[k]), JournalPart(r'.items[k]));
    ShapesUpdate(r.items, k, r'.items[k]);
  }

  /** Sources survive an event; what the event adds must stem from it. */
  lemma SourcesGrow(runId: string, executions: map<Digest, nat>, es: seq<Event>, e: Event, d: Derived, d': Derived)
    requires SourcesOk(runId, executions, es, d)
    requires forall id <- d'.intents ::
               (id in d.intents && d'.intents[id] == d.intents[id]) || KnownIntent(es + [e], d', id)
    requires forall id <- d'.keys :: (id in d.keys && d'.keys[id] == d.keys[id]) || KnownKey(runId, es + [e], d', id)
    requires forall c <- d'.progression.cells :: c in d.progression.cells || CellIn(es + [e], c.0, c.1)
    requires forall f <- d'.progression.childFrames ::
               f in d.progression.childFrames || FoldAgreement.OrdinalReached(executions, f)
    ensures SourcesOk(runId, executions, es + [e], d')
  {
    forall id | id in d'.intents ensures KnownIntent(es + [e], d', id) {
      if id in d.intents && d'.intents[id] == d.intents[id] { assert KnownIntent(es, d, id); }
    }
    forall id | id in d'.keys ensures KnownKey(runId, es + [e], d', id) {
      if id in d.keys && d'.keys[id] == d.keys[id] { assert KnownKey(runId, es, d, id); }
    }
    forall c | c in d'.progression.cells ensures CellIn(es + [e], c.0, c.1) {
      if c in d.progression.cells { assert CellIn(es, c.0, c.1); }
    }
    forall f | f in d'.progression.childFrames ensures FoldAgreement.OrdinalReached(executions, f) {
      if f in d.progression.childFrames { assert FoldAgreement.OrdinalReached(executions, f); }
    }
  }

  /** Every event that can be derived keeps the sources, given what a well-formed journal says of intents and frames. */
  lemma SourcesStep(runId: string, executions: map<Digest, nat>, es: seq<Event>, e: Event, d: Derived)
    requires SourcesOk(runId, executions, es, d) && DeriveEvent(runId, d, e).Some?
    requires e.OperationIntended? ==> e.intent.intentId == IntentId(e.intent.identity)
    requires e.FrameOpened? && e.opening.parent.Some? ==> FoldAgreement.OrdinalReached(executions, e.opening.frameId)
    ensures SourcesOk(runId, executions, es + [e], DeriveEvent(runId, d, e).value)
  {
    var d' := DeriveEvent(runId, d, e).value;
    assert (es + [e])[|es|] == e;
    SourcesGrow(runId, executions, es, e, d, d');
  }

  lemma ItemsAfterIntent(runId: string, x: map<Digest, nat>, d: Derived, items: seq<Item>, k: nat)
    requires ItemsOk(runId, x, d, items) && k < |items| && items[k].Attempt?
    ensures ItemsOk(runId, x, DeriveIntended(d, items[k].intent), items[k := items[k].(intended := true)])
  {
    assert ItemOk(runId, x, d, items[k]);
    var items' := items[k := items[k].(intended := true)];
    forall j | 0 <= j < |items'| ensures ItemOk(runId, x, DeriveIntended(d, items[k].intent), items'[j]) {
      assert ItemOk(runId, x, d, items[j]);
    }
  }

  lemma IntentUsage(d: Derived, a: Item)
    requires a.Attempt? && !a.intended && a.settled.None?
    ensures DeriveIntended(d, a.intent).usage == Add(Subtract(d.usage, JournalPart(a)), JournalPart(a.(intended := true)))
  {
  }

  lemma WriteIntentKeepsJournal(r: Run, storedBytes: int, base: BudgetUsage, d: Derived, k: nat) returns (d': Derived)
    requires JournalOk(r, storedBytes, base, d) && k < |r.items|
    ensures JournalOk(DoWriteIntent(r, k), storedBytes, base, d')
  {
    var a, r', x := r.items[k], DoWriteIntent(r, k), r.ordinals.executions;
    d' := d;
    if r' != r {
      var e := OperationIntended(a.intent);
      d' := DeriveIntended(d, a.intent);
      assert ItemOk(r.runId, x, d, a) && ShapeOk(a);
      ItemsAfterIntent(r.runId, x, d, r.items, k);
      IntentUsage(d, a);
      SourcesStep(r.runId, x, r.journal, e, d);
      DeriveAppend(r.runId, r.journal, e, storedBytes);
      WriteUpdate(r, r', storedBytes, base, d, d', k);
    }
  }

  lemma WriteSettlementKeepsJournal(r: Run, storedBytes: int, base: BudgetUsage, d: Derived, k: nat,
                                    errorCode: Option<string>)
    returns (d': Derived)
    requires JournalOk(r, storedBytes, base, d) && k < |r.items| && PhaseOk(r.items[k], r.authority)
    ensures JournalOk(DoWriteSettlement(r, k, errorCode), storedBytes, base, d')
  {
    var a, r', x := r.items[k], DoWriteSettlement(r, k, errorCode), r.ordinals.executions;
    d' := d;
    if r' != r {
      assert ItemOk(r.runId, x, d, a) && ShapeOk(a);
      var e := OperationSettled(SettlementOf(r, a, errorCode));
      d' := DeriveSettled(d, e.settlement).value;
      forall j | 0 <= j < |r'.items| ensures ItemOk(r.runId, x, d', r'.items[j]) {
        assert ItemOk(r.runId, x, d, r.items[j]);
      }
      SourcesStep(r.runId, x, r.journal, e, d);
      DeriveAppend(r.runId, r.journal, e, storedBytes);
      WriteUpdate(r, r', storedBytes, base, d, d', k);
    }
  }

  lemma WriteChildKeepsJournal(r: Run, storedBytes: int, base: BudgetUsage, d: Derived, k: nat) returns (d': Derived)
    requires JournalOk(r, storedBytes, base, d) && k < |r.items|
    ensures JournalOk(DoWriteChild(r, k), storedBytes, base, d')
  {
    var c, r', x := r.items[k], DoWriteChild(r, k), r.ordinals.executions;
    d' := d;
    if r' != r {
      assert ItemOk(r.runId, x, d, c);
      d' := DeriveOpened(r.runId, d, c.opening).value;
      forall j | 0 <= j < |r'.items| ensures ItemOk(r.runId, x, d', r'.items[j]) {
        assert ItemOk(r.runId, x, d, r.items[j]);
        if j < k { assert Apart(r.items[j], c); } else if k < j { assert Apart(c, r.items[j]); }
      }
      SourcesStep(r.runId, x, r.journal, FrameOpened(c.opening), d);
      DeriveAppend(r.runId, r.journal, FrameOpened(c.opening), storedBytes);
      WriteUpdate(r, r', storedBytes, base, d, d', k);
    }
  }

  lemma ItemsAfterCell(runId: string, x: map<Digest, nat>, d: Derived, items: seq<Item>, k: nat, cell: Cell)
    requires ItemsOk(runId, x, d, items) && ShapesOk(items) && k < |items|
    requires items[k] == Turn(cell.frameId, cell.iteration, false)
    ensures ItemsOk(runId, x, DeriveCell(runId, d, cell), items[k := items[k].(committed := true)])
  {
    var items' := items[k := items[k].(committed := true)];
    forall j | 0 <= j < |items'| ensures ItemOk(runId, x, DeriveCell(runId, d, cell), items'[j]) {
      assert ItemOk(runId, x, d, items[j]);
      if j < k { assert Apart(items[j], items[k]); } else if k < j { assert Apart(items[k], items[j]); }
    }
  }

  lemma CommitCellKeepsJournal(r: Run, storedBytes: int, base: BudgetUsage, d: Derived, k: nat, cell: Cell)
    returns (d': Derived)
    requires JournalOk(r, storedBytes, base, d) && k < |r.items|
    ensures JournalOk(DoCommitCell(r, k, cell), storedBytes, base, d')
  {
    var t, r', x := r.items[k], DoCommitCell(r, k, cell), r.ordinals.executions;
    d' := d;
    if r' != r {
      assert ItemOk(r.runId, x, d, t);
      d' := DeriveCell(r.runId, d, cell);
      ItemsAfterCell(r.runId, x, d, r.items, k, cell);
      SourcesStep(r.runId, x, r.journal, CellCommitted(cell), d);
      DeriveAppend(r.runId, r.journal, CellCommitted(cell), storedBytes);
      WriteUpdate(r, r', storedBytes, base, d, d', k);
    }
  }

  /** Keys come from earlier bindings, so a consistent binding never contradicts the rebuilt registry. */
  lemma BindingDerives(r: Run, d: Derived, b: KeyBinding)
    requires SourcesOk(r.runId, r.ordinals.executions, r.journal, d) && KeyConsistent(r, b)
    ensures DeriveKey(r.runId, d, b).Some?
  {
    var id := RegistryIdOf(r.runId, b.kind, b.key, b.frameId).value;
    if id in d.keys { assert KnownKey(r.runId, r.journal, d, id); }
  }

  /** What the items know of the rebuilt state. */
  predicate SameKnowledge(d: Derived, d': Derived) {
    && d'.usage == d.usage && d'.intents == d.intents
    && d'.progression.childFrames == d.progression.childFrames && d'.progression.cells == d.progression.cells
  }

  lemma OtherEventChangesNoUsage(r: Run, d: Derived, e: Event)
    requires NotAccounting(r, e) && SourcesOk(r.runId, r.ordinals.executions, r.journal, d)
    ensures DeriveEvent(r.runId, d, e).Some? && SameKnowledge(d, DeriveEvent(r.runId, d, e).value)
  {
    if e.KeyBound? { BindingDerives(r, d, e.binding); }
  }

  lemma ItemsSame(runId: string, executions: map<Digest, nat>, d: Derived, d': Derived, items: seq<Item>)
    requires ItemsOk(runId, executions, d, items) && SameKnowledge(d, d')
    ensures ItemsOk(runId, executions, d', items)
  {
    forall j | 0 <= j < |items| ensures ItemOk(runId, executions, d', items[j]) {
      assert ItemOk(runId, executions, d, items[j]);
    }
  }

  lemma OtherEventKeepsJournal(r: Run, storedBytes: int, base: BudgetUsage, d: Derived, e: Event) returns (d': Derived)
    requires JournalOk(r, storedBytes, base, d) && NotAccounting(r, e)
    ensures JournalOk(r.(journal := r.journal + [e]), storedBytes, base, d')
  {
    OtherEventChangesNoUsage(r, d, e);
    d' := DeriveEvent(r.runId, d, e).value;
    ItemsSame(r.runId, r.ordinals.executions, d, d', r.items);
    SourcesStep(r.runId, r.ordinals.executions, r.journal, e, d);
    DeriveAppend(r.runId, r.journal, e, storedBytes);
  }

  // ----- Every action.

  /** The actions on attempts that touch the ledger and no more than their own phase. */
  lemma SilentItemAction(r: Run, storedBytes: int, base: BudgetUsage, d: Derived, a: Action)
    requires JournalOk(r, storedBytes, base, d)
    requires a.IntentAcknowledged? || a.IntentFailed? || a.ExternalEnded? || a.SettlementResolved?
    ensures JournalOk(Apply(r, a), storedBytes, base, d)
  {
    var r' := Apply(r, a);
    if a.item < |r.items| && r' != r {
      assert ShapeOk(r.items[a.item]);
      SilentUpdate(r, r', storedBytes, base, d, a.item);
    }
  }

  lemma BeginAttemptKeepsJournal(r: Run, storedBytes: int, base: BudgetUsage, d: Derived, k: nat, tokens: nat,
                                 version: RequestVersion, sha: string, stopBefore: bool, stopAfter: bool, now: int)
    requires JournalOk(r, storedBytes, base, d) && k < |r.operations|
    ensures JournalOk(DoBeginAttempt(r, k, tokens, version, sha, stopBefore, stopAfter, now), storedBytes, base, d)
  {
    var r' := DoBeginAttempt(r, k, tokens, version, sha, stopBefore, stopAfter, now);
    if r' != r { SilentAppend(r, r', storedBytes, base, d, r'.items[|r.items|]); }
  }

  lemma ReserveTurnKeepsJournal(r: Run, storedBytes: int, base: BudgetUsage, d: Derived, f: FrameId, iteration: nat,
                                now: int)
    requires JournalOk(r, storedBytes, base, d)
    ensures JournalOk(DoReserveTurn(r, f, iteration, now), storedBytes, base, d)
  {
    var r' := DoReserveTurn(r, f, iteration, now);
    if r' != r {
      assert (f, iteration) in d.progression.cells ==> CellIn(r.journal, f, iteration);
      SilentAppend(r, r', storedBytes, base, d, Turn(f, iteration, false));
    }
  }

  /** The next ordinal of a recurse call names a frame that nothing stands for yet. */
  lemma ReserveChildKeepsJournal(r: Run, storedBytes: int, base: BudgetUsage, d: Derived, parent: FrameId, depth: nat,
                                 digest: Digest, objective: string, now: int)
    requires JournalOk(r, storedBytes, base, d)
    ensures JournalOk(DoReserveChild(r, parent, depth, digest, objective, now), storedBytes, base, d)
  {
    var r' := DoReserveChild(r, parent, depth, digest, objective, now);
    if r' != r {
      var child, x, x' := r'.items[|r.items|], r.ordinals.executions, r'.ordinals.executions;
      var f := child.opening.frameId;
      assert !FoldAgreement.OrdinalReached(x, f);
      forall j | 0 <= j < |r.items| ensures ItemOk(r.runId, x', d, r.items[j]) && Apart(r.items[j], child) {
        assert ItemOk(r.runId, x, d, r.items[j]);
      }
      forall g | g in d.progression.childFrames ensures FoldAgreement.OrdinalReached(x', g) {
        assert FoldAgreement.OrdinalReached(x, g);
      }
      SilentAppend(r.(ordinals := r'.ordinals), r', storedBytes, base, d, child);
    }
  }

  lemma ApplyKeepsJournal(r: Run, storedBytes: int, base: BudgetUsage, d: Derived, a: Action) returns (d': Derived)
    requires JournalOk(r, storedBytes, base, d)
    requires forall k {:trigger PhaseOk(r.items[k], r.authority)} | 0 <= k < |r.items| :: PhaseOk(r.items[k], r.authority)
    ensures JournalOk(Apply(r, a), storedBytes, base, d')
  {
    d' := d;
    match a {
      case StartOperation(_, _, _, _) =>
      case CloseAuthority =>
      case BeginAttempt(k, tokens, version, sha, stopBefore, stopAfter, now) =>
        if k < |r.operations| {
          BeginAttemptKeepsJournal(r, storedBytes, base, d, k, tokens, version, sha, stopBefore, stopAfter, now);
        }
      case WriteIntent(k) => if k < |r.items| { d' := WriteIntentKeepsJournal(r, storedBytes, base, d, k); }
      case WriteSettlement(k, errorCode) =>
        if k < |r.items| {
          assert PhaseOk(r.items[k], r.authority);
          d' := WriteSettlementKeepsJournal(r, storedBytes, base, d, k, errorCode);
        }
      case ReserveChild(parent, depth, digest, objective, now) =>
        ReserveChildKeepsJournal(r, storedBytes, base, d, parent, depth, digest, objective, now);
      case WriteChild(k) => if k < |r.items| { d' := WriteChildKeepsJournal(r, storedBytes, base, d, k); }
      case ReserveTurn(f, iteration, now) => ReserveTurnKeepsJournal(r, storedBytes, base, d, f, iteration, now);
      case CommitCell(k, cell) => if k < |r.items| { d' := CommitCellKeepsJournal(r, storedBytes, base, d, k, cell); }
      case OtherEvent(e) => if NotAccounting(r, e) { d' := OtherEventKeepsJournal(r, storedBytes, base, d, e); }
      case _ => SilentItemAction(r, storedBytes, base, d, a);
    }
  }
}
