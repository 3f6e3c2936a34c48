/**
 * The second folds over the same journal: the ledger, ordinals and key bindings that recovery rebuilds, and the
 * frame catalogs that a checkpoint captures and recovery recomputes
 * (src/runtime/checkpoint-recovery.ts, src/runtime/checkpoint-persistence.ts).
 */
module CheckpointRecovery {
  import opened Wrappers
  import opened Usage
  import opened Budget
  import opened Journal

  /** Distinct cells, in total and of the root, and the root's newest workspace. */
  datatype Progression = Progression(
    childFrames: set<FrameId>, cells: set<(FrameId, nat)>, rootCells: map<nat, Cell>,
    latestRootWorkspace: Option<Workspace>)

  datatype Ordinals = Ordinals(
    operationAttempts: map<OperationKey, nat>, agentAttempts: map<OperationId, nat>, recurseExecutions: map<Digest, nat>)

  datatype Derived = Derived(
    usage: BudgetUsage,
    progression: Progression,
    keys: map<RegistryId, string>,
    ordinals: Ordinals,
    calls: map<CallId, Call>,
    intents: map<IntentId, Intent>)

  function Initial(storedBytes: int): Derived {
    Derived(ZERO_USAGE.(storedBytes := storedBytes), Progression({}, {}, map[], None), map[],
            Ordinals(map[], map[], map[]), map[], map[])
  }

  function GetOr<K, V>(m: map<K, V>, k: K, default: V): V {
    if k in m then m[k] else default
  }

  function AddSettled(usage: BudgetUsage, settled: CallUsage): BudgetUsage {
    usage.(
      tokensUsed := usage.tokensUsed + settled.Tokens(),
      inputTokensUsed := usage.inputTokensUsed + settled.Input(),
      outputTokensUsed := usage.outputTokensUsed + settled.Output(),
      costUsd := usage.costUsd + settled.Cost(),
      providerDurationMs := usage.providerDurationMs + settled.durationMs)
  }

  /** A child frame names the recurse execution it runs, with an exactly representable ordinal. */
  predicate ExecutionNamed(runId: string, f: FrameId) {
    && f.runId == runId && f.tail.ExecutionTail? && 1 <= f.tail.ordinal <= MAX_SAFE_INTEGER
  }

  function DeriveOpened(runId: string, d: Derived, o: Opened): Option<Derived> {
    if o.parent.None? || o.frameId in d.progression.childFrames then Some(d)
    else if !ExecutionNamed(runId, o.frameId) then None
    else
      var digest := o.frameId.tail.digest;
      Some(d.(
        usage := d.usage.(framesOpened := d.usage.framesOpened + 1, logicalCalls := d.usage.logicalCalls + 1),
        progression := d.progression.(childFrames := d.progression.childFrames + {o.frameId}),
        ordinals := d.ordinals.(recurseExecutions :=
          d.ordinals.recurseExecutions[digest :=
            Max(GetOr(d.ordinals.recurseExecutions, digest, 0), o.frameId.tail.ordinal)])))
  }

  function DeriveCell(runId: string, d: Derived, c: Cell): Derived {
    if (c.frameId, c.iteration) in d.progression.cells then d
    else d.(
      usage := d.usage.(controllerTurns := d.usage.controllerTurns + 1),
      progression := d.progression.(
        cells := d.progression.cells + {(c.frameId, c.iteration)},
        rootCells :=
          if c.frameId == RootFrame(runId) then d.progression.rootCells[c.iteration := c] else d.progression.rootCells))
  }

  function DeriveWorkspace(runId: string, d: Derived, w: Workspace): Derived {
    var latest := d.progression.latestRootWorkspace;
    if w.frameId == RootFrame(runId) && (latest.None? || w.iteration > latest.value.iteration) then
      d.(progression := d.progression.(latestRootWorkspace := Some(w)))
    else d
  }

  function DeriveKey(runId: string, d: Derived, b: KeyBinding): Option<Derived> {
    match FrameLineage(runId, b.frameId)
    case None => None
    case Some(lineage) =>
      var id := if b.kind == RecurseCall then ScopedKey(lineage, b.key) else GlobalKey(b.kind, b.key);
      if id in d.keys && d.keys[id] != b.identityHash then None
      else Some(d.(keys := d.keys[id := b.identityHash]))
  }

  function DeriveIntended(d: Derived, intent: Intent): Derived {
    var i := intent.identity;
    d.(
      usage := d.usage.(
        logicalCalls := d.usage.logicalCalls + i.reservation.logicalCalls,
        attempts := d.usage.attempts + i.reservation.attempts,
        tokensReserved := d.usage.tokensReserved + i.reservation.tokens),
      ordinals := d.ordinals.(
        operationAttempts := d.ordinals.operationAttempts[intent.OperationKey() := i.attempt],
        agentAttempts :=
          if i.kind == AgentKind then
            d.ordinals.agentAttempts[i.operationId := GetOr(d.ordinals.agentAttempts, i.operationId, 0) + 1]
          else d.ordinals.agentAttempts),
      intents := d.intents[intent.intentId := intent])
  }

  function DeriveSettled(d: Derived, e: Settlement): Option<Derived> {
    if e.intentId !in d.intents then None
    else
      var reserved := d.intents[e.intentId].identity.reservation.tokens;
      Some(d.(usage := AddSettled(d.usage.(tokensReserved := d.usage.tokensReserved - reserved), e.usage)))
  }

  function DeriveEvent(runId: string, d: Derived, e: Event): Option<Derived> {
    match e
    case FrameOpened(o) => DeriveOpened(runId, d, o)
    case CellCommitted(c) => Some(DeriveCell(runId, d, c))
    case WorkspaceCommitted(w) => Some(DeriveWorkspace(runId, d, w))
    case KeyBound(b) => DeriveKey(runId, d, b)
    case OperationIntended(i) => Some(DeriveIntended(d, i))
    case OperationSettled(x) => DeriveSettled(d, x)
    case CallCommitted(c) => Some(d.(calls := d.calls[c.callId := c]))
    case _ => Some(d)
  }

  /** The state that a journal determines; absent when the journal cannot be checkpointed at all. */
  function Derive(runId: string, es: seq<Event>, storedBytes: int): Option<Derived> {
    if es == [] then Some(Initial(storedBytes))
    else
      match Derive(runId, es[..|es| - 1], storedBytes)
      case None => None
      case Some(d) => DeriveEvent(runId, d, es[|es| - 1])
  }

  /** The program's single pass over the events, updating its registers in place. */
  method DeriveJournalState(runId: string, events: seq<Event>, storedBytes: int) returns (r: Option<Derived>)
    ensures r == Derive(runId, events, storedBytes)
  {
    var state := Initial(storedBytes);
    for k := 0 to |events|
      invariant Derive(runId, events[..k], storedBytes) == Some(state)
    {
      assert events[..k + 1][..k] == events[..k];
      match DeriveEvent(runId, state, events[k]) {
        case None =>
          DeriveFails(runId, events, storedBytes, k + 1);
          return None;
        case Some(next) => state := next;
      }
    }
    assert events[..|events|] == events;
    return Some(state);
  }

  lemma {:induction false} DeriveFails(runId: string, es: seq<Event>, storedBytes: int, k: nat)
    requires k <= |es| && Derive(runId, es[..k], storedBytes).None?
    ensures Derive(runId, es, storedBytes).None?
    decreases |es|
  {
    if k == |es| {
      assert es[..k] == es;
    } else {
      assert es[..|es| - 1][..k] == es[..k];
      DeriveFails(runId, es[..|es| - 1], storedBytes, k);
    }
  }

  // ----- Frame catalogs.

  datatype Snapshot = Snapshot(
    frameId: FrameId, lineage: Lineage, parent: Option<FrameId>, depth: nat, objective: string,
    state: FrameState, nextIteration: nat)

  /** What both catalogs remember of the journal, except how they count cells. */
  datatype Seen = Seen(openings: map<FrameId, Opened>, closed: map<FrameId, FrameState>, answered: set<FrameId>)

  function StateOf(seen: Seen, f: FrameId): FrameState {
    GetOr(seen.closed, f, if f in seen.answered then Answered else Open)
  }

  /** One entry per opened frame; undefined when some frame has no recurse lineage. */
  function Catalog(runId: string, seen: Seen, cells: FrameId -> nat): Option<map<FrameId, Snapshot>> {
    if exists f <- seen.openings :: FrameLineage(runId, f).None? then None
    else
      Some(map f <- seen.openings ::
             var o := seen.openings[f];
             Snapshot(f, FrameLineage(runId, f).value, o.parent, o.depth, o.objective, StateOf(seen, f), cells(f) + 1))
  }

  /** Capturing overwrites a repeated opening and keeps each frame's greatest cell iteration. */
  datatype Captured = Captured(seen: Seen, greatest: map<FrameId, nat>)

  function CaptureEvent(c: Captured, e: Event): Captured {
    match e
    case FrameOpened(o) => c.(seen := c.seen.(openings := c.seen.openings[o.frameId := o]))
    case FrameClosed(f, state) => c.(seen := c.seen.(closed := c.seen.closed[f := state]))
    case AnswerCommitted(a) => c.(seen := c.seen.(answered := c.seen.answered + {a.frameId}))
    case CellCommitted(x) =>
      c.(greatest := c.greatest[x.frameId := Max(GetOr(c.greatest, x.frameId, 0), x.iteration)])
    case _ => c
  }

  function Capture(es: seq<Event>): Captured {
    if es == [] then Captured(Seen(map[], map[], {}), map[])
    else CaptureEvent(Capture(es[..|es| - 1]), es[|es| - 1])
  }

  function CapturedCatalog(runId: string, es: seq<Event>): Option<map<FrameId, Snapshot>> {
    var c := Capture(es);
    Catalog(runId, c.seen, GreatestCells(c))
  }

  function GreatestCells(c: Captured): FrameId -> nat { f => GetOr(c.greatest, f, 0) }

  /** The capturing pass over the events, filling its maps. */
  method CaptureFrames(runId: string, events: seq<Event>) returns (catalog: Option<map<FrameId, Snapshot>>)
    ensures catalog == CapturedCatalog(runId, events)
  {
    var captured := Captured(Seen(map[], map[], {}), map[]);
    for k := 0 to |events|
      invariant captured == Capture(events[..k])
    {
      assert events[..k + 1][..k] == events[..k];
      captured := CaptureEvent(captured, events[k]);
    }
    assert events[..|events|] == events;
    return Catalog(runId, captured.seen, GreatestCells(captured));
  }

  /** Recovering keeps the first opening and counts distinct cell iterations. */
  datatype Recovered = Recovered(seen: Seen, iterations: map<FrameId, set<nat>>)

  function RecoverEvent(r: Recovered, e: Event): Recovered {
    match e
    case FrameOpened(o) =>
      if o.frameId in r.seen.openings then r else r.(seen := r.seen.(openings := r.seen.openings[o.frameId := o]))
    case FrameClosed(f, state) => r.(seen := r.seen.(closed := r.seen.closed[f := state]))
    case AnswerCommitted(a) => r.(seen := r.seen.(answered := r.seen.answered + {a.frameId}))
    case CellCommitted(x) =>
      r.(iterations := r.iterations[x.frameId := GetOr(r.iterations, x.frameId, {}) + {x.iteration}])
    case _ => r
  }

  function Recover(es: seq<Event>): Recovered {
    if es == [] then Recovered(Seen(map[], map[], {}), map[])
    else RecoverEvent(Recover(es[..|es| - 1]), es[|es| - 1])
  }

  function RecoveredCatalog(runId: string, es: seq<Event>): Option<map<FrameId, Snapshot>> {
    var r := Recover(es);
    Catalog(runId, r.seen, CountedCells(r))
  }

  function CountedCells(r: Recovered): FrameId -> nat { f => |GetOr(r.iterations, f, {})| }

  /** The recovering pass over the events, filling its maps. */
  method RecoverFrames(runId: string, events: seq<Event>) returns (catalog: Option<map<FrameId, Snapshot>>)
    ensures catalog == RecoveredCatalog(runId, events)
  {
    var recovered := Recovered(Seen(map[], map[], {}), map[]);
    for k := 0 to |events|
      invariant recovered == Recover(events[..k])
    {
      assert events[..k + 1][..k] == events[..k];
      recovered := RecoverEvent(recovered, events[k]);
    }
    assert events[..|events|] == events;
    return Catalog(runId, recovered.seen, CountedCells(recovered));
  }
}
