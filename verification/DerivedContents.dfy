/**
 * What recovery rebuilds, read from the events alone (src/runtime/checkpoint-recovery.ts): the root's cells and newest
 * workspace, the ordinals, the keys and the calls of any journal that can be checkpointed.
 */
module DerivedContents {
  import opened Wrappers
  import opened Journal
  import opened Budget
  import opened CheckpointRecovery
  import OperationDiscipline
  import OperationOrder

  // ----- First and last events of a kind.

  /** The event is the first one that satisfies the condition. */
  ghost predicate First(es: seq<Event>, e: Event, p: Event -> bool) {
    exists i | 0 <= i < |es| :: es[i] == e && p(e) && forall j | 0 <= j < i :: !p(es[j])
  }

  /** The event is the last one that satisfies the condition. */
  ghost predicate Last(es: seq<Event>, e: Event, p: Event -> bool) {
    exists i | 0 <= i < |es| :: es[i] == e && p(e) && forall j | i < j < |es| :: !p(es[j])
  }

  ghost predicate Any(es: seq<Event>, p: Event -> bool) { exists e <- es :: p(e) }

  lemma AnyAppend(es: seq<Event>, last: Event, p: Event -> bool)
    ensures Any(es + [last], p) <==> Any(es, p) || p(last)
  {
    if Any(es, p) { var x :| x in es && p(x); assert x in es + [last]; }
    if p(last) { assert last in es + [last]; }
  }

  /** A first event stays the first one; if there was none, the next that satisfies the condition is. */
  lemma FirstAppend(es: seq<Event>, last: Event, e: Event, p: Event -> bool)
    ensures First(es, e, p) ==> First(es + [last], e, p)
    ensures p(last) && !Any(es, p) ==> First(es + [last], last, p)
  {
    var all := es + [last];
    if First(es, e, p) {
      var i :| 0 <= i < |es| && es[i] == e && p(e) && forall j | 0 <= j < i :: !p(es[j]);
      assert all[i] == e && forall j | 0 <= j < i :: !p(all[j]);
    }
    if p(last) && !Any(es, p) {
      forall j | 0 <= j < |es| ensures !p(all[j]) { assert all[j] == es[j] && es[j] in es; }
      assert all[|es|] == last;
    }
  }

  lemma FirstOnly(es: seq<Event>, last: Event, e: Event, p: Event -> bool)
    requires First(es + [last], e, p)
    ensures First(es, e, p) || (e == last && !Any(es, p))
  {
    var all := es + [last];
    var i :| 0 <= i < |all| && all[i] == e && p(e) && forall j | 0 <= j < i :: !p(all[j]);
    if i < |es| {
      forall j | 0 <= j < i ensures !p(es[j]) { assert all[j] == es[j]; }
      assert es[i] == e;
    } else {
      forall j | 0 <= j < |es| ensures !p(es[j]) { assert all[j] == es[j]; }
    }
  }

  lemma LastAppend(es: seq<Event>, last: Event, e: Event, p: Event -> bool)
    ensures p(last) ==> Last(es + [last], last, p)
    ensures Last(es, e, p) && !p(last) ==> Last(es + [last], e, p)
  {
    var all := es + [last];
    if p(last) {
      assert all[|es|] == last;
    } else if Last(es, e, p) {
      var i :| 0 <= i < |es| && es[i] == e && p(e) && forall j | i < j < |es| :: !p(es[j]);
      assert all[i] == e;
      forall j | i < j < |all| ensures !p(all[j]) { if j < |es| { assert all[j] == es[j]; } }
    }
  }

  // ----- Cells and workspaces.

  function CellOf(f: FrameId, i: nat): Event -> bool {
    (e: Event) => e.CellCommitted? && e.cell.frameId == f && e.cell.iteration == i
  }

  /** The root's cell of an iteration is the first one committed for it. */
  ghost predicate CellsTold(runId: string, es: seq<Event>, d: Derived) {
    && (forall f, i: nat {:trigger (f, i) in d.progression.cells} :: (f, i) in d.progression.cells <==> Any(es, CellOf(f, i)))
    && (forall i: nat {:trigger i in d.progression.rootCells} ::
          i in d.progression.rootCells <==> Any(es, CellOf(RootFrame(runId), i)))
    && (forall i <- d.progression.rootCells ::
          First(es, CellCommitted(d.progression.rootCells[i]), CellOf(RootFrame(runId), i)))
  }

  lemma DeriveStep(runId: string, es: seq<Event>, e: Event, storedBytes: int)
    requires Derive(runId, es + [e], storedBytes).Some?
    ensures Derive(runId, es, storedBytes).Some?
    ensures Derive(runId, es + [e], storedBytes) == DeriveEvent(runId, Derive(runId, es, storedBytes).value, e)
  {
    assert (es + [e])[..|es|] == es;
  }

  lemma CellProgress(runId: string, d: Derived, e: Event)
    requires DeriveEvent(runId, d, e).Some?
    ensures var p, p' := d.progression, DeriveEvent(runId, d, e).value.progression;
            if !e.CellCommitted? || (e.cell.frameId, e.cell.iteration) in p.cells then
              p'.cells == p.cells && p'.rootCells == p.rootCells
            else
              && p'.cells == p.cells + {(e.cell.frameId, e.cell.iteration)}
              && p'.rootCells == (if e.cell.frameId == RootFrame(runId) then p.rootCells[e.cell.iteration := e.cell]
                                  else p.rootCells)
  {
  }

  lemma CellSetAfter(runId: string, es: seq<Event>, d: Derived, e: Event)
    requires CellsTold(runId, es, d) && DeriveEvent(runId, d, e).Some?
    ensures var d' := DeriveEvent(runId, d, e).value;
            forall f, i: nat {:trigger (f, i) in d'.progression.cells} ::
              (f, i) in d'.progression.cells <==> Any(es + [e], CellOf(f, i))
  {
    CellProgress(runId, d, e);
    var d' := DeriveEvent(runId, d, e).value;
    forall f, i: nat ensures (f, i) in d'.progression.cells <==> Any(es + [e], CellOf(f, i)) {
      AnyAppend(es, e, CellOf(f, i));
      assert (f, i) in d.progression.cells <==> Any(es, CellOf(f, i));
    }
  }

  lemma RootCellAfter(runId: string, es: seq<Event>, d: Derived, e: Event, i: nat)
    requires CellsTold(runId, es, d) && DeriveEvent(runId, d, e).Some?
    ensures var cells, p := DeriveEvent(runId, d, e).value.progression.rootCells, CellOf(RootFrame(runId), i);
            && (i in cells <==> Any(es + [e], p))
            && (i in cells ==> First(es + [e], CellCommitted(cells[i]), p))
  {
    var root := RootFrame(runId);
    CellProgress(runId, d, e);
    assert (root, i) in d.progression.cells <==> Any(es, CellOf(root, i));
    assert i in d.progression.rootCells <==> Any(es, CellOf(root, i));
    AnyAppend(es, e, CellOf(root, i));
    FirstAppend(es, e, if i in d.progression.rootCells then CellCommitted(d.progression.rootCells[i]) else e, CellOf(root, i));
  }

  lemma CellsAfter(runId: string, es: seq<Event>, d: Derived, e: Event)
    requires CellsTold(runId, es, d) && DeriveEvent(runId, d, e).Some?
    ensures CellsTold(runId, es + [e], DeriveEvent(runId, d, e).value)
  {
    var cells := DeriveEvent(runId, d, e).value.progression.rootCells;
    CellSetAfter(runId, es, d, e);
    forall i: nat
      ensures i in cells <==> Any(es + [e], CellOf(RootFrame(runId), i))
      ensures i in cells ==> First(es + [e], CellCommitted(cells[i]), CellOf(RootFrame(runId), i))
    {
      RootCellAfter(runId, es, d, e, i);
    }
  }

  lemma {:induction false} DerivedCells(runId: string, es: seq<Event>, storedBytes: int)
    requires Derive(runId, es, storedBytes).Some?
    ensures CellsTold(runId, es, Derive(runId, es, storedBytes).value)
  {
    if es != [] {
      var front, e := es[..|es| - 1], es[|es| - 1];
      assert es == front + [e];
      DeriveStep(runId, front, e, storedBytes);
      DerivedCells(runId, front, storedBytes);
      CellsAfter(runId, front, Derive(runId, front, storedBytes).value, e);
    }
  }

  function RootWorkspace(runId: string): Event -> bool {
    (e: Event) => e.WorkspaceCommitted? && e.workspace.frameId == RootFrame(runId)
  }

  /** The root's workspace of the greatest iteration, and of several the first. */
  ghost predicate Newest(runId: string, es: seq<Event>, w: Workspace) {
    exists i | 0 <= i < |es| ::
      && es[i] == WorkspaceCommitted(w) && w.frameId == RootFrame(runId)
      && (forall j | 0 <= j < i && RootWorkspace(runId)(es[j]) :: es[j].workspace.iteration < w.iteration)
      && (forall j | i < j < |es| && RootWorkspace(runId)(es[j]) :: es[j].workspace.iteration <= w.iteration)
  }

  ghost predicate WorkspaceTold(runId: string, es: seq<Event>, latest: Option<Workspace>) {
    && (latest.None? <==> !Any(es, RootWorkspace(runId)))
    && (latest.Some? ==> Newest(runId, es, latest.value))
  }

  lemma NewestAppend(runId: string, es: seq<Event>, e: Event, w: Workspace)
    requires Newest(runId, es, w)
    ensures !(RootWorkspace(runId)(e) && e.workspace.iteration > w.iteration) ==> Newest(runId, es + [e], w)
    ensures RootWorkspace(runId)(e) && e.workspace.iteration > w.iteration ==> Newest(runId, es + [e], e.workspace)
  {
    var all := es + [e];
    var i :| 0 <= i < |es| && es[i] == WorkspaceCommitted(w) && w.frameId == RootFrame(runId)
             && (forall j | 0 <= j < i && RootWorkspace(runId)(es[j]) :: es[j].workspace.iteration < w.iteration)
             && (forall j | i < j < |es| && RootWorkspace(runId)(es[j]) :: es[j].workspace.iteration <= w.iteration);
    forall j | 0 <= j < |es| && RootWorkspace(runId)(all[j])
      ensures all[j].workspace.iteration <= w.iteration && (j < i ==> all[j].workspace.iteration < w.iteration)
    {
      assert all[j] == es[j];
    }
    assert all[i] == WorkspaceCommitted(w);
    if RootWorkspace(runId)(e) && e.workspace.iteration > w.iteration { assert all[|es|] == WorkspaceCommitted(e.workspace); }
  }

  lemma WorkspaceProgress(runId: string, d: Derived, e: Event)
    requires DeriveEvent(runId, d, e).Some?
    ensures var latest, latest' := d.progression.latestRootWorkspace,
                                   DeriveEvent(runId, d, e).value.progression.latestRootWorkspace;
            latest' == if RootWorkspace(runId)(e) && (latest.None? || e.workspace.iteration > latest.value.iteration)
                       then Option.Some(e.workspace) else latest
  {
  }

  lemma FirstWorkspace(runId: string, es: seq<Event>, e: Event)
    requires !Any(es, RootWorkspace(runId)) && RootWorkspace(runId)(e)
    ensures Newest(runId, es + [e], e.workspace)
  {
    forall j | 0 <= j < |es| ensures !RootWorkspace(runId)((es + [e])[j]) { assert (es + [e])[j] == es[j] && es[j] in es; }
    assert (es + [e])[|es|] == WorkspaceCommitted(e.workspace);
  }

  lemma WorkspaceAfter(runId: string, es: seq<Event>, d: Derived, e: Event)
    requires WorkspaceTold(runId, es, d.progression.latestRootWorkspace) && DeriveEvent(runId, d, e).Some?
    ensures WorkspaceTold(runId, es + [e], DeriveEvent(runId, d, e).value.progression.latestRootWorkspace)
  {
    var latest := d.progression.latestRootWorkspace;
    WorkspaceProgress(runId, d, e);
    AnyAppend(es, e, RootWorkspace(runId));
    if latest.Some? {
      NewestAppend(runId, es, e, latest.value);
    } else if RootWorkspace(runId)(e) {
      FirstWorkspace(runId, es, e);
    }
  }

  lemma {:induction false} DerivedWorkspace(runId: string, es: seq<Event>, storedBytes: int)
    requires Derive(runId, es, storedBytes).Some?
    ensures WorkspaceTold(runId, es, Derive(runId, es, storedBytes).value.progression.latestRootWorkspace)
  {
    if es != [] {
      var front, e := es[..|es| - 1], es[|es| - 1];
      assert es == front + [e];
      DeriveStep(runId, front, e, storedBytes);
      DerivedWorkspace(runId, front, storedBytes);
      WorkspaceAfter(runId, front, Derive(runId, front, storedBytes).value, e);
    }
  }

  // ----- Ordinals.

  /** How often agents were asked under an operation, in whatever frame. */
  function AgentIntents(intents: seq<Intent>, id: OperationId): nat {
    if intents == [] then 0
    else
      var last := intents[|intents| - 1].identity;
      AgentIntents(intents[..|intents| - 1], id) + (if last.kind == AgentKind && last.operationId == id then 1 else 0)
  }

  /** The ordinal of the last attempt, number by number of its own; zero when there is none. */
  function LastOrdinal(attempts: seq<Intent>): nat {
    if attempts == [] then 0 else attempts[|attempts| - 1].identity.attempt
  }

  ghost predicate AgentsTold(intents: seq<Intent>, attempts: map<OperationId, nat>) {
    forall id {:trigger AgentIntents(intents, id)} ::
      && GetOr(attempts, id, 0) == AgentIntents(intents, id)
      && (id in attempts <==> AgentIntents(intents, id) > 0)
  }

  ghost predicate AttemptsTold(intents: seq<Intent>, attempts: map<OperationKey, nat>) {
    forall key {:trigger OperationDiscipline.Of(intents, key)} ::
      && (key in attempts <==> OperationDiscipline.Of(intents, key) != [])
      && GetOr(attempts, key, 0) == LastOrdinal(OperationDiscipline.Of(intents, key))
  }

  /** An agent's operation counts its intents; every operation has the ordinal of its last intent. */
  ghost predicate OrdinalsTold(es: seq<Event>, d: Derived) {
    AgentsTold(Intents(es), d.ordinals.agentAttempts) && AttemptsTold(Intents(es), d.ordinals.operationAttempts)
  }

  lemma AgentAppend(intents: seq<Intent>, intent: Intent, id: OperationId)
    ensures AgentIntents(intents + [intent], id) == AgentIntents(intents, id) +
              (if intent.identity.kind == AgentKind && intent.identity.operationId == id then 1 else 0)
  {
    assert (intents + [intent])[..|intents|] == intents;
  }

  lemma AgentsAfter(intents: seq<Intent>, d: Derived, intent: Intent)
    requires AgentsTold(intents, d.ordinals.agentAttempts)
    ensures AgentsTold(intents + [intent], DeriveIntended(d, intent).ordinals.agentAttempts)
  {
    var attempts := DeriveIntended(d, intent).ordinals.agentAttempts;
    forall id
      ensures GetOr(attempts, id, 0) == AgentIntents(intents + [intent], id)
      ensures id in attempts <==> AgentIntents(intents + [intent], id) > 0
    {
      AgentAppend(intents, intent, id);
    }
  }

  lemma AttemptsAfter(intents: seq<Intent>, d: Derived, intent: Intent)
    requires AttemptsTold(intents, d.ordinals.operationAttempts)
    ensures AttemptsTold(intents + [intent], DeriveIntended(d, intent).ordinals.operationAttempts)
  {
    var attempts := DeriveIntended(d, intent).ordinals.operationAttempts;
    forall key
      ensures key in attempts <==> OperationDiscipline.Of(intents + [intent], key) != []
      ensures GetOr(attempts, key, 0) == LastOrdinal(OperationDiscipline.Of(intents + [intent], key))
    {
      OperationDiscipline.OfAppend(intents, intent, key);
      assert OperationDiscipline.Of(intents, key) + [] == OperationDiscipline.Of(intents, key);
    }
  }

  lemma OtherOrdinals(runId: string, d: Derived, e: Event)
    requires DeriveEvent(runId, d, e).Some? && !e.OperationIntended?
    ensures var d' := DeriveEvent(runId, d, e).value;
            && d'.ordinals.agentAttempts == d.ordinals.agentAttempts
            && d'.ordinals.operationAttempts == d.ordinals.operationAttempts
  {
  }

  lemma IntendedOrdinals(runId: string, intents: seq<Intent>, after: seq<Intent>, d: Derived, intent: Intent)
    requires AgentsTold(intents, d.ordinals.agentAttempts) && AttemptsTold(intents, d.ordinals.operationAttempts)
    requires after == intents + [intent]
    ensures AgentsTold(after, DeriveIntended(d, intent).ordinals.agentAttempts)
    ensures AttemptsTold(after, DeriveIntended(d, intent).ordinals.operationAttempts)
  {
    AgentsAfter(intents, d, intent);
    AttemptsAfter(intents, d, intent);
  }

  lemma IntentsKept(es: seq<Event>, e: Event)
    ensures Intents(es + [e]) == if e.OperationIntended? then Intents(es) + [e.intent] else Intents(es)
  {
    OperationOrder.ViewsAppend(es, e);
    assert Intents(es) + [] == Intents(es);
  }

  lemma OrdinalsAfter(runId: string, es: seq<Event>, d: Derived, e: Event)
    requires OrdinalsTold(es, d) && DeriveEvent(runId, d, e).Some?
    ensures OrdinalsTold(es + [e], DeriveEvent(runId, d, e).value)
  {
    IntentsKept(es, e);
    if e.OperationIntended? {
      IntendedOrdinals(runId, Intents(es), Intents(es + [e]), d, e.intent);
    } else {
      OtherOrdinals(runId, d, e);
    }
  }

  lemma {:induction false} DerivedOrdinals(runId: string, es: seq<Event>, storedBytes: int)
    requires Derive(runId, es, storedBytes).Some?
    ensures OrdinalsTold(es, Derive(runId, es, storedBytes).value)
  {
    if es != [] {
      var front, e := es[..|es| - 1], es[|es| - 1];
      assert es == front + [e];
      DeriveStep(runId, front, e, storedBytes);
      DerivedOrdinals(runId, front, storedBytes);
      OrdinalsAfter(runId, front, Derive(runId, front, storedBytes).value, e);
    }
  }

  // ----- Executions, keys and calls.

  function ChildOf(digest: Digest, n: nat): Event -> bool {
    (e: Event) => e.FrameOpened? && e.opening.parent.Some? && e.opening.frameId.tail == ExecutionTail(digest, n)
  }

  ghost predicate ChildrenNamed(runId: string, es: seq<Event>, d: Derived) {
    forall f <- d.progression.childFrames :: ExecutionNamed(runId, f)
  }

  /** The greatest ordinal of a recurse call's child frames. */
  ghost predicate ExecutionsTold(runId: string, es: seq<Event>, d: Derived) {
    && (forall digest, n {:trigger ChildOf(digest, n)} ::
          Any(es, ChildOf(digest, n)) <==> FrameId(runId, ExecutionTail(digest, n)) in d.progression.childFrames)
    && (forall digest <- d.ordinals.recurseExecutions :: Any(es, ChildOf(digest, d.ordinals.recurseExecutions[digest])))
    && (forall digest, n {:trigger ChildOf(digest, n)} :: Any(es, ChildOf(digest, n)) ==>
          digest in d.ordinals.recurseExecutions && 1 <= n <= d.ordinals.recurseExecutions[digest])
  }

  lemma OpenedOnly(runId: string, d: Derived, e: Event)
    requires DeriveEvent(runId, d, e).Some? && !e.FrameOpened?
    ensures var d' := DeriveEvent(runId, d, e).value;
            && d'.progression.childFrames == d.progression.childFrames
            && d'.ordinals.recurseExecutions == d.ordinals.recurseExecutions
  {
  }

  lemma AnyChild(es: seq<Event>, e: Event)
    ensures forall digest, n {:trigger ChildOf(digest, n)} ::
              Any(es + [e], ChildOf(digest, n)) <==> Any(es, ChildOf(digest, n)) || ChildOf(digest, n)(e)
  {
    forall digest, n
      ensures Any(es + [e], ChildOf(digest, n)) <==> Any(es, ChildOf(digest, n)) || ChildOf(digest, n)(e)
    {
      AnyAppend(es, e, ChildOf(digest, n));
    }
  }

  lemma RepeatedChild(runId: string, es: seq<Event>, d: Derived, e: Event)
    requires ExecutionsTold(runId, es, d) && ChildrenNamed(runId, es, d)
    requires e.FrameOpened? && (e.opening.parent.None? || e.opening.frameId in d.progression.childFrames)
    ensures ExecutionsTold(runId, es + [e], d)
  {
    AnyChild(es, e);
    forall digest, n | ChildOf(digest, n)(e) ensures Any(es, ChildOf(digest, n)) {
      assert e.opening.frameId == FrameId(runId, ExecutionTail(digest, n));
    }
  }

  lemma NewChild(runId: string, es: seq<Event>, d: Derived, d': Derived, e: Event, digest: Digest, ordinal: nat)
    requires ExecutionsTold(runId, es, d) && e.FrameOpened? && e.opening.parent.Some? && ordinal >= 1
    requires e.opening.frameId == FrameId(runId, ExecutionTail(digest, ordinal))
    requires d'.progression.childFrames == d.progression.childFrames + {e.opening.frameId}
    requires d'.ordinals.recurseExecutions == d.ordinals.recurseExecutions[digest :=
               Max(GetOr(d.ordinals.recurseExecutions, digest, 0), ordinal)]
    ensures ExecutionsTold(runId, es + [e], d')
  {
    AnyChild(es, e);
    assert ChildOf(digest, ordinal)(e);
    if digest in d.ordinals.recurseExecutions { assert Any(es, ChildOf(digest, d.ordinals.recurseExecutions[digest])); }
    forall x | x in d'.ordinals.recurseExecutions ensures Any(es + [e], ChildOf(x, d'.ordinals.recurseExecutions[x])) {
      if x != digest { assert Any(es, ChildOf(x, d.ordinals.recurseExecutions[x])); }
    }
  }

  lemma OpenedAfter(runId: string, es: seq<Event>, d: Derived, o: Opened)
    requires ExecutionsTold(runId, es, d) && ChildrenNamed(runId, es, d) && DeriveOpened(runId, d, o).Some?
    ensures ExecutionsTold(runId, es + [FrameOpened(o)], DeriveOpened(runId, d, o).value)
    ensures ChildrenNamed(runId, es + [FrameOpened(o)], DeriveOpened(runId, d, o).value)
  {
    if o.parent.None? || o.frameId in d.progression.childFrames {
      RepeatedChild(runId, es, d, FrameOpened(o));
    } else {
      NewChild(runId, es, d, DeriveOpened(runId, d, o).value, FrameOpened(o), o.frameId.tail.digest, o.frameId.tail.ordinal);
    }
  }

  lemma ExecutionsAfter(runId: string, es: seq<Event>, d: Derived, e: Event)
    requires ExecutionsTold(runId, es, d) && ChildrenNamed(runId, es, d) && DeriveEvent(runId, d, e).Some?
    ensures ExecutionsTold(runId, es + [e], DeriveEvent(runId, d, e).value)
    ensures ChildrenNamed(runId, es + [e], DeriveEvent(runId, d, e).value)
  {
    if e.FrameOpened? {
      OpenedAfter(runId, es, d, e.opening);
    } else {
      OpenedOnly(runId, d, e);
      AnyChild(es, e);
    }
  }

  lemma {:induction false} DerivedExecutions(runId: string, es: seq<Event>, storedBytes: int)
    requires Derive(runId, es, storedBytes).Some?
    ensures ExecutionsTold(runId, es, Derive(runId, es, storedBytes).value)
    ensures ChildrenNamed(runId, es, Derive(runId, es, storedBytes).value)
  {
    if es != [] {
      var front, e := es[..|es| - 1], es[|es| - 1];
      assert es == front + [e];
      DeriveStep(runId, front, e, storedBytes);
      DerivedExecutions(runId, front, storedBytes);
      ExecutionsAfter(runId, front, Derive(runId, front, storedBytes).value, e);
    }
  }

  /** A binding's key in the rebuilt registry: recurse keys are scoped by the lineage of their frame. */
  ghost predicate Binds(runId: string, e: Event, id: RegistryId) {
    e.KeyBound? && RegistryIdOf(runId, e.binding.kind, e.binding.key, e.binding.frameId) == Option.Some(id)
  }

  /** A key is rebuilt with the identity under which all of its bindings were made. */
  ghost predicate KeysTold(runId: string, es: seq<Event>, keys: map<RegistryId, string>) {
    && (forall id <- keys :: exists e <- es :: Binds(runId, e, id))
    && (forall e, id {:trigger Binds(runId, e, id)} | e in es && Binds(runId, e, id) ::
          id in keys && keys[id] == e.binding.identityHash)
  }

  lemma KeyAfter(runId: string, es: seq<Event>, d: Derived, b: KeyBinding)
    requires KeysTold(runId, es, d.keys) && DeriveKey(runId, d, b).Some?
    ensures KeysTold(runId, es + [KeyBound(b)], DeriveKey(runId, d, b).value.keys)
  {
    var d', all := DeriveKey(runId, d, b).value, es + [KeyBound(b)];
    var bound := RegistryIdOf(runId, b.kind, b.key, b.frameId);
    assert bound.Some? && d'.keys == d.keys[bound.value := b.identityHash];
    forall id | id in d'.keys ensures exists e <- all :: Binds(runId, e, id) {
      if id == bound.value {
        assert KeyBound(b) in all && Binds(runId, KeyBound(b), id);
      } else {
        var e :| e in es && Binds(runId, e, id);
        assert e in all;
      }
    }
  }

  lemma KeysAfter(runId: string, es: seq<Event>, d: Derived, e: Event)
    requires KeysTold(runId, es, d.keys) && DeriveEvent(runId, d, e).Some?
    ensures KeysTold(runId, es + [e], DeriveEvent(runId, d, e).value.keys)
  {
    if e.KeyBound? {
      KeyAfter(runId, es, d, e.binding);
    } else {
      forall id | id in d.keys ensures exists x <- es + [e] :: Binds(runId, x, id) {
        var x :| x in es && Binds(runId, x, id);
        assert x in es + [e];
      }
    }
  }

  lemma {:induction false} DerivedKeys(runId: string, es: seq<Event>, storedBytes: int)
    requires Derive(runId, es, storedBytes).Some?
    ensures KeysTold(runId, es, Derive(runId, es, storedBytes).value.keys)
  {
    if es != [] {
      var front, e := es[..|es| - 1], es[|es| - 1];
      assert es == front + [e];
      DeriveStep(runId, front, e, storedBytes);
      DerivedKeys(runId, front, storedBytes);
      KeysAfter(runId, front, Derive(runId, front, storedBytes).value, e);
    }
  }

  function CallOf(c: CallId): Event -> bool { (e: Event) => e.CallCommitted? && e.call.callId == c }

  /** Of each call the last commitment counts. */
  ghost predicate CallsTold(es: seq<Event>, calls: map<CallId, Call>) {
    && (forall c {:trigger CallOf(c)} :: c in calls <==> Any(es, CallOf(c)))
    && (forall c <- calls :: Last(es, CallCommitted(calls[c]), CallOf(c)))
  }

  lemma CallsAfter(runId: string, es: seq<Event>, d: Derived, e: Event)
    requires CallsTold(es, d.calls) && DeriveEvent(runId, d, e).Some?
    ensures CallsTold(es + [e], DeriveEvent(runId, d, e).value.calls)
  {
    var calls := DeriveEvent(runId, d, e).value.calls;
    assert calls == if e.CallCommitted? then d.calls[e.call.callId := e.call] else d.calls;
    forall c
      ensures c in calls <==> Any(es + [e], CallOf(c))
      ensures c in calls ==> Last(es + [e], CallCommitted(calls[c]), CallOf(c))
    {
      AnyAppend(es, e, CallOf(c));
      assert c in d.calls <==> Any(es, CallOf(c));
      if c in calls { LastAppend(es, e, CallCommitted(calls[c]), CallOf(c)); }
    }
  }

  lemma {:induction false} DerivedCalls(runId: string, es: seq<Event>, storedBytes: int)
    requires Derive(runId, es, storedBytes).Some?
    ensures CallsTold(es, Derive(runId, es, storedBytes).value.calls)
  {
    if es != [] {
      var front, e := es[..|es| - 1], es[|es| - 1];
      assert es == front + [e];
      DeriveStep(runId, front, e, storedBytes);
      DerivedCalls(runId, front, storedBytes);
      CallsAfter(runId, front, Derive(runId, front, storedBytes).value, e);
    }
  }
}
