/**
 * Which events may follow a journal, stated over its events alone (src/runtime/run-recovery-journal.ts). The strict fold
 * accepts exactly the journals in which every event may follow those before it.
 */
module JournalGrammar {
  import opened Wrappers
  import opened Decimals
  import opened Usage
  import opened Journal
  import opened RecoveryJournal
  import opened JournalContents
  import opened OperationDiscipline
  import opened OperationOrder
  import JournalLimits

  // ----- What a journal says.

  ghost predicate TerminatedIn(es: seq<Event>) { exists e <- es :: e.RunTerminal? }

  ghost predicate OpenedIn(es: seq<Event>, f: FrameId) { exists o :: FrameOpened(o) in es && o.frameId == f }

  ghost predicate ClosedIn(es: seq<Event>, f: FrameId) { exists state :: FrameClosed(f, state) in es }

  ghost predicate OpenIn(es: seq<Event>, f: FrameId) { OpenedIn(es, f) && !ClosedIn(es, f) }

  function CellsIn(es: seq<Event>, f: FrameId): set<nat> {
    set e <- es | e.CellCommitted? && e.cell.frameId == f :: e.cell.iteration
  }

  function TurnsIn(es: seq<Event>): set<(FrameId, nat)> {
    set e <- es | e.CellCommitted? :: (e.cell.frameId, e.cell.iteration)
  }

  function ChildrenIn(es: seq<Event>): set<FrameId> {
    set e <- es | e.FrameOpened? && e.opening.parent.Some? :: e.opening.frameId
  }

  /** Child frames and the logical calls that intents reserve. */
  function CallsIn(es: seq<Event>): nat { |ChildrenIn(es)| + JournalLimits.LogicalCalls(Intents(es)) }

  function SettledIds(es: seq<Event>): set<IntentId> { set e <- es | e.OperationSettled? :: e.settlement.intentId }

  function ReservedIn(es: seq<Event>): int { UnsettledTokens(Intents(es), SettledIds(es)) }

  function UsedIn(es: seq<Event>): int { UsedTokens(Settlements(es)) }

  function ControllersIn(es: seq<Event>): set<OperationId> {
    set e <- es | e.OperationIntended? && e.intent.identity.kind == ControllerKind :: e.intent.identity.operationId
  }

  ghost predicate SettledAs(es: seq<Event>, id: IntentId, x: Settlement) { OperationSettled(x) in es && x.intentId == id }

  /** The settlement of an attempt, if there is one. */
  ghost function SettlementIn(es: seq<Event>, id: IntentId): Option<Settlement> {
    if x :| SettledAs(es, id, x) then Some(x) else None
  }

  ghost function UsagesIn(es: seq<Event>, attempts: seq<Intent>): seq<CallUsage> {
    seq(|attempts|, k requires 0 <= k < |attempts| =>
      match SettlementIn(es, attempts[k].intentId) case Some(x) => x.usage case None => ZERO_CALL_USAGE)
  }

  ghost predicate BoundIn(runId: string, es: seq<Event>, id: RegistryId, b: KeyBinding) {
    KeyBound(b) in es && RegistryIdOf(runId, b.kind, b.key, b.frameId) == Some(id)
  }

  /** The call id that a key binding of the journal authorizes. */
  ghost predicate CallAuthorizedIn(m: Manifest, es: seq<Event>, kind: CallKind, key: string, id: CallId) {
    exists b :: BoundIn(m.runId, es, GlobalKey(kind, key), b) && id == CallId(kind, CallDigest(m.runId, kind, key, b.identityHash))
  }

  // ----- What may follow.

  ghost predicate OpeningAdmitted(m: Manifest, es: seq<Event>, o: Opened)
    requires m.objective.Some?
  {
    && o.frameId.runId == m.runId
    && (FrameOpened(o) in es
        || (&& !OpenedIn(es, o.frameId)
            && match o.parent
               case None => o.frameId == m.Root() && o.depth == 0 && o.objective == m.objective.value
               case Some(parent) =>
                 && OpenIn(es, parent)
                 && (exists p :: FrameOpened(p) in es && p.frameId == parent && o.depth == p.depth + 1)
                 && o.depth <= m.limits.maxDepth && |ChildrenIn(es)| + 1 <= m.limits.maxFrames
                 && CallsIn(es) + 1 <= m.limits.maxLogicalCalls))
  }

  ghost predicate ProgressAdmitted(es: seq<Event>, p: Progress) {
    && p.iteration == |CellsIn(es, p.frameId)| + 1
    && forall q :: ProgressMade(q) in es && q.frameId == p.frameId && q.iteration == p.iteration && q.ordinal == p.ordinal
         ==> q == p
  }

  ghost predicate WorkspaceAdmitted(es: seq<Event>, w: Workspace) {
    && w.iteration == |CellsIn(es, w.frameId)| + 1
    && (WorkspaceCommitted(w) in es
        || (w.content.Complete()
            && forall v :: WorkspaceCommitted(v) in es ==> v.frameId != w.frameId || v.iteration != w.iteration))
  }

  /** A cell's controller made one logical call and all of it has settled; without a provider there is no operation. */
  ghost predicate ControllerDone(es: seq<Event>, attempts: seq<Intent>) {
    attempts != [] ==>
      && attempts[0].identity.kind == ControllerKind && LastLogicalCall(attempts) == attempts
      && attempts[|attempts| - 1].intentId in SettledIds(es)
  }

  ghost predicate CellAdmitted(m: Manifest, es: seq<Event>, c: Cell) {
    var attempts := Of(Intents(es), OpKey(c.frameId, ControllerOperation(c.frameId, c.iteration)));
    && c.iteration <= m.limits.maxControllerTurns
    && (CellCommitted(c) in es
        || (&& c.iteration !in CellsIn(es, c.frameId) && c.iteration == |CellsIn(es, c.frameId)| + 1
            && |TurnsIn(es)| + 1 <= m.limits.maxControllerTurns
            && ControllerDone(es, attempts) && c.usage.GetOr(ZERO_CALL_USAGE) == SumUsage(UsagesIn(es, attempts))
            && (c.output.id.Some? ==> c.output.Complete())))
  }

  ghost predicate BindingAdmitted(m: Manifest, es: seq<Event>, b: KeyBinding) {
    var id := RegistryIdOf(m.runId, b.kind, b.key, b.frameId);
    id.Some? && forall c :: BoundIn(m.runId, es, id.value, c) ==> c == b
  }

  ghost predicate ApprovalAdmitted(es: seq<Event>, a: Approval) {
    forall b :: AgentApproval(b) in es && b.frameId == a.frameId && b.callId == a.callId ==> b == a
  }

  ghost predicate BudgetAdmits(m: Manifest, es: seq<Event>, i: IntentIdentity) {
    var r := i.reservation;
    && |Intents(es)| + r.attempts <= m.limits.maxAttempts && CallsIn(es) + r.logicalCalls <= m.limits.maxLogicalCalls
    && ReservedIn(es) + r.tokens <= MAX_SAFE_INTEGER
    && (m.limits.tokenLimit.Some? ==> UsedIn(es) + ReservedIn(es) + r.tokens <= m.limits.tokenLimit.value)
    && (i.version == ProviderRequest <==> r.tokens > 0)
  }

  ghost predicate AuthorizedIn(m: Manifest, es: seq<Event>, i: IntentIdentity) {
    match i.kind
    case ControllerKind =>
      var iteration := |CellsIn(es, i.frameId)| + 1;
      && i.operationId == ControllerOperation(i.frameId, iteration) && i.key == Decimal(iteration)
      && i.version == ProviderRequest && |ControllersIn(es) + {i.operationId}| <= m.limits.maxControllerTurns
    case ExtractorKind =>
      && i.frameId == m.Root() && i.operationId == ExtractorOperation(m.runId) && m.extractorConfigured
      && exists p :: FallbackProjected(p) in es && p.frameId == i.frameId && p.projectionHash == i.key
    case LlmKind =>
      && i.operationId.CallOperation? && CallAuthorizedIn(m, es, LlmCall, i.key, i.operationId.callId)
      && i.version == ProviderRequest
    case AgentKind =>
      && i.operationId.CallOperation? && CallAuthorizedIn(m, es, AgentCall, i.key, i.operationId.callId)
      && i.version == AgentRequest
      && exists a :: AgentApproval(a) in es && a.frameId == i.frameId && a.callId == i.operationId.callId
                     && a.decision != Denied
  }

  /** The next attempt of its operation: numbered so, of the same kind and key, after the last one has settled. */
  ghost predicate FollowsIn(es: seq<Event>, i: IntentIdentity) {
    var attempts := Of(Intents(es), OpKey(i.frameId, i.operationId));
    && i.attempt == |attempts| + 1
    && (attempts == [] || i.kind == AgentKind ==> i.reservation.logicalCalls == 1)
    && (attempts != [] ==>
          && attempts[0].identity.kind == i.kind && attempts[0].identity.key == i.key
          && attempts[|attempts| - 1].intentId in SettledIds(es))
  }

  ghost predicate IntentAdmitted(m: Manifest, es: seq<Event>, intent: Intent) {
    var i := intent.identity;
    && i.runId == m.runId && (forall j :: OperationIntended(j) in es ==> j.intentId != intent.intentId)
    && BudgetAdmits(m, es, i) && AuthorizedIn(m, es, i) && FollowsIn(es, i)
  }

  /** An unsettled attempt of this frame, and usages of its logical call so far onto which the usage fits. */
  ghost predicate SettlementAdmitted(m: Manifest, es: seq<Event>, e: Settlement) {
    && e.runId == m.runId && e.intentId !in SettledIds(es)
    && Within(e.usage, CALL_USAGE_LIMITS)
    && (e.usage.totalTokens.Some? ==> e.usage.Input() + e.usage.Output() <= e.usage.totalTokens.value)
    && UsedIn(es) + e.usage.Tokens() <= MAX_SAFE_INTEGER
    && exists i :: OperationIntended(i) in es && i.intentId == e.intentId && i.identity.frameId == e.frameId
                   && SumFits(es, Of(Intents(es), i.OperationKey()), e.usage)
  }

  ghost predicate SumFits(es: seq<Event>, attempts: seq<Intent>, usage: CallUsage) {
    var call := LastLogicalCall(attempts);
    call != [] && Within(Plus(SumUsage(UsagesIn(es, call[..|call| - 1])), usage), ADD_USAGE_LIMITS)
  }

  ghost predicate AllSettledIn(es: seq<Event>) { forall i :: OperationIntended(i) in es ==> i.intentId in SettledIds(es) }

  ghost predicate RecursesIn(es: seq<Event>, c: CallId) {
    var executions := Executions(es, c);
    executions != [] && executions[|executions| - 1].kind == RecurseCall
  }

  ghost predicate ExecutionIn(es: seq<Event>, f: FrameId, call: Call) {
    && (exists o :: FrameOpened(o) in es && o.frameId == f && o.parent == Some(call.frameId))
    && call.kind == RecurseCall && (call.ok <==> FrameClosed(f, Answered) in es)
  }

  ghost predicate EachExecutionIn(m: Manifest, es: seq<Event>, c: CallId)
    requires c.CallId?
  {
    forall n {:trigger Execution(m, c.digest, n)} :: 1 <= n <= |Executions(es, c)| ==>
      ExecutionIn(es, Execution(m, c.digest, n), Executions(es, c)[n - 1])
  }

  /** Every child frame is closed and one of its call's executions, and every execution has its child frame. */
  ghost predicate ExecutionsMatchIn(m: Manifest, es: seq<Event>) {
    && (forall o :: FrameOpened(o) in es && o.parent.Some? ==>
          && o.frameId.runId == m.runId && o.frameId.tail.ExecutionTail? && ClosedIn(es, o.frameId)
          && RecursesIn(es, CallId(RecurseCall, o.frameId.tail.digest))
          && 1 <= o.frameId.tail.ordinal <= |Executions(es, CallId(RecurseCall, o.frameId.tail.digest))|)
    && (forall c {:trigger RecursesIn(es, c)} | RecursesIn(es, c) ::
          c.CallId? && c.kind == RecurseCall && EachExecutionIn(m, es, c))
  }

  ghost predicate CheckpointAdmitted(m: Manifest, es: seq<Event>, c: Checkpoint) {
    && c.runId == m.runId && c.manifestHash == m.manifestHash && c.frameId == m.Root()
    && c.sequence == Checkpoints(es) + 1 && c.nextIteration == |CellsIn(es, m.Root())| + 1
    && c.nextControllerTurn == |TurnsIn(es)| + 1 && AllSettledIn(es)
    && (forall f :: OpenIn(es, f) <==> f == m.Root()) && ExecutionsMatchIn(m, es) && c.content.Complete()
  }

  /** A call of a model or an agent reports how its last logical call ended and the sum of what it settled. */
  ghost predicate BackedIn(m: Manifest, es: seq<Event>, c: Call) {
    var attempts := Of(Intents(es), OpKey(c.frameId, CallOperation(c.callId)));
    && CallAuthorizedIn(m, es, c.kind, c.key, c.callId)
    && attempts != [] && attempts[0].identity.kind == (if c.kind == LlmCall then LlmKind else AgentKind)
    && var settlement := SettlementIn(es, attempts[|attempts| - 1].intentId);
       && settlement.Some? && (c.ok <==> settlement.value.outcome == OutcomeOk)
       && c.usage == SumUsage(UsagesIn(es, LastLogicalCall(attempts)))
  }

  /** A failed execution may be repeated under the same kind and key; a recurse call's only by the same frame. */
  predicate Repeats(failed: Call, c: Call) {
    && !failed.ok && failed.kind == c.kind && failed.key == c.key
    && (failed.frameId == c.frameId || c.kind in {LlmCall, AgentCall})
  }

  ghost predicate CallAdmitted(m: Manifest, es: seq<Event>, c: Call) {
    var id := RegistryIdOf(m.runId, c.kind, c.key, c.frameId);
    var executions := Executions(es, c.callId);
    && id.Some? && (exists b :: BoundIn(m.runId, es, id.value, b)) && !c.cached
    && ((executions != [] && c.kind != RecurseCall && executions[|executions| - 1] == c)
        || (&& (executions != [] ==> Repeats(executions[|executions| - 1], c))
            && (c.kind == LlmCall || c.kind == AgentCall ==> BackedIn(m, es, c))
            && c.output.Complete()))
  }

  ghost predicate AnswerAdmitted(es: seq<Event>, a: Answer) {
    AnswerCommitted(a) in es
    || (&& (forall b :: AnswerCommitted(b) in es ==> b.frameId != a.frameId)
        && (a.mode == AnswerMode ==>
              exists c :: CellCommitted(c) in es && c.frameId == a.frameId && c.iteration == |CellsIn(es, a.frameId)|
                          && c.output == a.output)
        && (a.mode == FallbackExtract ==>
              && (exists p :: FallbackProjected(p) in es && p.frameId == a.frameId)
              && (exists c :: FallbackCited(c) in es && c.frameId == a.frameId))
        && a.output.Complete())
  }

  ghost predicate ClosingAdmitted(es: seq<Event>, f: FrameId, state: FrameState) {
    state != Open && forall o :: FrameOpened(o) in es && o.parent == Some(f) ==> ClosedIn(es, o.frameId)
  }

  ghost predicate ProjectionAdmitted(m: Manifest, es: seq<Event>, p: Projection) {
    && p.frameId == m.Root() && p.projectedBytes <= p.maxBytes
    && (p.truncated <==> p.omittedBytes > 0 || p.omittedItems > 0 || p.truncatedItems > 0)
    && (forall q :: FallbackProjected(q) in es ==> q.frameId != p.frameId)
    && (forall a :: AnswerCommitted(a) in es ==> a.frameId != p.frameId)
  }

  ghost predicate CitationAdmitted(m: Manifest, es: seq<Event>, c: Citation) {
    && c.frameId == m.Root() && (forall d :: FallbackCited(d) in es ==> d.frameId != c.frameId)
    && (forall i, j | 0 <= i < j < |c.evidenceRefs| :: c.evidenceRefs[i] != c.evidenceRefs[j])
    && c.evidenceRefsHash == RefsDigest(c.evidenceRefs)
    && exists p :: FallbackProjected(p) in es && p.frameId == c.frameId && |c.evidenceRefs| <= p.evidenceIdCount
  }

  /** The event may follow the journal. */
  ghost predicate Admitted(m: Manifest, es: seq<Event>, e: Event)
    requires m.objective.Some?
  {
    && !TerminatedIn(es) && !e.RunStarted?
    && (e.Frame().Some? ==> OpenIn(es, e.Frame().value))
    && match e
       case RunTerminal(t) => t.runId == m.runId
       case FrameOpened(o) => OpeningAdmitted(m, es, o)
       case ProgressMade(p) => ProgressAdmitted(es, p)
       case KeyBound(b) => BindingAdmitted(m, es, b)
       case AgentApproval(a) => ApprovalAdmitted(es, a)
       case CellCommitted(c) => CellAdmitted(m, es, c)
       case WorkspaceCommitted(w) => WorkspaceAdmitted(es, w)
       case FallbackProjected(p) => ProjectionAdmitted(m, es, p)
       case FallbackCited(c) => CitationAdmitted(m, es, c)
       case OperationIntended(i) => IntentAdmitted(m, es, i)
       case OperationSettled(x) => SettlementAdmitted(m, es, x)
       case CheckpointCommitted(c) => CheckpointAdmitted(m, es, c)
       case CallCommitted(c) => CallAdmitted(m, es, c)
       case AnswerCommitted(a) => AnswerAdmitted(es, a)
       case FrameClosed(f, state) => ClosingAdmitted(es, f, state)
       case RunStarted(_, _, _, _) => false
  }

  /** The event names another run, manifest or frame than its own. */
  predicate Misnamed(m: Manifest, e: Event) {
    match e
    case RunTerminal(t) => t.runId != m.runId
    case OperationIntended(i) => i.identity.runId != m.runId
    case OperationSettled(x) => x.runId != m.runId
    case CheckpointCommitted(c) => c.runId != m.runId || c.manifestHash != m.manifestHash || c.frameId != m.Root()
    case _ => false
  }

  /** Why an event that may not follow is refused. */
  ghost function RefusalCode(m: Manifest, es: seq<Event>, e: Event): RecoveryCode {
    if !TerminatedIn(es) && (e.Frame().Some? ==> OpenIn(es, e.Frame().value)) && Misnamed(m, e) then IdentityMismatch
    else SemanticCorruption
  }
}
