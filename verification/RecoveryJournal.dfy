/** The strict semantic fold over one recovery journal (src/runtime/run-recovery-journal.ts). */
module RecoveryJournal {
  import opened Wrappers
  import opened Decimals
  import opened Usage
  import opened Budget
  import opened Journal

  datatype RecoveryCode = SemanticCorruption | IdentityMismatch | Ambiguous | TerminalInconsistent

  datatype ManifestInput = ManifestInput(name: string, sha256: string, bytes: nat)

  /** `objective` is absent when the stored program cannot be normalized. */
  datatype Manifest = Manifest(
    runId: string, manifestHash: string, limits: Limits, inputs: seq<ManifestInput>,
    objective: Option<string>, extractorConfigured: bool)
  {
    function Root(): FrameId { RootFrame(runId) }
  }

  /** Consecutive attempts charged to one logical call. */
  datatype Segment = Segment(intents: seq<Intent>, outcomes: seq<Settlement>, usage: CallUsage) {
    predicate Complete() { |outcomes| == |intents| }
  }

  datatype Operation = Operation(
    kind: OperationKind, key: string, segments: seq<Segment>, lastAttempt: nat, lastIntentId: IntentId)

  datatype Attempt = Attempt(operation: OperationKey, segment: nat)

  datatype FrameRecord = FrameRecord(
    opening: Opened,
    cells: map<nat, Cell>,
    workspaces: map<nat, Workspace>,
    progress: map<(nat, nat), Progress>,
    answer: Option<Answer>,
    projection: Option<Projection>,
    citation: Option<Citation>,
    closed: Option<FrameState>)

  /** Key bindings and agent approvals. */
  datatype Registry = Registry(keys: map<RegistryId, KeyBinding>, approvals: map<(FrameId, CallId), Approval>)

  /** External operations. */
  datatype Book = Book(
    intents: map<IntentId, Intent>,
    settlements: map<IntentId, Settlement>,
    attemptRecords: map<IntentId, Attempt>,
    operations: map<OperationKey, Operation>,
    controllerOperations: set<OperationId>)

  datatype Totals = Totals(
    committedControllerTurns: nat,
    logicalCalls: nat,
    attempts: nat,
    tokensReserved: int,
    tokensUsed: int,
    childFrames: nat,
    checkpointSequence: nat)

  datatype FoldState = FoldState(
    frames: map<FrameId, FrameRecord>,
    cells: map<(FrameId, nat), Cell>,
    calls: map<CallId, seq<Call>>,
    registry: Registry,
    book: Book,
    totals: Totals,
    terminal: Option<Terminal>)

  const EMPTY_FOLD :=
    FoldState(map[], map[], map[], Registry(map[], map[]), Book(map[], map[], map[], map[], {}),
              Totals(0, 0, 0, 0, 0, 0, 0), None)

  type Step = Result<FoldState, RecoveryCode>

  /** Register an event under a key; a second event under the same key must be identical. */
  function RememberExact<K, V(==)>(registry: map<K, V>, key: K, event: V): Result<map<K, V>, RecoveryCode> {
    if key !in registry then Ok(registry[key := event])
    else if registry[key] == event then Ok(registry)
    else Err(SemanticCorruption)
  }

  function RequireFrame(s: FoldState, frameId: FrameId): Result<FrameRecord, RecoveryCode> {
    if frameId !in s.frames || s.frames[frameId].closed.Some? then Err(SemanticCorruption)
    else Ok(s.frames[frameId])
  }

  function SetFrame(s: FoldState, frameId: FrameId, frame: FrameRecord): FoldState {
    s.(frames := s.frames[frameId := frame])
  }

  function StepTerminal(m: Manifest, s: FoldState, t: Terminal): Step {
    if t.runId != m.runId then Err(IdentityMismatch) else Ok(s.(terminal := Some(t)))
  }

  function StepFrameOpened(m: Manifest, s: FoldState, o: Opened): Step
    requires m.objective.Some?
  {
    if o.frameId.runId != m.runId then Err(SemanticCorruption)
    else if o.frameId in s.frames then
      if s.frames[o.frameId].opening == o then Ok(s) else Err(SemanticCorruption)
    else
      var record := FrameRecord(o, map[], map[], map[], None, None, None, None);
      if o.parent.None? then
        if o.frameId != m.Root() || o.depth != 0 || o.objective != m.objective.value then Err(SemanticCorruption)
        else Ok(SetFrame(s, o.frameId, record))
      else
        var parent :- RequireFrame(s, o.parent.value);
        if o.depth != parent.opening.depth + 1 || o.depth > m.limits.maxDepth
           || s.totals.childFrames + 1 > m.limits.maxFrames || s.totals.logicalCalls + 1 > m.limits.maxLogicalCalls then
          Err(SemanticCorruption)
        else
          Ok(SetFrame(s, o.frameId, record).(totals :=
               s.totals.(childFrames := s.totals.childFrames + 1, logicalCalls := s.totals.logicalCalls + 1)))
  }

  function StepProgress(s: FoldState, frame: FrameRecord, p: Progress): Step {
    var progress :- RememberExact(frame.progress, (p.iteration, p.ordinal), p);
    if p.iteration != |frame.cells| + 1 then Err(SemanticCorruption)
    else Ok(SetFrame(s, p.frameId, frame.(progress := progress)))
  }

  function StepWorkspace(s: FoldState, frame: FrameRecord, w: Workspace): Step {
    if w.iteration != |frame.cells| + 1 then Err(SemanticCorruption)
    else
      var workspaces :- RememberExact(frame.workspaces, w.iteration, w);
      if w.iteration !in frame.workspaces && !w.content.Complete() then Err(SemanticCorruption)
      else Ok(SetFrame(s, w.frameId, frame.(workspaces := workspaces)))
  }

  /** The segment of a cell's controller operation, absent when no provider served the turn. */
  predicate ControllerComplete(controller: Operation) {
    && controller.kind == ControllerKind
    && |controller.segments| == 1
    && controller.segments[0].Complete()
  }

  function ControllerUsage(s: FoldState, c: Cell): CallUsage {
    var key := OpKey(c.frameId, ControllerOperation(c.frameId, c.iteration));
    if key in s.book.operations && |s.book.operations[key].segments| > 0 then
      var segments := s.book.operations[key].segments;
      segments[|segments| - 1].usage
    else ZERO_CALL_USAGE
  }

  function StepCell(m: Manifest, s: FoldState, frame: FrameRecord, c: Cell): Step {
    if c.iteration > m.limits.maxControllerTurns then Err(SemanticCorruption)
    else
      var cells :- RememberExact(s.cells, (c.frameId, c.iteration), c);
      if (c.frameId, c.iteration) in s.cells then Ok(s)
      else
        var controller := OpKey(c.frameId, ControllerOperation(c.frameId, c.iteration));
        if s.totals.committedControllerTurns + 1 > m.limits.maxControllerTurns
           || c.iteration != |frame.cells| + 1
           || (controller in s.book.operations && !ControllerComplete(s.book.operations[controller]))
           || c.usage.GetOr(ZERO_CALL_USAGE) != ControllerUsage(s, c)
           || (c.output.id.Some? && !c.output.Complete()) then Err(SemanticCorruption)
        else
          Ok(SetFrame(s, c.frameId, frame.(cells := frame.cells[c.iteration := c]))
             .(cells := cells, totals := s.totals.(committedControllerTurns := s.totals.committedControllerTurns + 1)))
  }

  function StepKeyBound(m: Manifest, s: FoldState, b: KeyBinding): Step {
    match RegistryIdOf(m.runId, b.kind, b.key, b.frameId)
    case None => Err(SemanticCorruption)
    case Some(id) =>
      var keys :- RememberExact(s.registry.keys, id, b);
      Ok(s.(registry := s.registry.(keys := keys)))
  }

  function StepApproval(s: FoldState, a: Approval): Step {
    var approvals :- RememberExact(s.registry.approvals, (a.frameId, a.callId), a);
    Ok(s.(registry := s.registry.(approvals := approvals)))
  }

  /** The content-addressed call id that a durable key binding authorizes. */
  function AuthorizedCallId(m: Manifest, s: FoldState, kind: CallKind, key: string): Option<CallId> {
    if GlobalKey(kind, key) !in s.registry.keys then None
    else Some(CallId(kind, CallDigest(m.runId, kind, key, s.registry.keys[GlobalKey(kind, key)].identityHash)))
  }

  predicate ReservationAllowed(m: Manifest, s: FoldState, i: IntentIdentity) {
    var r := i.reservation;
    && s.totals.attempts + r.attempts <= m.limits.maxAttempts
    && s.totals.logicalCalls + r.logicalCalls <= m.limits.maxLogicalCalls
    && s.totals.tokensReserved <= MAX_SAFE_INTEGER - r.tokens
    && (m.limits.tokenLimit.Some? ==> s.totals.tokensUsed <= m.limits.tokenLimit.value - (s.totals.tokensReserved + r.tokens))
    && (i.version == AgentRequest || i.version == ExternalExtractorRequest ==> r.tokens == 0)
    && (i.version == ProviderRequest ==> r.tokens != 0)
  }

  /** Each kind of external operation is tied to what authorizes it. */
  predicate OperationAuthorized(m: Manifest, s: FoldState, frame: FrameRecord, i: IntentIdentity) {
    match i.kind
    case ControllerKind =>
      var iteration := |frame.cells| + 1;
      && i.operationId == ControllerOperation(i.frameId, iteration)
      && i.key == Decimal(iteration)
      && i.version == ProviderRequest
      && |s.book.controllerOperations + {i.operationId}| <= m.limits.maxControllerTurns
    case ExtractorKind =>
      && i.frameId == m.Root()
      && i.operationId == ExtractorOperation(m.runId)
      && frame.projection.Some?
      && i.key == frame.projection.value.projectionHash
      && m.extractorConfigured
    case LlmKind =>
      var id := AuthorizedCallId(m, s, LlmCall, i.key);
      id.Some? && i.operationId == CallOperation(id.value) && i.version == ProviderRequest
    case AgentKind =>
      var id := AuthorizedCallId(m, s, AgentCall, i.key);
      && id.Some? && i.operationId == CallOperation(id.value) && i.version == AgentRequest
      && (i.frameId, id.value) in s.registry.approvals && s.registry.approvals[(i.frameId, id.value)].decision != Denied
  }

  /** Attempts are 1, 2, 3, ..., one at a time, and every distinct operation starts with a logical call. */
  predicate AttemptInOrder(s: FoldState, i: IntentIdentity) {
    var key := OpKey(i.frameId, i.operationId);
    && (key in s.book.operations ==>
          && s.book.operations[key].kind == i.kind
          && s.book.operations[key].key == i.key
          && i.attempt == s.book.operations[key].lastAttempt + 1
          && s.book.operations[key].lastIntentId in s.book.settlements)
    && (key !in s.book.operations ==> i.attempt == 1 && i.reservation.logicalCalls == 1)
    && (i.kind == AgentKind ==> i.reservation.logicalCalls == 1)
    && (i.reservation.logicalCalls != 1 ==> key in s.book.operations && |s.book.operations[key].segments| > 0)
  }

  function RecordIntent(op: Option<Operation>, intent: Intent): Operation
    requires intent.identity.reservation.logicalCalls != 1 ==> op.Some? && |op.value.segments| > 0
  {
    var i := intent.identity;
    var segments := if op.Some? then op.value.segments else [];
    var segments' :=
      if i.reservation.logicalCalls == 1 then segments + [Segment([intent], [], ZERO_CALL_USAGE)]
      else
        var last := |segments| - 1;
        segments[last := segments[last].(intents := segments[last].intents + [intent])];
    Operation(i.kind, i.key, segments', i.attempt, intent.intentId)
  }

  /** The books after an attempt is intended. */
  function Intend(book: Book, intent: Intent): Book
    requires intent.identity.reservation.logicalCalls != 1 ==>
               intent.OperationKey() in book.operations && |book.operations[intent.OperationKey()].segments| > 0
  {
    var i := intent.identity;
    var key := intent.OperationKey();
    var op := RecordIntent(if key in book.operations then Some(book.operations[key]) else None, intent);
    book.(intents := book.intents[intent.intentId := intent],
          attemptRecords := book.attemptRecords[intent.intentId := Attempt(key, |op.segments| - 1)],
          operations := book.operations[key := op],
          controllerOperations :=
            book.controllerOperations + (if i.kind == ControllerKind then {i.operationId} else {}))
  }

  function StepIntended(m: Manifest, s: FoldState, frame: FrameRecord, intent: Intent): Step {
    var i := intent.identity;
    if i.runId != m.runId then Err(IdentityMismatch)
    else if intent.intentId in s.book.intents || !ReservationAllowed(m, s, i) || !OperationAuthorized(m, s, frame, i)
            || !AttemptInOrder(s, i) then Err(SemanticCorruption)
    else
      Ok(s.(
        totals := s.totals.(
          attempts := s.totals.attempts + i.reservation.attempts,
          logicalCalls := s.totals.logicalCalls + i.reservation.logicalCalls,
          tokensReserved := s.totals.tokensReserved + i.reservation.tokens),
        book := Intend(s.book, intent)))
  }

  /** The segment that an intended attempt is charged to. */
  predicate HasSegment(book: Book, id: IntentId) {
    && id in book.attemptRecords
    && book.attemptRecords[id].operation in book.operations
    && book.attemptRecords[id].segment < |book.operations[book.attemptRecords[id].operation].segments|
  }

  function SegmentFor(book: Book, id: IntentId): Segment
    requires HasSegment(book, id)
  {
    book.operations[book.attemptRecords[id].operation].segments[book.attemptRecords[id].segment]
  }

  /** The books after an attempt settles. */
  function Settle(book: Book, e: Settlement, usage: CallUsage): Book
    requires HasSegment(book, e.intentId)
  {
    var a := book.attemptRecords[e.intentId];
    var op := book.operations[a.operation];
    var segment := SegmentFor(book, e.intentId);
    var segment' := segment.(usage := usage, outcomes := segment.outcomes + [e]);
    book.(settlements := book.settlements[e.intentId := e],
          operations := book.operations[a.operation := op.(segments := op.segments[a.segment := segment'])])
  }

  function StepSettled(m: Manifest, s: FoldState, e: Settlement): Step {
    if e.runId != m.runId then Err(IdentityMismatch)
    else if e.intentId !in s.book.intents || e.intentId !in s.book.attemptRecords then Err(SemanticCorruption)
    else
      var intent := s.book.intents[e.intentId];
      if intent.identity.frameId != e.frameId || e.intentId in s.book.settlements
         || NormalizeCallUsage(e.usage).Err?
         || (e.usage.totalTokens.Some? && e.usage.Input() + e.usage.Output() > e.usage.totalTokens.value)
         || s.totals.tokensReserved < intent.identity.reservation.tokens
         || s.totals.tokensUsed > MAX_SAFE_INTEGER - e.usage.Tokens()
         || !HasSegment(s.book, e.intentId) then Err(SemanticCorruption)
      else
        match AddUsage(SegmentFor(s.book, e.intentId).usage, e.usage)
        case Err(_) => Err(SemanticCorruption)
        case Ok(usage) =>
          Ok(s.(
            totals := s.totals.(
              tokensReserved := s.totals.tokensReserved - intent.identity.reservation.tokens,
              tokensUsed := s.totals.tokensUsed + e.usage.Tokens()),
            book := Settle(s.book, e, usage)))
  }

  /** Ordinal `n` of recurse call `c`, as a frame of this run. */
  function Execution(m: Manifest, digest: Digest, n: nat): FrameId {
    FrameId(m.runId, ExecutionTail(digest, n))
  }

  /** One closed child frame for every recurse execution and conversely, with ordinals 1..n. */
  predicate ExecutionsMatch(m: Manifest, s: FoldState) {
    && (forall f <- s.frames | s.frames[f].opening.parent.Some? ::
          && FrameLineage(m.runId, f).Some?
          && f.tail.ExecutionTail?
          && s.frames[f].closed.Some?
          && CallId(RecurseCall, f.tail.digest) in s.calls
          && IsRecurse(s, CallId(RecurseCall, f.tail.digest))
          && f.tail.ordinal <= |s.calls[CallId(RecurseCall, f.tail.digest)]|)
    && (forall c <- s.calls | IsRecurse(s, c) :: c.CallId? && c.kind == RecurseCall &&
          forall n {:trigger Execution(m, c.digest, n)} :: 1 <= n <= |s.calls[c]| ==>
            ExecutionMatches(s, Execution(m, c.digest, n), s.calls[c][n - 1]))
  }

  predicate IsRecurse(s: FoldState, c: CallId)
    requires c in s.calls
  {
    |s.calls[c]| > 0 && s.calls[c][|s.calls[c]| - 1].kind == RecurseCall
  }

  predicate ExecutionMatches(s: FoldState, f: FrameId, call: Call) {
    && f in s.frames
    && s.frames[f].opening.parent == Some(call.frameId)
    && call.kind == RecurseCall
    && (call.ok <==> s.frames[f].closed == Some(Answered))
  }

  function CellCount(s: FoldState, frameId: FrameId): nat {
    if frameId in s.frames then |s.frames[frameId].cells| else 0
  }

  function OpenFrames(s: FoldState): set<FrameId> {
    set f <- s.frames | s.frames[f].closed.None?
  }

  function StepCheckpoint(m: Manifest, s: FoldState, c: Checkpoint): Step {
    if c.runId != m.runId || c.manifestHash != m.manifestHash || c.frameId != m.Root() then Err(IdentityMismatch)
    else if c.sequence != s.totals.checkpointSequence + 1
            || c.nextIteration != CellCount(s, m.Root()) + 1
            || c.nextControllerTurn != s.totals.committedControllerTurns + 1
            || (exists id <- s.book.intents :: id !in s.book.settlements)
            || s.totals.tokensReserved != 0
            || OpenFrames(s) != {m.Root()}
            || !ExecutionsMatch(m, s)
            || !c.content.Complete() then Err(SemanticCorruption)
    else Ok(s.(totals := s.totals.(checkpointSequence := c.sequence)))
  }

  /** A failed call may be executed again; llm and agent calls even from another frame. */
  predicate RetryAllowed(prior: Call, c: Call) {
    && prior.kind == c.kind
    && (c.kind == LlmCall || c.kind == AgentCall || prior.frameId == c.frameId)
    && prior.key == c.key
    && !prior.ok
  }

  /** An llm or agent call reports exactly what its own last logical call settled. */
  predicate BackedByOperation(m: Manifest, s: FoldState, c: Call) {
    var kind := if c.kind == LlmCall then LlmKind else AgentKind;
    var key := OpKey(c.frameId, CallOperation(c.callId));
    && AuthorizedCallId(m, s, c.kind, c.key) == Some(c.callId)
    && key in s.book.operations
    && s.book.operations[key].kind == kind
    && |s.book.operations[key].segments| > 0
    && var segment := s.book.operations[key].segments[|s.book.operations[key].segments| - 1];
       && segment.Complete()
       && (c.ok <==> |segment.outcomes| > 0 && segment.outcomes[|segment.outcomes| - 1].outcome == OutcomeOk)
       && c.usage == segment.usage
  }

  function StepCall(m: Manifest, s: FoldState, c: Call): Step {
    match RegistryIdOf(m.runId, c.kind, c.key, c.frameId)
    case None => Err(SemanticCorruption)
    case Some(id) =>
      if id !in s.registry.keys || c.cached then Err(SemanticCorruption)
      else
        var executions := if c.callId in s.calls then s.calls[c.callId] else [];
        if executions != [] && c.kind != RecurseCall && executions[|executions| - 1] == c then Ok(s)
        else if (executions != [] && !RetryAllowed(executions[|executions| - 1], c))
                || ((c.kind == LlmCall || c.kind == AgentCall) && !BackedByOperation(m, s, c))
                || !c.output.Complete() then Err(SemanticCorruption)
        else Ok(s.(calls := s.calls[c.callId := executions + [c]]))
  }

  function StepAnswer(s: FoldState, frame: FrameRecord, a: Answer): Step {
    if frame.answer.Some? then
      if frame.answer.value == a then Ok(s) else Err(SemanticCorruption)
    else if a.mode == AnswerMode && (|frame.cells| !in frame.cells || frame.cells[|frame.cells|].output != a.output) then
      Err(SemanticCorruption)
    else if a.mode == FallbackExtract && (frame.projection.None? || frame.citation.None?) then Err(SemanticCorruption)
    else if !a.output.Complete() then Err(SemanticCorruption)
    else Ok(SetFrame(s, a.frameId, frame.(answer := Some(a))))
  }

  function StepClosed(s: FoldState, frame: FrameRecord, f: FrameId, state: FrameState): Step {
    if state == Open then Err(SemanticCorruption)
    else if exists child <- s.frames :: s.frames[child].opening.parent == Some(f) && s.frames[child].closed.None? then
      Err(SemanticCorruption)
    else Ok(SetFrame(s, f, frame.(closed := Some(state))))
  }

  function StepProjected(m: Manifest, s: FoldState, frame: FrameRecord, p: Projection): Step {
    if p.frameId != m.Root() || frame.projection.Some? || frame.answer.Some? || p.projectedBytes > p.maxBytes
       || p.truncated != (p.omittedBytes > 0 || p.omittedItems > 0 || p.truncatedItems > 0) then Err(SemanticCorruption)
    else Ok(SetFrame(s, p.frameId, frame.(projection := Some(p))))
  }

  function StepCited(m: Manifest, s: FoldState, frame: FrameRecord, c: Citation): Step {
    if c.frameId != m.Root() || frame.projection.None? || frame.citation.Some?
       || |(set r <- c.evidenceRefs)| != |c.evidenceRefs|
       || |c.evidenceRefs| > frame.projection.value.evidenceIdCount
       || c.evidenceRefsHash != RefsDigest(c.evidenceRefs) then Err(SemanticCorruption)
    else Ok(SetFrame(s, c.frameId, frame.(citation := Some(c))))
  }

  /** An event of a frame: the frame must be open. */
  function StepInFrame(m: Manifest, s: FoldState, e: Event, f: FrameId): Step
    requires e.Frame() == Some(f)
  {
    var frame :- RequireFrame(s, f);
    match e
    case ProgressMade(p) => StepProgress(s, frame, p)
    case KeyBound(b) => StepKeyBound(m, s, b)
    case AgentApproval(a) => StepApproval(s, a)
    case CellCommitted(c) => StepCell(m, s, frame, c)
    case WorkspaceCommitted(w) => StepWorkspace(s, frame, w)
    case FallbackProjected(p) => StepProjected(m, s, frame, p)
    case FallbackCited(c) => StepCited(m, s, frame, c)
    case OperationIntended(i) => StepIntended(m, s, frame, i)
    case OperationSettled(x) => StepSettled(m, s, x)
    case CheckpointCommitted(c) => StepCheckpoint(m, s, c)
    case CallCommitted(c) => StepCall(m, s, c)
    case AnswerCommitted(a) => StepAnswer(s, frame, a)
    case FrameClosed(_, state) => StepClosed(s, frame, f, state)
  }

  function StepEvent(m: Manifest, s: FoldState, e: Event): Step
    requires m.objective.Some?
  {
    if s.terminal.Some? || e.RunStarted? then Err(SemanticCorruption)
    else if e.RunTerminal? then StepTerminal(m, s, e.terminal)
    else if e.FrameOpened? then StepFrameOpened(m, s, e.opening)
    else StepInFrame(m, s, e, e.Frame().value)
  }

  /** The fold over the events after run_started; the first offending event decides the error. */
  function Fold(m: Manifest, es: seq<Event>): Step
    requires m.objective.Some?
  {
    if es == [] then Ok(EMPTY_FOLD)
    else
      var s :- Fold(m, es[..|es| - 1]);
      StepEvent(m, s, es[|es| - 1])
  }

  predicate InterpreterFailure(c: Cell) {
    c.errorCode.Some? && c.errorCode.value in
      {"CPU_LIMIT", "HEAP_LIMIT", "WORKER_EXIT", "JOURNAL_CORRUPT", "LATE_CALLBACK", "UNHANDLED_REJECTION",
       "PARSE_ERROR", "DISPOSED"}
  }

  /** An output-bearing cell has become its frame's answer. */
  predicate CellAnswered(frame: FrameRecord, c: Cell) {
    c.output.id.Some? ==>
      && frame.answer.Some?
      && frame.answer.value.mode == AnswerMode
      && frame.answer.value.output.id == c.output.id
  }

  predicate CellsComplete(frame: FrameRecord) {
    forall i <- frame.cells ::
      && (InterpreterFailure(frame.cells[i]) || i in frame.workspaces)
      && CellAnswered(frame, frame.cells[i])
  }

  predicate WorkspacesPlaced(frame: FrameRecord, terminal: bool) {
    forall i <- frame.workspaces :: i in frame.cells || (!terminal && i == |frame.cells| + 1)
  }

  function CheckTerminal(m: Manifest, s: FoldState, t: Terminal): Result<(), RecoveryCode> {
    var root := m.Root();
    if OpenFrames(s) != {} then Err(SemanticCorruption)
    else
      match t
      case RunCompleted(_, mode, outputRef) =>
        if !ExecutionsMatch(m, s) then Err(SemanticCorruption)
        else if root !in s.frames || s.frames[root].answer.None? || s.frames[root].closed != Some(Answered)
                || s.frames[root].answer.value.mode != mode || outputRef.None?
                || outputRef != s.frames[root].answer.value.output.id then Err(TerminalInconsistent)
        else Ok(())
      case RunCancelled(_, _) =>
        if root in s.frames && s.frames[root].closed != Some(Cancelled) then Err(TerminalInconsistent) else Ok(())
      case RunFailed(_, _, _) =>
        if root in s.frames && s.frames[root].closed != Some(Failed) then Err(TerminalInconsistent) else Ok(())
  }

  predicate Unresolved(s: FoldState) {
    exists id <- s.book.intents :: id !in s.book.settlements
  }

  datatype RecoveryModel = RecoveryModel(
    rootFrameId: FrameId, terminal: Option<Terminal>, rootAnswer: Option<Answer>,
    committedCells: nat, committedCalls: nat)

  function Finish(m: Manifest, s: FoldState): Result<RecoveryModel, RecoveryCode> {
    if exists f <- s.frames ::
         !CellsComplete(s.frames[f]) || !WorkspacesPlaced(s.frames[f], s.terminal.Some?) then Err(SemanticCorruption)
    else
      var _ :- if s.terminal.Some? then CheckTerminal(m, s, s.terminal.value) else Ok(());
      if Unresolved(s) then Err(Ambiguous)
      else if s.totals.tokensReserved != 0 then Err(SemanticCorruption)
      else
        var rootAnswer := if m.Root() in s.frames then s.frames[m.Root()].answer else None;
        Ok(RecoveryModel(m.Root(), s.terminal, rootAnswer, |s.cells|, |s.calls|))
  }

  predicate InputMatches(actual: InputRef, expected: ManifestInput) {
    actual == InputRef(expected.name, "ctx_" + expected.sha256, expected.sha256, expected.bytes)
  }

  /** The start event binds the journal to its manifest. */
  function CheckStart(m: Manifest, events: seq<Event>): Result<(), RecoveryCode> {
    if events == [] || !events[0].RunStarted? || (exists i | 1 <= i < |events| :: events[i].RunStarted?) then
      Err(SemanticCorruption)
    else
      var start := events[0];
      if start.runId != m.runId || start.manifestHash != m.manifestHash || start.limits != m.limits
         || start.inputRefs.None? || |start.inputRefs.value| != |m.inputs|
         || (exists i | 0 <= i < |m.inputs| :: !InputMatches(start.inputRefs.value[i], m.inputs[i])) then
        Err(IdentityMismatch)
      else if m.objective.None? then Err(SemanticCorruption)
      else Ok(())
  }

  function Validate(m: Manifest, events: seq<Event>): Result<RecoveryModel, RecoveryCode> {
    var _ :- CheckStart(m, events);
    var s :- Fold(m, events[1..]);
    Finish(m, s)
  }

  // ----- Reading the fold backwards.

  lemma LastStep(m: Manifest, es: seq<Event>, e: Event)
    requires m.objective.Some? && Fold(m, es + [e]).Ok?
    ensures Fold(m, es).Ok?
    ensures StepEvent(m, Fold(m, es).value, e) == Fold(m, es + [e])
  {
    assert (es + [e])[..|es + [e]| - 1] == es;
  }

  /** Every prefix of a journal that folds folds, and only its last event can be the terminal. */
  lemma {:induction false} PrefixFolds(m: Manifest, es: seq<Event>, k: nat)
    requires m.objective.Some? && Fold(m, es).Ok? && k <= |es|
    ensures Fold(m, es[..k]).Ok?
    ensures k < |es| ==> Fold(m, es[..k]).value.terminal.None?
    decreases |es|
  {
    if k == |es| {
      assert es[..k] == es;
    } else {
      var front := es[..|es| - 1];
      PrefixFolds(m, front, k);
      assert es[..k] == front[..k];
    }
  }

  /** The fold before and after the event at position `p`. */
  lemma FoldAt(m: Manifest, es: seq<Event>, p: nat)
    requires m.objective.Some? && Fold(m, es).Ok? && p < |es|
    ensures Fold(m, es[..p]).Ok?
    ensures StepEvent(m, Fold(m, es[..p]).value, es[p]) == Fold(m, es[..p + 1])
    ensures Fold(m, es[..p + 1]).Ok?
  {
    var upTo := es[..p + 1];
    PrefixFolds(m, es, p + 1);
    assert upTo[..|upTo| - 1] == es[..p] && upTo[|upTo| - 1] == es[p];
  }
}
