/**
 * The event journal's vocabulary (src/core/journal.ts, src/core/operation.ts, src/core/ids.ts).
 *
 * Identifiers that the program builds by concatenating fields, or by hashing a canonical text, are free
 * datatypes here: their injectivity stands for the parseability of the text and the collision freedom of
 * the hash.
 */
module Journal {
  import opened Wrappers
  import opened Usage
  import opened Budget

  datatype CallKind = LlmCall | AgentCall | RecurseCall | ToolCall | ArtifactCall | ContextCall
  datatype OperationKind = ControllerKind | LlmKind | ExtractorKind | AgentKind
  datatype RequestVersion = ProviderRequest | AgentRequest | ExternalExtractorRequest
  datatype Outcome = OutcomeOk | OutcomeError | OutcomeCancelled | OutcomeInvalidResult
  datatype FrameState = Open | Answered | Closed | Failed | Cancelled
  datatype CompletionMode = AnswerMode | FallbackExtract
  datatype Decision = Allowlisted | Approved | Denied

  /** A SHA-256 digest, named by its preimage where the program computes it. */
  datatype Digest =
    | CallDigest(runId: string, kind: CallKind, key: string, identityHash: string)
    | RefsDigest(refs: seq<string>)
    | TextDigest(text: string)

  /** `call_<kind>_<digest>`, or any other text. */
  datatype CallId = CallId(kind: CallKind, digest: Digest) | OtherCallId(text: string)

  /** `<run>:f0`, `<run>:frame:call_recurse_<digest>:e<ordinal>`, or any other text after `<run>:`. */
  datatype FrameTail = RootTail | ExecutionTail(digest: Digest, ordinal: nat) | OtherTail(text: string)
  datatype FrameId = FrameId(runId: string, tail: FrameTail)

  /** `<frame>:controller:<iteration>`, `<run>:extractor`, a call id, or any other text. */
  datatype OperationId =
    | ControllerOperation(frameId: FrameId, iteration: nat)
    | ExtractorOperation(runId: string)
    | CallOperation(callId: CallId)
    | OtherOperation(text: string)

  datatype ReservationRecord = Reservation(logicalCalls: nat, attempts: nat, tokens: int)

  /** What one attempt takes from the budget when its intent is written. */
  type OperationReservation = r: ReservationRecord
    | r.logicalCalls <= 1 && r.attempts == 1 && 0 <= r.tokens <= MAX_CALL_TOKENS
    witness Reservation(0, 1, 0)

  datatype IntentIdentity = IntentIdentity(
    runId: string,
    frameId: FrameId,
    operationId: OperationId,
    kind: OperationKind,
    key: string,
    attempt: nat,
    version: RequestVersion,
    requestSha256: string,
    reservation: OperationReservation)

  /** `op_<digest of the identity>`, or any other text. */
  datatype IntentId = IntentId(identity: IntentIdentity) | OtherIntentId(text: string)

  datatype Intent = Intent(identity: IntentIdentity, intentId: IntentId) {
    function OperationKey(): OperationKey { OpKey(identity.frameId, identity.operationId) }
  }

  datatype OperationKey = OpKey(frameId: FrameId, operationId: OperationId)

  datatype Settlement = Settlement(
    runId: string, frameId: FrameId, intentId: IntentId, outcome: Outcome, usage: CallUsage, errorCode: Option<string>)

  datatype ContentRef = ContentRef(id: Option<string>, sha256: Option<string>, bytes: Option<nat>) {
    /** Complete content identity: every part present and the handle naming the digest. */
    predicate Complete() {
      id.Some? && sha256.Some? && bytes.Some? && id.value == "ctx_" + sha256.value
    }
  }

  datatype Opened = Opened(frameId: FrameId, parent: Option<FrameId>, depth: nat, objective: string)
  datatype Progress =
    | Phase(frameId: FrameId, iteration: nat, ordinal: nat, name: string)
    | Emit(frameId: FrameId, iteration: nat, ordinal: nat, message: string)
  datatype KeyBinding = KeyBinding(frameId: FrameId, kind: CallKind, key: string, identityHash: string)
  datatype Approval = Approval(frameId: FrameId, callId: CallId, agent: string, policyId: string, decision: Decision)
  datatype Cell = Cell(
    frameId: FrameId, iteration: nat, codeHash: string, outputPreview: string,
    usage: Option<CallUsage>, output: ContentRef, errorCode: Option<string>)
  datatype Workspace = Workspace(frameId: FrameId, iteration: nat, content: ContentRef)
  datatype Projection = Projection(
    frameId: FrameId, projectionHash: string, projectedBytes: nat, maxBytes: nat, omittedBytes: nat,
    omittedItems: nat, truncatedItems: nat, evidenceIdCount: nat, truncated: bool)
  datatype Citation = Citation(frameId: FrameId, evidenceRefs: seq<string>, evidenceRefsHash: Digest)
  datatype Checkpoint = Checkpoint(
    runId: string, frameId: FrameId, manifestHash: string, sequence: nat, content: ContentRef,
    nextIteration: nat, nextControllerTurn: nat)
  datatype Call = Call(
    frameId: FrameId, callId: CallId, kind: CallKind, key: string, cached: bool, ok: bool,
    usage: CallUsage, output: ContentRef)
  datatype Answer = Answer(frameId: FrameId, mode: CompletionMode, output: ContentRef)
  datatype Terminal =
    | RunCompleted(runId: string, mode: CompletionMode, outputRef: Option<string>)
    | RunFailed(runId: string, code: string, message: string)
    | RunCancelled(runId: string, message: string)

  datatype InputRef = InputRef(name: string, id: string, sha256: string, bytes: nat)

  datatype Event =
    | RunStarted(runId: string, manifestHash: string, limits: Limits, inputRefs: Option<seq<InputRef>>)
    | FrameOpened(opening: Opened)
    | ProgressMade(progress: Progress)
    | KeyBound(binding: KeyBinding)
    | AgentApproval(approval: Approval)
    | CellCommitted(cell: Cell)
    | WorkspaceCommitted(workspace: Workspace)
    | FallbackProjected(projection: Projection)
    | FallbackCited(citation: Citation)
    | OperationIntended(intent: Intent)
    | OperationSettled(settlement: Settlement)
    | CheckpointCommitted(checkpoint: Checkpoint)
    | CallCommitted(call: Call)
    | AnswerCommitted(answer: Answer)
    | FrameClosed(closedFrame: FrameId, state: FrameState)
    | RunTerminal(terminal: Terminal)
  {
    /** The frame an event belongs to; the run's own start, its terminal and frame openings have none. */
    function Frame(): Option<FrameId> {
      match this
      case ProgressMade(p) => Some(p.frameId)
      case KeyBound(b) => Some(b.frameId)
      case AgentApproval(a) => Some(a.frameId)
      case CellCommitted(c) => Some(c.frameId)
      case WorkspaceCommitted(w) => Some(w.frameId)
      case FallbackProjected(p) => Some(p.frameId)
      case FallbackCited(c) => Some(c.frameId)
      case OperationIntended(i) => Some(i.identity.frameId)
      case OperationSettled(s) => Some(s.frameId)
      case CheckpointCommitted(c) => Some(c.frameId)
      case CallCommitted(c) => Some(c.frameId)
      case AnswerCommitted(a) => Some(a.frameId)
      case FrameClosed(f, _) => Some(f)
      case _ => None
    }
  }

  /** What recurse keys and cached recurse results are scoped by: the root frame or a recurse call. */
  datatype Lineage = RootLineage | RecurseLineage(digest: Digest)

  /** `<kind>\0<key>`, with the frame lineage in between for recurse keys. */
  datatype RegistryId = GlobalKey(kind: CallKind, key: string) | ScopedKey(lineage: Lineage, key: string)

  function RootFrame(runId: string): FrameId { FrameId(runId, RootTail) }

  /** The ordinal pattern excludes a leading zero, so ordinals start at 1. */
  function FrameLineage(runId: string, frameId: FrameId): Option<Lineage> {
    if frameId == RootFrame(runId) then Some(RootLineage)
    else if frameId.runId == runId && frameId.tail.ExecutionTail? && frameId.tail.ordinal >= 1 then
      Some(RecurseLineage(frameId.tail.digest))
    else None
  }

  function RegistryIdOf(runId: string, kind: CallKind, key: string, frameId: FrameId): Option<RegistryId> {
    if kind != RecurseCall then Some(GlobalKey(kind, key))
    else
      match FrameLineage(runId, frameId)
      case None => None
      case Some(lineage) => Some(ScopedKey(lineage, key))
  }

  // ----- The operation records of a journal, in order.

  function Intents(es: seq<Event>): seq<Intent> {
    if es == [] then []
    else
      var last := es[|es| - 1];
      Intents(es[..|es| - 1]) + (if last.OperationIntended? then [last.intent] else [])
  }

  function Settlements(es: seq<Event>): seq<Settlement> {
    if es == [] then []
    else
      var last := es[|es| - 1];
      Settlements(es[..|es| - 1]) + (if last.OperationSettled? then [last.settlement] else [])
  }
}
