/** The lossy status projection of a journal (src/core/journal.ts). */
module StatusFold {
  import opened Wrappers
  import opened Journal

  datatype RunState = Running | Completed | RunFailure | RunCancellation

  datatype FrameStatus = FrameStatus(
    frameId: FrameId, parent: Option<FrameId>, depth: nat, objective: string,
    iterations: nat, calls: nat, phase: Option<string>, lastOutputPreview: Option<string>,
    state: FrameState, seenIterations: set<nat>)

  /** Where the projection lists a key: recurse keys per frame, all others globally. */
  datatype StatusKey = FrameKey(frameId: FrameId, key: string) | AnyFrameKey(kind: CallKind, key: string)

  datatype PendingPhase = PendingPhase(ordinal: nat, name: string)

  /** Progress effects already folded, and phases waiting for their cell to commit. */
  datatype Effects = Effects(
    seen: set<(FrameId, nat, nat)>, pending: map<(FrameId, nat), seq<PendingPhase>>, committed: set<(FrameId, nat)>)

  datatype Ending = Ending(
    state: RunState, mode: Option<CompletionMode>, outputRef: Option<string>, error: Option<(string, string)>)

  datatype Status = Status(
    start: Option<(string, string)>,
    frames: map<FrameId, FrameStatus>,
    frameOrder: seq<FrameId>,
    committedCalls: set<CallId>,
    keyBindings: map<StatusKey, KeyBinding>,
    effects: Effects,
    ending: Ending)

  const EMPTY_STATUS :=
    Status(None, map[], [], {}, map[], Effects({}, map[], {}), Ending(Running, None, None, None))

  function StatusOpened(s: Status, o: Opened): Status {
    if o.frameId in s.frames then s
    else
      var frame := FrameStatus(o.frameId, o.parent, o.depth, o.objective, 0, 0, None, None, Open, {});
      s.(frames := s.frames[o.frameId := frame], frameOrder := s.frameOrder + [o.frameId])
  }

  /** Sorting by ordinal and applying in turn leaves the name with the greatest ordinal. */
  function LastPhase(pending: seq<PendingPhase>): PendingPhase
    requires pending != []
  {
    if |pending| == 1 then pending[0]
    else
      var before := LastPhase(pending[..|pending| - 1]);
      var last := pending[|pending| - 1];
      if before.ordinal <= last.ordinal then last else before
  }

  function StatusProgress(s: Status, p: Progress): Status {
    var cell := (p.frameId, p.iteration);
    var id := (p.frameId, p.iteration, p.ordinal);
    if id in s.effects.seen then s
    else
      var seen := s.(effects := s.effects.(seen := s.effects.seen + {id}));
      match p
      case Emit(_, _, _, _) => seen
      case Phase(f, _, ordinal, name) =>
        if cell in s.effects.committed then
          if f in s.frames then seen.(frames := s.frames[f := s.frames[f].(phase := Some(name))]) else seen
        else
          var pending := if cell in s.effects.pending then s.effects.pending[cell] else [];
          seen.(effects :=
            seen.effects.(pending := s.effects.pending[cell := pending + [PendingPhase(ordinal, name)]]))
  }

  function StatusCell(s: Status, c: Cell): Status {
    if c.frameId !in s.frames || c.iteration in s.frames[c.frameId].seenIterations then s
    else
      var f := s.frames[c.frameId];
      var cell := (c.frameId, c.iteration);
      var waiting := cell in s.effects.pending && s.effects.pending[cell] != [];
      var phase := if waiting then Some(LastPhase(s.effects.pending[cell]).name) else f.phase;
      s.(frames := s.frames[c.frameId := f.(
           iterations := f.iterations + 1, seenIterations := f.seenIterations + {c.iteration},
           lastOutputPreview := Some(c.outputPreview), phase := phase)],
         effects := s.effects.(
           committed := s.effects.committed + {cell}, pending := s.effects.pending - {cell}))
  }

  function StatusCall(s: Status, c: Call): Status {
    if c.frameId !in s.frames || c.callId in s.committedCalls then s
    else
      var f := s.frames[c.frameId];
      s.(frames := s.frames[c.frameId := f.(calls := f.calls + 1)], committedCalls := s.committedCalls + {c.callId})
  }

  function StatusState(s: Status, f: FrameId, state: FrameState): Status {
    if f !in s.frames then s else s.(frames := s.frames[f := s.frames[f].(state := state)])
  }

  function StatusKeyOf(b: KeyBinding): StatusKey {
    if b.kind == RecurseCall then FrameKey(b.frameId, b.key) else AnyFrameKey(b.kind, b.key)
  }

  function StatusTerminal(s: Status, t: Terminal): Status {
    if s.ending.state != Running then s
    else
      match t
      case RunCompleted(_, mode, outputRef) => s.(ending := Ending(Completed, Some(mode), outputRef, None))
      case RunFailed(_, code, message) => s.(ending := Ending(RunFailure, None, None, Some((code, message))))
      case RunCancelled(_, message) => s.(ending := Ending(RunCancellation, None, None, Some(("CANCELLED", message))))
  }

  function StatusEvent(s: Status, e: Event): Status {
    match e
    case RunStarted(runId, manifestHash, _, _) => s.(start := Some((runId, manifestHash)))
    case FrameOpened(o) => StatusOpened(s, o)
    case ProgressMade(p) => StatusProgress(s, p)
    case KeyBound(b) =>
      if StatusKeyOf(b) in s.keyBindings then s else s.(keyBindings := s.keyBindings[StatusKeyOf(b) := b])
    case CellCommitted(c) => StatusCell(s, c)
    case CallCommitted(c) => StatusCall(s, c)
    case AnswerCommitted(a) => StatusState(s, a.frameId, Answered)
    case FrameClosed(f, state) => StatusState(s, f, state)
    case RunTerminal(t) => StatusTerminal(s, t)
    case _ => s
  }

  /** The projection of an ordered event list. */
  function ReduceStatus(es: seq<Event>): Status {
    if es == [] then EMPTY_STATUS else StatusEvent(ReduceStatus(es[..|es| - 1]), es[|es| - 1])
  }

  /** The program's loop over the events. */
  method ReduceStatusLoop(events: seq<Event>) returns (status: Status)
    ensures status == ReduceStatus(events)
  {
    status := EMPTY_STATUS;
    for k := 0 to |events|
      invariant status == ReduceStatus(events[..k])
    {
      assert events[..k + 1][..k] == events[..k];
      status := StatusEvent(status, events[k]);
    }
    assert events[..|events|] == events;
  }

  // ----- Replaying what was already folded changes nothing.

  /** The event's durable identity is already part of the projection. */
  predicate Folded(s: Status, e: Event) {
    match e
    case ProgressMade(p) => (p.frameId, p.iteration, p.ordinal) in s.effects.seen
    case CellCommitted(c) => c.frameId in s.frames && c.iteration in s.frames[c.frameId].seenIterations
    case CallCommitted(c) => c.callId in s.committedCalls
    case _ => false
  }

  /** Two events with the same durable identity. */
  predicate SameIdentity(a: Event, b: Event) {
    match (a, b)
    case (ProgressMade(p), ProgressMade(q)) =>
      p.frameId == q.frameId && p.iteration == q.iteration && p.ordinal == q.ordinal
    case (CellCommitted(c), CellCommitted(d)) => c.frameId == d.frameId && c.iteration == d.iteration
    case (CallCommitted(c), CallCommitted(d)) => c.callId == d.callId
    case _ => false
  }

  /** The first event's frame was known when it was folded; progress effects need no frame. */
  predicate FrameKnown(s: Status, e: Event) {
    match e
    case CellCommitted(c) => c.frameId in s.frames
    case CallCommitted(c) => c.frameId in s.frames
    case _ => true
  }

  predicate Deduplicated(e: Event) {
    e.ProgressMade? || e.CellCommitted? || e.CallCommitted?
  }

  /** An identity is folded exactly when some earlier event carried it while its frame was known. */
  lemma {:induction false} FoldedByEarlierEvent(es: seq<Event>, e: Event)
    requires Deduplicated(e)
    ensures Folded(ReduceStatus(es), e) <==>
            exists i | 0 <= i < |es| :: SameIdentity(es[i], e) && FrameKnown(ReduceStatus(es[..i]), es[i])
  {
    if es != [] {
      var front, last := es[..|es| - 1], es[|es| - 1];
      FoldedByEarlierEvent(front, e);
      FoldedStep(ReduceStatus(front), last, e);
      forall i | 0 <= i < |front| ensures front[i] == es[i] && front[..i] == es[..i] {
      }
    }
  }

  lemma FoldedStep(s: Status, last: Event, e: Event)
    requires Deduplicated(e)
    ensures Folded(StatusEvent(s, last), e) <==> Folded(s, e) || (SameIdentity(last, e) && FrameKnown(s, last))
  {
  }

  /** A deduplicated event changes nothing exactly when it is already folded or its frame is unknown. */
  lemma IgnoredExactly(s: Status, e: Event)
    requires Deduplicated(e)
    ensures StatusEvent(s, e) == s <==> Folded(s, e) || !FrameKnown(s, e)
  {
    if e.CellCommitted? && !Folded(s, e) && FrameKnown(s, e) {
      assert StatusEvent(s, e).frames[e.cell.frameId].iterations == s.frames[e.cell.frameId].iterations + 1;
    }
  }

  /**
   * Restart replay folds once: a cell, call or progress effect leaves the projection unchanged exactly when an
   * earlier event had its identity and a known frame, or when its own frame is still unknown.
   */
  lemma ReplayFoldsOnce(es: seq<Event>, e: Event)
    requires Deduplicated(e)
    ensures ReduceStatus(es + [e]) == ReduceStatus(es) <==>
            || (exists i | 0 <= i < |es| :: SameIdentity(es[i], e) && FrameKnown(ReduceStatus(es[..i]), es[i]))
            || !FrameKnown(ReduceStatus(es), e)
  {
    assert (es + [e])[..|es|] == es;
    FoldedByEarlierEvent(es, e);
    IgnoredExactly(ReduceStatus(es), e);
  }

  /** So a cell that precedes its frame's opening is folded by its replay, not by itself. */
  lemma ReplayBeforeOpeningFolds(o: Opened, c: Cell)
    requires c.frameId == o.frameId
    ensures ReduceStatus([CellCommitted(c), FrameOpened(o)] + [CellCommitted(c)])
            != ReduceStatus([CellCommitted(c), FrameOpened(o)])
  {
    var first, second := [CellCommitted(c)], [CellCommitted(c), FrameOpened(o)];
    assert first[..0] == [] && second[..1] == first && (second + [CellCommitted(c)])[..2] == second;
    assert ReduceStatus(first) == EMPTY_STATUS;
    assert ReduceStatus(second).frames[o.frameId].iterations == 0;
    assert ReduceStatus(second + [CellCommitted(c)]).frames[o.frameId].iterations == 1;
  }
}
