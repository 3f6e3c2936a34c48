/**
 * What the strict fold knows is what the journal says: every entry of its state stands for events of the journal, and
 * every event has its entry.
 */
module JournalContents {
  import opened Wrappers
  import opened Journal
  import opened RecoveryJournal
  import CrashCut
  import JournalLimits
  import OperationOrder

  type Frames = map<FrameId, FrameRecord>

  // ----- Frames.

  function OpeningAt(frames: Frames, f: FrameId): Option<Opened> { if f in frames then Some(frames[f].opening) else None }

  function ClosedAt(frames: Frames, f: FrameId): Option<FrameState> { if f in frames then frames[f].closed else None }

  function CellAt(frames: Frames, f: FrameId, i: nat): Option<Cell> {
    if f in frames && i in frames[f].cells then Some(frames[f].cells[i]) else None
  }

  function WorkspaceAt(frames: Frames, f: FrameId, i: nat): Option<Workspace> {
    if f in frames && i in frames[f].workspaces then Some(frames[f].workspaces[i]) else None
  }

  function ProgressAt(frames: Frames, f: FrameId, i: nat, ordinal: nat): Option<Progress> {
    if f in frames && (i, ordinal) in frames[f].progress then Some(frames[f].progress[(i, ordinal)]) else None
  }

  function AnswerAt(frames: Frames, f: FrameId): Option<Answer> { if f in frames then frames[f].answer else None }

  function ProjectionAt(frames: Frames, f: FrameId): Option<Projection> { if f in frames then frames[f].projection else None }

  function CitationAt(frames: Frames, f: FrameId): Option<Citation> { if f in frames then frames[f].citation else None }

  ghost predicate OpeningsTold(es: seq<Event>, frames: Frames) {
    && (forall o {:trigger FrameOpened(o) in es} {:trigger OpeningAt(frames, o.frameId)} ::
          FrameOpened(o) in es <==> OpeningAt(frames, o.frameId) == Some(o))
    && (forall f {:trigger OpeningAt(frames, f)} ::
          OpeningAt(frames, f).Some? ==> OpeningAt(frames, f).value.frameId == f)
  }

  ghost predicate ClosingsTold(es: seq<Event>, frames: Frames) {
    forall f, state {:trigger FrameClosed(f, state) in es} :: FrameClosed(f, state) in es <==> ClosedAt(frames, f) == Some(state)
  }

  ghost predicate CellsTold(es: seq<Event>, frames: Frames) {
    && (forall c {:trigger CellCommitted(c) in es} {:trigger CellAt(frames, c.frameId, c.iteration)} ::
          CellCommitted(c) in es <==> CellAt(frames, c.frameId, c.iteration) == Some(c))
    && (forall f, i {:trigger CellAt(frames, f, i)} :: CellAt(frames, f, i).Some? ==>
          CellAt(frames, f, i).value.frameId == f && CellAt(frames, f, i).value.iteration == i)
  }

  ghost predicate WorkspacesTold(es: seq<Event>, frames: Frames) {
    && (forall w {:trigger WorkspaceCommitted(w) in es} {:trigger WorkspaceAt(frames, w.frameId, w.iteration)} ::
          WorkspaceCommitted(w) in es <==> WorkspaceAt(frames, w.frameId, w.iteration) == Some(w))
    && (forall f, i {:trigger WorkspaceAt(frames, f, i)} :: WorkspaceAt(frames, f, i).Some? ==>
          WorkspaceAt(frames, f, i).value.frameId == f && WorkspaceAt(frames, f, i).value.iteration == i)
  }

  ghost predicate ProgressTold(es: seq<Event>, frames: Frames) {
    && (forall p {:trigger ProgressMade(p) in es} {:trigger ProgressAt(frames, p.frameId, p.iteration, p.ordinal)} ::
          ProgressMade(p) in es <==> ProgressAt(frames, p.frameId, p.iteration, p.ordinal) == Some(p))
    && (forall f, i, n {:trigger ProgressAt(frames, f, i, n)} :: ProgressAt(frames, f, i, n).Some? ==>
          var p := ProgressAt(frames, f, i, n).value; p.frameId == f && p.iteration == i && p.ordinal == n)
  }

  ghost predicate AnswersTold(es: seq<Event>, frames: Frames) {
    && (forall a {:trigger AnswerCommitted(a) in es} {:trigger AnswerAt(frames, a.frameId)} ::
          AnswerCommitted(a) in es <==> AnswerAt(frames, a.frameId) == Some(a))
    && (forall f {:trigger AnswerAt(frames, f)} :: AnswerAt(frames, f).Some? ==> AnswerAt(frames, f).value.frameId == f)
  }

  ghost predicate ProjectionsTold(es: seq<Event>, frames: Frames) {
    && (forall p {:trigger FallbackProjected(p) in es} {:trigger ProjectionAt(frames, p.frameId)} ::
          FallbackProjected(p) in es <==> ProjectionAt(frames, p.frameId) == Some(p))
    && (forall f {:trigger ProjectionAt(frames, f)} ::
          ProjectionAt(frames, f).Some? ==> ProjectionAt(frames, f).value.frameId == f)
  }

  ghost predicate CitationsTold(es: seq<Event>, frames: Frames) {
    && (forall c {:trigger FallbackCited(c) in es} {:trigger CitationAt(frames, c.frameId)} ::
          FallbackCited(c) in es <==> CitationAt(frames, c.frameId) == Some(c))
    && (forall f {:trigger CitationAt(frames, f)} :: CitationAt(frames, f).Some? ==> CitationAt(frames, f).value.frameId == f)
  }

  /** A frame's record after one of its events. */
  function Touched(r: FrameRecord, e: Event): FrameRecord {
    match e
    case ProgressMade(p) => r.(progress := r.progress[(p.iteration, p.ordinal) := p])
    case CellCommitted(c) => r.(cells := r.cells[c.iteration := c])
    case WorkspaceCommitted(w) => r.(workspaces := r.workspaces[w.iteration := w])
    case AnswerCommitted(a) => r.(answer := Some(a))
    case FallbackProjected(p) => r.(projection := Some(p))
    case FallbackCited(c) => r.(citation := Some(c))
    case FrameClosed(_, state) => r.(closed := Some(state))
    case _ => r
  }

  function NewRecord(o: Opened): FrameRecord { FrameRecord(o, map[], map[], map[], None, None, None, None) }

  function FramesAfter(frames: Frames, e: Event): Frames {
    if e.FrameOpened? then
      if e.opening.frameId in frames then frames else frames[e.opening.frameId := NewRecord(e.opening)]
    else if e.Frame().Some? && e.Frame().value in frames then
      frames[e.Frame().value := Touched(frames[e.Frame().value], e)]
    else frames
  }

  /** The event belongs to an open frame and contradicts nothing that was recorded under its key. */
  predicate Compatible(frames: Frames, e: Event) {
    && (e.Frame().Some? ==> e.Frame().value in frames && frames[e.Frame().value].closed.None?)
    && match e
       case FrameOpened(o) => o.frameId in frames ==> frames[o.frameId].opening == o
       case ProgressMade(p) => ProgressAt(frames, p.frameId, p.iteration, p.ordinal) in {None, Some(p)}
       case CellCommitted(c) => CellAt(frames, c.frameId, c.iteration) in {None, Some(c)}
       case WorkspaceCommitted(w) => WorkspaceAt(frames, w.frameId, w.iteration) in {None, Some(w)}
       case AnswerCommitted(a) => AnswerAt(frames, a.frameId) in {None, Some(a)}
       case FallbackProjected(p) => ProjectionAt(frames, p.frameId) == None
       case FallbackCited(c) => CitationAt(frames, c.frameId) == None
       case _ => true
  }

  lemma OpeningsAfter(es: seq<Event>, frames: Frames, e: Event)
    requires OpeningsTold(es, frames) && Compatible(frames, e)
    ensures OpeningsTold(es + [e], FramesAfter(frames, e))
  {
    var frames' := FramesAfter(frames, e);
    forall f ensures OpeningAt(frames', f) ==
                     if e.FrameOpened? && e.opening.frameId == f then Some(e.opening) else OpeningAt(frames, f) {}
    forall o ensures FrameOpened(o) in es + [e] <==> OpeningAt(frames', o.frameId) == Some(o) {
      assert FrameOpened(o) in es <==> OpeningAt(frames, o.frameId) == Some(o);
    }
  }

  lemma ClosingsAfter(es: seq<Event>, frames: Frames, e: Event)
    requires ClosingsTold(es, frames) && Compatible(frames, e)
    ensures ClosingsTold(es + [e], FramesAfter(frames, e))
  {
    var frames' := FramesAfter(frames, e);
    forall f ensures ClosedAt(frames', f) ==
                     if e.FrameClosed? && e.closedFrame == f then Some(e.state) else ClosedAt(frames, f) {}
    forall f, state ensures FrameClosed(f, state) in es + [e] <==> ClosedAt(frames', f) == Some(state) {
      assert FrameClosed(f, state) in es <==> ClosedAt(frames, f) == Some(state);
    }
  }

  lemma CellsAfter(es: seq<Event>, frames: Frames, e: Event)
    requires CellsTold(es, frames) && Compatible(frames, e)
    ensures CellsTold(es + [e], FramesAfter(frames, e))
  {
    var frames' := FramesAfter(frames, e);
    forall f, i ensures CellAt(frames', f, i) ==
                        if e.CellCommitted? && e.cell.frameId == f && e.cell.iteration == i then Some(e.cell)
                        else CellAt(frames, f, i) {}
    forall c ensures CellCommitted(c) in es + [e] <==> CellAt(frames', c.frameId, c.iteration) == Some(c) {
      assert CellCommitted(c) in es <==> CellAt(frames, c.frameId, c.iteration) == Some(c);
    }
  }

  lemma WorkspacesAfter(es: seq<Event>, frames: Frames, e: Event)
    requires WorkspacesTold(es, frames) && Compatible(frames, e)
    ensures WorkspacesTold(es + [e], FramesAfter(frames, e))
  {
    var frames' := FramesAfter(frames, e);
    forall f, i ensures WorkspaceAt(frames', f, i) ==
                        if e.WorkspaceCommitted? && e.workspace.frameId == f && e.workspace.iteration == i
                        then Some(e.workspace) else WorkspaceAt(frames, f, i) {}
    forall w ensures WorkspaceCommitted(w) in es + [e] <==> WorkspaceAt(frames', w.frameId, w.iteration) == Some(w) {
      assert WorkspaceCommitted(w) in es <==> WorkspaceAt(frames, w.frameId, w.iteration) == Some(w);
    }
  }

  lemma ProgressAfter(es: seq<Event>, frames: Frames, e: Event)
    requires ProgressTold(es, frames) && Compatible(frames, e)
    ensures ProgressTold(es + [e], FramesAfter(frames, e))
  {
    var frames' := FramesAfter(frames, e);
    forall f, i, n ensures ProgressAt(frames', f, i, n) ==
                           if e.ProgressMade? && e.progress.frameId == f && e.progress.iteration == i
                              && e.progress.ordinal == n
                           then Some(e.progress) else ProgressAt(frames, f, i, n) {}
    forall p ensures ProgressMade(p) in es + [e] <==>
                     ProgressAt(frames', p.frameId, p.iteration, p.ordinal) == Some(p) {
      assert ProgressMade(p) in es <==> ProgressAt(frames, p.frameId, p.iteration, p.ordinal) == Some(p);
    }
  }

  lemma AnswersAfter(es: seq<Event>, frames: Frames, e: Event)
    requires AnswersTold(es, frames) && Compatible(frames, e)
    ensures AnswersTold(es + [e], FramesAfter(frames, e))
  {
    var frames' := FramesAfter(frames, e);
    forall f ensures AnswerAt(frames', f) ==
                     if e.AnswerCommitted? && e.answer.frameId == f then Some(e.answer) else AnswerAt(frames, f) {}
    forall a ensures AnswerCommitted(a) in es + [e] <==> AnswerAt(frames', a.frameId) == Some(a) {
      assert AnswerCommitted(a) in es <==> AnswerAt(frames, a.frameId) == Some(a);
    }
  }

  lemma ProjectionsAfter(es: seq<Event>, frames: Frames, e: Event)
    requires ProjectionsTold(es, frames) && Compatible(frames, e)
    ensures ProjectionsTold(es + [e], FramesAfter(frames, e))
  {
    var frames' := FramesAfter(frames, e);
    forall f ensures ProjectionAt(frames', f) ==
                     if e.FallbackProjected? && e.projection.frameId == f then Some(e.projection)
                     else ProjectionAt(frames, f) {}
    forall p ensures FallbackProjected(p) in es + [e] <==> ProjectionAt(frames', p.frameId) == Some(p) {
      assert FallbackProjected(p) in es <==> ProjectionAt(frames, p.frameId) == Some(p);
    }
  }

  lemma CitationsAfter(es: seq<Event>, frames: Frames, e: Event)
    requires CitationsTold(es, frames) && Compatible(frames, e)
    ensures CitationsTold(es + [e], FramesAfter(frames, e))
  {
    var frames' := FramesAfter(frames, e);
    forall f ensures CitationAt(frames', f) ==
                     if e.FallbackCited? && e.citation.frameId == f then Some(e.citation) else CitationAt(frames, f) {}
    forall c ensures FallbackCited(c) in es + [e] <==> CitationAt(frames', c.frameId) == Some(c) {
      assert FallbackCited(c) in es <==> CitationAt(frames, c.frameId) == Some(c);
    }
  }

  // ----- The fold's step on its frames.

  lemma OpenedStep(m: Manifest, s: FoldState, o: Opened)
    requires m.objective.Some? && StepFrameOpened(m, s, o).Ok?
    ensures Compatible(s.frames, FrameOpened(o))
    ensures StepFrameOpened(m, s, o).value.frames == FramesAfter(s.frames, FrameOpened(o))
  {
  }

  lemma ProgressStep(s: FoldState, frame: FrameRecord, p: Progress)
    requires p.frameId in s.frames && frame == s.frames[p.frameId] && frame.closed.None? && StepProgress(s, frame, p).Ok?
    ensures Compatible(s.frames, ProgressMade(p))
    ensures StepProgress(s, frame, p).value.frames == FramesAfter(s.frames, ProgressMade(p))
  {
    if (p.iteration, p.ordinal) in frame.progress { assert frame.progress[(p.iteration, p.ordinal) := p] == frame.progress; }
  }

  lemma WorkspaceStep(s: FoldState, frame: FrameRecord, w: Workspace)
    requires w.frameId in s.frames && frame == s.frames[w.frameId] && frame.closed.None? && StepWorkspace(s, frame, w).Ok?
    ensures Compatible(s.frames, WorkspaceCommitted(w))
    ensures StepWorkspace(s, frame, w).value.frames == FramesAfter(s.frames, WorkspaceCommitted(w))
  {
    if w.iteration in frame.workspaces { assert frame.workspaces[w.iteration := w] == frame.workspaces; }
  }

  lemma CellStep(m: Manifest, s: FoldState, frame: FrameRecord, c: Cell)
    requires CrashCut.RegistryOk(s)
    requires c.frameId in s.frames && frame == s.frames[c.frameId] && frame.closed.None? && StepCell(m, s, frame, c).Ok?
    ensures Compatible(s.frames, CellCommitted(c))
    ensures StepCell(m, s, frame, c).value.frames == FramesAfter(s.frames, CellCommitted(c))
  {
    CrashCut.NewCellStep(m, s, frame, c);
    assert (c.frameId, c.iteration) in s.cells <==> c.iteration in frame.cells;
    if c.iteration in frame.cells {
      assert s.cells[(c.frameId, c.iteration)] == frame.cells[c.iteration];
      assert frame.cells[c.iteration := c] == frame.cells;
      assert s.frames[c.frameId := frame] == s.frames;
    }
  }

  lemma AnswerStep(s: FoldState, frame: FrameRecord, a: Answer)
    requires a.frameId in s.frames && frame == s.frames[a.frameId] && frame.closed.None? && StepAnswer(s, frame, a).Ok?
    ensures Compatible(s.frames, AnswerCommitted(a))
    ensures StepAnswer(s, frame, a).value.frames == FramesAfter(s.frames, AnswerCommitted(a))
  {
    CrashCut.AnswerStep(s, frame, a);
  }

  predicate Quiet(e: Event) {
    e.KeyBound? || e.AgentApproval? || e.OperationIntended? || e.OperationSettled? || e.CheckpointCommitted?
    || e.CallCommitted? || e.RunTerminal?
  }

  lemma QuietStep(m: Manifest, s: FoldState, e: Event)
    requires m.objective.Some? && StepEvent(m, s, e).Ok? && Quiet(e)
    ensures Compatible(s.frames, e) && StepEvent(m, s, e).value.frames == s.frames == FramesAfter(s.frames, e)
  {
    if e.Frame().Some? { assert s.frames[e.Frame().value := s.frames[e.Frame().value]] == s.frames; }
  }

  lemma OpenFrameStep(m: Manifest, s: FoldState, e: Event)
    requires m.objective.Some? && StepEvent(m, s, e).Ok? && e.Frame().Some?
    ensures e.Frame().value in s.frames && s.frames[e.Frame().value].closed.None?
    ensures StepEvent(m, s, e) == StepInFrame(m, s, e, e.Frame().value)
  {
  }

  lemma LaterFrameStep(m: Manifest, s: FoldState, e: Event)
    requires m.objective.Some? && StepEvent(m, s, e).Ok? && (e.FallbackProjected? || e.FallbackCited? || e.FrameClosed?)
    ensures Compatible(s.frames, e) && StepEvent(m, s, e).value.frames == FramesAfter(s.frames, e)
  {
  }

  lemma FramesStep(m: Manifest, s: FoldState, e: Event)
    requires m.objective.Some? && CrashCut.RegistryOk(s) && StepEvent(m, s, e).Ok?
    ensures Compatible(s.frames, e) && StepEvent(m, s, e).value.frames == FramesAfter(s.frames, e)
  {
    if e.Frame().Some? { OpenFrameStep(m, s, e); }
    match e {
      case FrameOpened(o) => OpenedStep(m, s, o);
      case ProgressMade(p) => ProgressStep(s, s.frames[p.frameId], p);
      case WorkspaceCommitted(w) => WorkspaceStep(s, s.frames[w.frameId], w);
      case CellCommitted(c) => CellStep(m, s, s.frames[c.frameId], c);
      case AnswerCommitted(a) => AnswerStep(s, s.frames[a.frameId], a);
      case FallbackProjected(_) => LaterFrameStep(m, s, e);
      case FallbackCited(_) => LaterFrameStep(m, s, e);
      case FrameClosed(_, _) => LaterFrameStep(m, s, e);
      case _ => QuietStep(m, s, e);
    }
  }

  /** Every frame of the fold and every part of it stands for events of the journal, and conversely. */
  ghost predicate FramesTold(es: seq<Event>, frames: Frames) {
    && OpeningsTold(es, frames) && ClosingsTold(es, frames) && CellsTold(es, frames) && WorkspacesTold(es, frames)
    && ProgressTold(es, frames) && AnswersTold(es, frames) && ProjectionsTold(es, frames) && CitationsTold(es, frames)
  }

  lemma FramesToldAfter(es: seq<Event>, frames: Frames, e: Event)
    requires FramesTold(es, frames) && Compatible(frames, e)
    ensures FramesTold(es + [e], FramesAfter(frames, e))
  {
    OpeningsAfter(es, frames, e);
    ClosingsAfter(es, frames, e);
    CellsAfter(es, frames, e);
    WorkspacesAfter(es, frames, e);
    ProgressAfter(es, frames, e);
    AnswersAfter(es, frames, e);
    ProjectionsAfter(es, frames, e);
    CitationsAfter(es, frames, e);
  }

  lemma {:induction false} FoldTellsFrames(m: Manifest, es: seq<Event>)
    requires m.objective.Some? && Fold(m, es).Ok?
    ensures FramesTold(es, Fold(m, es).value.frames)
  {
    if es != [] {
      var front, e := es[..|es| - 1], es[|es| - 1];
      assert es == front + [e];
      FoldTellsFrames(m, front);
      CrashCut.FoldKeepsContent(m, front);
      FramesStep(m, Fold(m, front).value, e);
      FramesToldAfter(front, Fold(m, front).value.frames, e);
    }
  }

  // ----- Keys and approvals.

  ghost predicate KeysTold(runId: string, es: seq<Event>, keys: map<RegistryId, KeyBinding>) {
    && (forall b {:trigger KeyBound(b) in es} ::
          KeyBound(b) in es <==>
            var id := RegistryIdOf(runId, b.kind, b.key, b.frameId); id.Some? && id.value in keys && keys[id.value] == b)
    && (forall id <- keys :: RegistryIdOf(runId, keys[id].kind, keys[id].key, keys[id].frameId) == Some(id))
  }

  ghost predicate ApprovalsTold(es: seq<Event>, approvals: map<(FrameId, CallId), Approval>) {
    && (forall a {:trigger AgentApproval(a) in es} ::
          AgentApproval(a) in es <==> (a.frameId, a.callId) in approvals && approvals[(a.frameId, a.callId)] == a)
    && (forall k <- approvals :: (approvals[k].frameId, approvals[k].callId) == k)
  }

  ghost predicate RegistryTold(runId: string, es: seq<Event>, registry: Registry) {
    KeysTold(runId, es, registry.keys) && ApprovalsTold(es, registry.approvals)
  }

  lemma KeyStep(m: Manifest, s: FoldState, b: KeyBinding)
    requires StepKeyBound(m, s, b).Ok?
    ensures var id := RegistryIdOf(m.runId, b.kind, b.key, b.frameId);
            var registry' := StepKeyBound(m, s, b).value.registry;
            && id.Some? && (id.value in s.registry.keys ==> s.registry.keys[id.value] == b)
            && registry' == s.registry.(keys := s.registry.keys[id.value := b])
  {
    var id := RegistryIdOf(m.runId, b.kind, b.key, b.frameId).value;
    if id in s.registry.keys { assert s.registry.keys[id := b] == s.registry.keys; }
  }

  lemma ApprovalStep(s: FoldState, a: Approval)
    requires StepApproval(s, a).Ok?
    ensures var k, approvals := (a.frameId, a.callId), s.registry.approvals;
            && (k in approvals ==> approvals[k] == a)
            && StepApproval(s, a).value.registry == s.registry.(approvals := approvals[k := a])
  {
    var k, approvals := (a.frameId, a.callId), s.registry.approvals;
    if k in approvals { assert approvals[k := a] == approvals; }
  }

  lemma OtherRegistry(m: Manifest, s: FoldState, e: Event)
    requires m.objective.Some? && StepEvent(m, s, e).Ok? && !e.KeyBound? && !e.AgentApproval?
    ensures StepEvent(m, s, e).value.registry == s.registry
  {
  }

  lemma RegistryAfter(m: Manifest, es: seq<Event>, s: FoldState, e: Event)
    requires m.objective.Some? && StepEvent(m, s, e).Ok? && RegistryTold(m.runId, es, s.registry)
    ensures RegistryTold(m.runId, es + [e], StepEvent(m, s, e).value.registry)
  {
    if e.KeyBound? {
      OpenFrameStep(m, s, e);
      KeyStep(m, s, e.binding);
      BoundKey(m.runId, es, s.registry.keys, e.binding);
    } else if e.AgentApproval? {
      OpenFrameStep(m, s, e);
      ApprovalStep(s, e.approval);
    } else {
      OtherRegistry(m, s, e);
    }
  }

  lemma BoundKey(runId: string, es: seq<Event>, keys: map<RegistryId, KeyBinding>, b: KeyBinding)
    requires KeysTold(runId, es, keys) && RegistryIdOf(runId, b.kind, b.key, b.frameId).Some?
    requires var id := RegistryIdOf(runId, b.kind, b.key, b.frameId).value; id in keys ==> keys[id] == b
    ensures KeysTold(runId, es + [KeyBound(b)], keys[RegistryIdOf(runId, b.kind, b.key, b.frameId).value := b])
  {
    var id := RegistryIdOf(runId, b.kind, b.key, b.frameId).value;
    forall c ensures KeyBound(c) in es + [KeyBound(b)] <==>
                       var i := RegistryIdOf(runId, c.kind, c.key, c.frameId);
                       i.Some? && i.value in keys[id := b] && keys[id := b][i.value] == c {
      assert KeyBound(c) in es <==>
               var i := RegistryIdOf(runId, c.kind, c.key, c.frameId); i.Some? && i.value in keys && keys[i.value] == c;
    }
  }

  lemma {:induction false} FoldTellsRegistry(m: Manifest, es: seq<Event>)
    requires m.objective.Some? && Fold(m, es).Ok?
    ensures RegistryTold(m.runId, es, Fold(m, es).value.registry)
  {
    if es != [] {
      var front, e := es[..|es| - 1], es[|es| - 1];
      assert es == front + [e];
      FoldTellsRegistry(m, front);
      RegistryAfter(m, front, Fold(m, front).value, e);
    }
  }

  // ----- Calls.

  /** The executions of a call, in order; an exact repetition of any but a recurse call is no execution. */
  function Executions(es: seq<Event>, c: CallId): seq<Call> {
    if es == [] then []
    else
      var before, e := Executions(es[..|es| - 1], c), es[|es| - 1];
      if !e.CallCommitted? || e.call.callId != c then before
      else if before != [] && e.call.kind != RecurseCall && before[|before| - 1] == e.call then before
      else before + [e.call]
  }

  function CallsAt(calls: map<CallId, seq<Call>>, c: CallId): seq<Call> { if c in calls then calls[c] else [] }

  ghost predicate CallsTold(es: seq<Event>, calls: map<CallId, seq<Call>>) {
    && (forall c {:trigger Executions(es, c)} {:trigger CallsAt(calls, c)} :: Executions(es, c) == CallsAt(calls, c))
    && (forall c <- calls :: calls[c] != [])
  }

  lemma ExecutionsAppend(es: seq<Event>, e: Event, c: CallId)
    ensures var before := Executions(es, c);
            Executions(es + [e], c) ==
            if !e.CallCommitted? || e.call.callId != c then before
            else if before != [] && e.call.kind != RecurseCall && before[|before| - 1] == e.call then before
            else before + [e.call]
  {
    assert (es + [e])[..|es|] == es;
  }

  lemma CallStep(m: Manifest, s: FoldState, c: Call)
    requires StepCall(m, s, c).Ok?
    ensures var before, calls' := CallsAt(s.calls, c.callId), StepCall(m, s, c).value.calls;
            if before != [] && c.kind != RecurseCall && before[|before| - 1] == c then calls' == s.calls
            else calls' == s.calls[c.callId := before + [c]]
  {
  }

  lemma OtherCalls(m: Manifest, s: FoldState, e: Event)
    requires m.objective.Some? && StepEvent(m, s, e).Ok? && !e.CallCommitted?
    ensures StepEvent(m, s, e).value.calls == s.calls
  {
  }

  lemma CallsAfter(m: Manifest, es: seq<Event>, s: FoldState, e: Event)
    requires m.objective.Some? && StepEvent(m, s, e).Ok? && CallsTold(es, s.calls)
    ensures CallsTold(es + [e], StepEvent(m, s, e).value.calls)
  {
    var calls' := StepEvent(m, s, e).value.calls;
    if e.CallCommitted? {
      OpenFrameStep(m, s, e);
      CallStep(m, s, e.call);
    } else {
      OtherCalls(m, s, e);
    }
    forall c ensures Executions(es + [e], c) == CallsAt(calls', c) {
      ExecutionsAppend(es, e, c);
      assert Executions(es, c) == CallsAt(s.calls, c);
    }
  }

  lemma {:induction false} FoldTellsCalls(m: Manifest, es: seq<Event>)
    requires m.objective.Some? && Fold(m, es).Ok?
    ensures CallsTold(es, Fold(m, es).value.calls)
  {
    if es != [] {
      var front, e := es[..|es| - 1], es[|es| - 1];
      assert es == front + [e];
      FoldTellsCalls(m, front);
      CallsAfter(m, front, Fold(m, front).value, e);
    }
  }

  // ----- Used tokens, checkpoints and the terminal.

  function UsedTokens(settlements: seq<Settlement>): int {
    if settlements == [] then 0
    else UsedTokens(settlements[..|settlements| - 1]) + settlements[|settlements| - 1].usage.Tokens()
  }

  function Checkpoints(es: seq<Event>): nat {
    if es == [] then 0 else Checkpoints(es[..|es| - 1]) + (if es[|es| - 1].CheckpointCommitted? then 1 else 0)
  }

  /** The attempts of controllers, each under its operation. */
  ghost predicate ControllersTold(es: seq<Event>, controllers: set<OperationId>) {
    controllers == set e <- es | e.OperationIntended? && e.intent.identity.kind == ControllerKind ::
                     e.intent.identity.operationId
  }

  ghost predicate TotalsTold(es: seq<Event>, s: FoldState) {
    && s.totals.tokensUsed == UsedTokens(Settlements(es)) && s.totals.checkpointSequence == Checkpoints(es)
    && (forall t :: RunTerminal(t) in es <==> s.terminal == Some(t))
    && ControllersTold(es, s.book.controllerOperations)
  }

  lemma SettledTotals(m: Manifest, s: FoldState, e: Settlement)
    requires StepSettled(m, s, e).Ok?
    ensures var s' := StepSettled(m, s, e).value;
            && s'.totals.tokensUsed == s.totals.tokensUsed + e.usage.Tokens()
            && s'.totals.checkpointSequence == s.totals.checkpointSequence && s'.terminal == s.terminal
            && s'.book.controllerOperations == s.book.controllerOperations
  {
  }

  lemma IntendedTotals(m: Manifest, s: FoldState, frame: FrameRecord, i: Intent)
    requires StepIntended(m, s, frame, i).Ok?
    ensures var s' := StepIntended(m, s, frame, i).value;
            && s'.totals.tokensUsed == s.totals.tokensUsed
            && s'.totals.checkpointSequence == s.totals.checkpointSequence && s'.terminal == s.terminal
            && s'.book.controllerOperations == s.book.controllerOperations +
                 (if i.identity.kind == ControllerKind then {i.identity.operationId} else {})
  {
  }

  lemma OtherTotals(m: Manifest, s: FoldState, e: Event)
    requires m.objective.Some? && StepEvent(m, s, e).Ok? && !e.OperationSettled? && !e.OperationIntended?
    ensures var s' := StepEvent(m, s, e).value;
            && s'.totals.tokensUsed == s.totals.tokensUsed
            && s'.totals.checkpointSequence == s.totals.checkpointSequence + (if e.CheckpointCommitted? then 1 else 0)
            && s'.terminal == (if e.RunTerminal? then Some(e.terminal) else s.terminal) && s.terminal.None?
  {
  }

  lemma TotalsViews(es: seq<Event>, e: Event)
    ensures UsedTokens(Settlements(es + [e])) ==
            UsedTokens(Settlements(es)) + (if e.OperationSettled? then e.settlement.usage.Tokens() else 0)
    ensures Checkpoints(es + [e]) == Checkpoints(es) + (if e.CheckpointCommitted? then 1 else 0)
  {
    assert (es + [e])[..|es|] == es;
    OperationOrder.ViewsAppend(es, e);
    var settlements := Settlements(es);
    if e.OperationSettled? {
      assert (settlements + [e.settlement])[..|settlements|] == settlements;
    } else {
      assert settlements + [] == settlements;
    }
  }

  /** What an event adds to the totals. */
  ghost predicate TotalsGrow(s: FoldState, s': FoldState, e: Event) {
    && s'.totals.tokensUsed == s.totals.tokensUsed + (if e.OperationSettled? then e.settlement.usage.Tokens() else 0)
    && s'.totals.checkpointSequence == s.totals.checkpointSequence + (if e.CheckpointCommitted? then 1 else 0)
    && s.terminal.None? && s'.terminal == (if e.RunTerminal? then Some(e.terminal) else None)
    && s'.book.controllerOperations == s.book.controllerOperations +
         (if e.OperationIntended? && e.intent.identity.kind == ControllerKind
          then {e.intent.identity.operationId} else {})
  }

  lemma TotalsStep(m: Manifest, s: FoldState, e: Event)
    requires m.objective.Some? && StepEvent(m, s, e).Ok?
    ensures TotalsGrow(s, StepEvent(m, s, e).value, e)
  {
    NotTerminated(m, s, e);
    if e.OperationSettled? {
      OpenFrameStep(m, s, e);
      SettledTotals(m, s, e.settlement);
    } else if e.OperationIntended? {
      OpenFrameStep(m, s, e);
      IntendedTotals(m, s, s.frames[e.intent.identity.frameId], e.intent);
    } else {
      OtherTotals(m, s, e);
      OperationOrder.OtherEventsKeepBook(m, s, e);
    }
  }

  lemma TotalsToldAfter(es: seq<Event>, s: FoldState, s': FoldState, e: Event)
    requires TotalsTold(es, s) && TotalsGrow(s, s', e)
    ensures TotalsTold(es + [e], s')
  {
    TotalsViews(es, e);
    ControllersAfter(es, e, s.book.controllerOperations, s'.book.controllerOperations);
  }

  lemma TotalsAfter(m: Manifest, es: seq<Event>, s: FoldState, e: Event)
    requires m.objective.Some? && StepEvent(m, s, e).Ok? && TotalsTold(es, s)
    ensures TotalsTold(es + [e], StepEvent(m, s, e).value)
  {
    TotalsStep(m, s, e);
    TotalsToldAfter(es, s, StepEvent(m, s, e).value, e);
  }

  lemma NotTerminated(m: Manifest, s: FoldState, e: Event)
    requires m.objective.Some? && StepEvent(m, s, e).Ok?
    ensures s.terminal.None?
  {
  }

  lemma ControllersAfter(es: seq<Event>, e: Event, before: set<OperationId>, after: set<OperationId>)
    requires ControllersTold(es, before)
    requires after == before + (if e.OperationIntended? && e.intent.identity.kind == ControllerKind
                                then {e.intent.identity.operationId} else {})
    ensures ControllersTold(es + [e], after)
  {
  }

  lemma {:induction false} FoldTellsTotals(m: Manifest, es: seq<Event>)
    requires m.objective.Some? && Fold(m, es).Ok?
    ensures TotalsTold(es, Fold(m, es).value)
  {
    if es != [] {
      var front, e := es[..|es| - 1], es[|es| - 1];
      assert es == front + [e];
      FoldTellsTotals(m, front);
      TotalsAfter(m, front, Fold(m, front).value, e);
    }
  }

  // ----- All of it.

  ghost predicate Told(m: Manifest, es: seq<Event>, s: FoldState) {
    && FramesTold(es, s.frames) && RegistryTold(m.runId, es, s.registry) && CallsTold(es, s.calls) && TotalsTold(es, s)
    && CrashCut.ContentOk(es, s) && OperationOrder.JournalOk(es, s) && JournalLimits.CountersOk(m, Intents(es), s)
  }

  /** What the strict fold knows of a journal is exactly what the journal's events say. */
  lemma FoldTells(m: Manifest, es: seq<Event>)
    requires m.objective.Some? && Fold(m, es).Ok?
    ensures Told(m, es, Fold(m, es).value)
  {
    FoldTellsFrames(m, es);
    FoldTellsRegistry(m, es);
    FoldTellsCalls(m, es);
    FoldTellsTotals(m, es);
    CrashCut.FoldKeepsContent(m, es);
    OperationOrder.FoldKeepsJournal(m, es);
    JournalLimits.FoldKeepsCounters(m, es);
  }
}
