/**
 * The verdict of recovery on any journal, stated over its events (src/runtime/run-recovery-journal.ts): every event may
 * follow those before it, every cell is complete, and the terminal agrees with the root.
 */
module JournalVerdict {
  import opened Wrappers
  import opened Journal
  import opened RecoveryJournal
  import opened JournalContents
  import opened JournalGrammar
  import JournalLanguage

  // ----- One event.

  /** The part of the grammar that concerns the event's own kind. */
  ghost predicate KindAdmitted(m: Manifest, es: seq<Event>, e: Event)
    requires m.objective.Some?
  {
    match e
    case RunTerminal(t) => t.runId == m.runId
    case FrameOpened(o) => OpeningAdmitted(m, es, o)
    case ProgressMade(p) => ProgressAdmitted(es, p)
    case KeyBound(b) => BindingAdmitted(m, es, b)
    case AgentApproval(a) => ApprovalAdmitted(es, a)
    case CellCommitted(c) => CellAdmitted(m, es, c)
    case WorkspaceCommitted(w) => WorkspaceAdmitted(es, w)
    case FallbackProjected(p) => ProjectionAdmitted(m, es, p)
    case FallbackCited(c) => CitationAdmitted(m, es, c)
    case OperationIntended(i) => IntentAdmitted(m, es, i)
    case OperationSettled(x) => SettlementAdmitted(m, es, x)
    case CheckpointCommitted(c) => CheckpointAdmitted(m, es, c)
    case CallCommitted(c) => CallAdmitted(m, es, c)
    case AnswerCommitted(a) => AnswerAdmitted(es, a)
    case FrameClosed(f, state) => ClosingAdmitted(es, f, state)
    case RunStarted(_, _, _, _) => false
  }

  /** The fold's own step for an event of an open frame. */
  function StepKind(m: Manifest, s: FoldState, e: Event): Step
    requires e.Frame().Some? && e.Frame().value in s.frames
  {
    var frame := s.frames[e.Frame().value];
    match e
    case ProgressMade(p) => StepProgress(s, frame, p)
    case KeyBound(b) => StepKeyBound(m, s, b)
    case AgentApproval(a) => StepApproval(s, a)
    case CellCommitted(c) => StepCell(m, s, frame, c)
    case WorkspaceCommitted(w) => StepWorkspace(s, frame, w)
    case FallbackProjected(p) => StepProjected(m, s, frame, p)
    case FallbackCited(c) => StepCited(m, s, frame, c)
    case OperationIntended(i) => StepIntended(m, s, frame, i)
    case OperationSettled(x) => StepSettled(m, s, x)
    case CheckpointCommitted(c) => StepCheckpoint(m, s, c)
    case CallCommitted(c) => StepCall(m, s, c)
    case AnswerCommitted(a) => StepAnswer(s, frame, a)
    case FrameClosed(f, state) => StepClosed(s, frame, f, state)
  }

  ghost predicate KindDecided(m: Manifest, es: seq<Event>, s: FoldState, e: Event)
    requires m.objective.Some? && e.Frame().Some? && e.Frame().value in s.frames
  {
    StepKind(m, s, e).Ok? <==> KindAdmitted(m, es, e)
  }

  lemma WorkVerdict(m: Manifest, es: seq<Event>, s: FoldState, e: Event)
    requires m.objective.Some? && Told(m, es, s) && e.Frame().Some? && e.Frame().value in s.frames
    requires e.ProgressMade? || e.CellCommitted? || e.WorkspaceCommitted? || e.FrameClosed?
    ensures KindDecided(m, es, s, e)
  {
    match e {
      case ProgressMade(p) => JournalLanguage.ProgressVerdict(es, s, p);
      case CellCommitted(c) => JournalLanguage.CellVerdict(m, es, s, c);
      case WorkspaceCommitted(w) => JournalLanguage.WorkspaceVerdict(es, s, w);
      case FrameClosed(f, state) => JournalLanguage.ClosingVerdict(es, s, f, state);
    }
  }

  lemma ResultVerdict(m: Manifest, es: seq<Event>, s: FoldState, e: Event)
    requires m.objective.Some? && Told(m, es, s) && e.Frame().Some? && e.Frame().value in s.frames
    requires e.FallbackProjected? || e.FallbackCited? || e.AnswerCommitted?
    ensures KindDecided(m, es, s, e)
  {
    match e {
      case FallbackProjected(p) => JournalLanguage.ProjectionVerdict(m, es, s, p);
      case FallbackCited(c) => JournalLanguage.CitationVerdict(m, es, s, c);
      case AnswerCommitted(a) => JournalLanguage.AnswerVerdict(es, s, a);
    }
  }

  lemma OperationVerdict(m: Manifest, es: seq<Event>, s: FoldState, e: Event)
    requires m.objective.Some? && Told(m, es, s) && e.Frame().Some? && e.Frame().value in s.frames
    requires e.OperationIntended? || e.OperationSettled?
    ensures KindDecided(m, es, s, e)
  {
    if e.OperationIntended? {
      JournalLanguage.IntentVerdict(m, es, s, e.intent);
    } else {
      JournalLanguage.SettlementVerdict(m, es, s, e.settlement);
    }
  }

  lemma CallOrCheckpointVerdict(m: Manifest, es: seq<Event>, s: FoldState, e: Event)
    requires m.objective.Some? && Told(m, es, s) && e.Frame().Some? && e.Frame().value in s.frames
    requires e.CheckpointCommitted? || e.CallCommitted?
    ensures KindDecided(m, es, s, e)
  {
    if e.CallCommitted? {
      JournalLanguage.CallVerdict(m, es, s, e.call);
    } else {
      JournalLanguage.BoundaryRead(m, es, s);
      JournalLanguage.CheckpointVerdict(m, es, s, e.checkpoint);
    }
  }

  lemma RegistryVerdict(m: Manifest, es: seq<Event>, s: FoldState, e: Event)
    requires m.objective.Some? && RegistryTold(m.runId, es, s.registry) && e.Frame().Some? && e.Frame().value in s.frames
    requires e.KeyBound? || e.AgentApproval?
    ensures KindDecided(m, es, s, e)
  {
    if e.KeyBound? {
      JournalLanguage.BindingVerdict(m, es, s, e.binding);
    } else {
      JournalLanguage.ApprovalVerdict(es, s, e.approval);
    }
  }

  lemma KindVerdict(m: Manifest, es: seq<Event>, s: FoldState, e: Event)
    requires m.objective.Some? && Told(m, es, s) && e.Frame().Some? && e.Frame().value in s.frames
    ensures KindDecided(m, es, s, e)
  {
    if e.OperationIntended? || e.OperationSettled? { OperationVerdict(m, es, s, e); }
    else if e.CheckpointCommitted? || e.CallCommitted? { CallOrCheckpointVerdict(m, es, s, e); }
    else if e.KeyBound? || e.AgentApproval? { RegistryVerdict(m, es, s, e); }
    else if e.FallbackProjected? || e.FallbackCited? || e.AnswerCommitted? { ResultVerdict(m, es, s, e); }
    else { WorkVerdict(m, es, s, e); }
  }

  lemma KindCode(m: Manifest, s: FoldState, e: Event)
    requires e.Frame().Some? && e.Frame().value in s.frames && StepKind(m, s, e).Err?
    ensures StepKind(m, s, e).error == if Misnamed(m, e) then IdentityMismatch else SemanticCorruption
  {
  }

  lemma OpeningCode(m: Manifest, s: FoldState, o: Opened)
    requires m.objective.Some? && StepFrameOpened(m, s, o).Err?
    ensures StepFrameOpened(m, s, o).error == SemanticCorruption
  {
  }

  /** How the fold gets to the step of an event's own kind. */
  lemma StepCases(m: Manifest, s: FoldState, e: Event)
    requires m.objective.Some?
    ensures s.terminal.Some? || e.RunStarted? ==> StepEvent(m, s, e) == Err(SemanticCorruption)
    ensures s.terminal.None? && e.RunTerminal? ==>
              StepEvent(m, s, e) == if e.terminal.runId != m.runId then Err(IdentityMismatch)
                                    else Ok(s.(terminal := Some(e.terminal)))
    ensures s.terminal.None? && e.FrameOpened? ==> StepEvent(m, s, e) == StepFrameOpened(m, s, e.opening)
    ensures s.terminal.None? && e.Frame().Some? ==>
              StepEvent(m, s, e) ==
              if e.Frame().value in s.frames && s.frames[e.Frame().value].closed.None? then StepKind(m, s, e)
              else Err(SemanticCorruption)
  {
  }

  /** What the fold knows of the event's frame, and what it decides about an event of its kind. */
  ghost predicate FrameDecided(m: Manifest, es: seq<Event>, s: FoldState, e: Event)
    requires m.objective.Some? && e.Frame().Some?
  {
    var f := e.Frame().value;
    && (OpenIn(es, f) <==> f in s.frames && s.frames[f].closed.None?)
    && (f in s.frames ==>
          && (StepKind(m, s, e).Ok? <==> KindAdmitted(m, es, e))
          && (StepKind(m, s, e).Err? ==>
                StepKind(m, s, e) == Err(if Misnamed(m, e) then IdentityMismatch else SemanticCorruption)))
  }

  ghost predicate Decided(m: Manifest, es: seq<Event>, s: FoldState, e: Event)
    requires m.objective.Some?
  {
    && (StepEvent(m, s, e).Ok? <==> Admitted(m, es, e))
    && (StepEvent(m, s, e).Err? ==> StepEvent(m, s, e) == Err(RefusalCode(m, es, e)))
  }

  lemma EventCases(m: Manifest, es: seq<Event>, s: FoldState, e: Event)
    requires m.objective.Some? && (TerminatedIn(es) <==> s.terminal.Some?)
    requires e.Frame().Some? ==> FrameDecided(m, es, s, e)
    requires e.FrameOpened? ==>
               && (StepFrameOpened(m, s, e.opening).Ok? <==> OpeningAdmitted(m, es, e.opening))
               && (StepFrameOpened(m, s, e.opening).Err? ==>
                     StepFrameOpened(m, s, e.opening) == Err(SemanticCorruption))
    ensures Decided(m, es, s, e)
  {
    StepCases(m, s, e);
    AdmittedCases(m, es, e);
  }

  lemma EventVerdict(m: Manifest, es: seq<Event>, s: FoldState, e: Event)
    requires m.objective.Some? && Told(m, es, s)
    ensures Decided(m, es, s, e)
  {
    TerminalRead(es, s);
    if e.FrameOpened? {
      JournalLanguage.OpeningVerdict(m, es, s, e.opening);
      if StepFrameOpened(m, s, e.opening).Err? { OpeningCode(m, s, e.opening); }
    } else if e.Frame().Some? {
      FrameVerdict(m, es, s, e);
    }
    EventCases(m, es, s, e);
  }

  lemma FrameVerdict(m: Manifest, es: seq<Event>, s: FoldState, e: Event)
    requires m.objective.Some? && Told(m, es, s) && e.Frame().Some?
    ensures FrameDecided(m, es, s, e)
  {
    JournalLanguage.FramesRead(es, s.frames, e.Frame().value);
    if e.Frame().value in s.frames {
      KindVerdict(m, es, s, e);
      if StepKind(m, s, e).Err? { KindCode(m, s, e); }
    }
  }

  lemma AdmittedCases(m: Manifest, es: seq<Event>, e: Event)
    requires m.objective.Some?
    ensures Admitted(m, es, e) <==>
              && !TerminatedIn(es) && !e.RunStarted? && (e.Frame().Some? ==> OpenIn(es, e.Frame().value))
              && KindAdmitted(m, es, e)
    ensures Misnamed(m, e) ==> !KindAdmitted(m, es, e)
  {
  }

  lemma TerminalRead(es: seq<Event>, s: FoldState)
    requires TotalsTold(es, s)
    ensures TerminatedIn(es) <==> s.terminal.Some?
    ensures s.terminal.Some? ==> RunTerminal(s.terminal.value) in es
  {
    if s.terminal.Some? { assert RunTerminal(s.terminal.value) in es; }
    if TerminatedIn(es) {
      var e :| e in es && e.RunTerminal?;
      assert RunTerminal(e.terminal) in es;
    }
  }

  // ----- Whole journals.

  ghost predicate AdmittedAt(m: Manifest, es: seq<Event>, p: nat)
    requires m.objective.Some? && p < |es|
  {
    Admitted(m, es[..p], es[p])
  }

  ghost predicate AllAdmitted(m: Manifest, es: seq<Event>)
    requires m.objective.Some?
  {
    forall p | 0 <= p < |es| :: AdmittedAt(m, es, p)
  }

  /** The first event that may not follow those before it. */
  ghost predicate FirstRefused(m: Manifest, es: seq<Event>, p: nat)
    requires m.objective.Some?
  {
    p < |es| && !AdmittedAt(m, es, p) && forall q | 0 <= q < p :: AdmittedAt(m, es, q)
  }

  /** The journal is refused for its first event that may not follow. */
  ghost predicate RefusedAt(m: Manifest, es: seq<Event>, p: nat, code: RecoveryCode)
    requires m.objective.Some?
  {
    FirstRefused(m, es, p) && code == RefusalCode(m, es[..p], es[p])
  }

  lemma FrontAdmitted(m: Manifest, es: seq<Event>)
    requires m.objective.Some? && es != []
    ensures AllAdmitted(m, es) <==> AllAdmitted(m, es[..|es| - 1]) && AdmittedAt(m, es, |es| - 1)
    ensures forall p: nat, code :: RefusedAt(m, es[..|es| - 1], p, code) ==> RefusedAt(m, es, p, code)
    ensures AllAdmitted(m, es[..|es| - 1]) && !AdmittedAt(m, es, |es| - 1) ==> FirstRefused(m, es, |es| - 1)
  {
    var front := es[..|es| - 1];
    forall p: nat | p < |front| 
      ensures front[..p] == es[..p] && (AdmittedAt(m, es, p) <==> AdmittedAt(m, front, p))
    {
      assert front[..p] == es[..p];
    }
  }

  /**
   * The strict fold accepts exactly the journals in which every event may follow those before it. Any other it refuses
   * for the first event that may not: a terminal, intent, settlement or checkpoint of another run, manifest or frame as
   * an identity mismatch, all else as corruption.
   */
  lemma {:induction false} FoldVerdict(m: Manifest, es: seq<Event>)
    requires m.objective.Some?
    ensures Fold(m, es).Ok? <==> AllAdmitted(m, es)
    ensures Fold(m, es).Err? ==> exists p: nat :: RefusedAt(m, es, p, Fold(m, es).error)
  {
    if es != [] {
      var front, n := es[..|es| - 1], |es| - 1;
      FoldVerdict(m, front);
      FrontAdmitted(m, es);
      if Fold(m, front).Ok? {
        LastVerdict(m, front, es[n]);
        assert es[..n] == front;
        if Fold(m, es).Err? { assert RefusedAt(m, es, n, Fold(m, es).error); }
      } else {
        var p: nat :| RefusedAt(m, front, p, Fold(m, front).error);
        assert RefusedAt(m, es, p, Fold(m, es).error);
      }
    }
  }

  lemma LastVerdict(m: Manifest, es: seq<Event>, e: Event)
    requires m.objective.Some? && Fold(m, es).Ok?
    ensures Decided(m, es, Fold(m, es).value, e)
  {
    FoldTells(m, es);
    EventVerdict(m, es, Fold(m, es).value, e);
  }

  // ----- The end checks.

  ghost predicate AnsweredIn(es: seq<Event>, c: Cell) {
    exists a :: AnswerCommitted(a) in es && a.frameId == c.frameId && a.mode == AnswerMode && a.output.id == c.output.id
  }

  ghost predicate WorkspaceIn(es: seq<Event>, f: FrameId, i: nat) {
    exists w :: WorkspaceCommitted(w) in es && w.frameId == f && w.iteration == i
  }

  /**
   * Every cell has its workspace, unless the interpreter failed, and its answer, if it has an output; every workspace
   * has its cell, or is the next one of a run that has not ended.
   */
  ghost predicate CompleteIn(es: seq<Event>) {
    && (forall c :: CellCommitted(c) in es ==>
          (InterpreterFailure(c) || WorkspaceIn(es, c.frameId, c.iteration)) && (c.output.id.Some? ==> AnsweredIn(es, c)))
    && (forall w :: WorkspaceCommitted(w) in es ==>
          w.iteration in CellsIn(es, w.frameId)
          || (!TerminatedIn(es) && w.iteration == |CellsIn(es, w.frameId)| + 1))
  }

  ghost predicate AllClosedIn(es: seq<Event>) { forall f :: OpenedIn(es, f) ==> ClosedIn(es, f) }

  /** The root answered, in the terminal's mode and with the terminal's output. */
  ghost predicate RootAnsweredIn(m: Manifest, es: seq<Event>, mode: CompletionMode, output: Option<string>) {
    && FrameClosed(m.Root(), Answered) in es && output.Some?
    && exists a :: AnswerCommitted(a) in es && a.frameId == m.Root() && a.mode == mode && a.output.id == output
  }

  /** Why the terminal is refused, if it is. */
  ghost function TerminalRefusal(m: Manifest, es: seq<Event>, t: Terminal): Option<RecoveryCode> {
    if !AllClosedIn(es) then Some(SemanticCorruption)
    else
      match t
      case RunCompleted(_, mode, output) =>
        if !ExecutionsMatchIn(m, es) then Some(SemanticCorruption)
        else if !RootAnsweredIn(m, es, mode, output) then Some(TerminalInconsistent)
        else None
      case RunCancelled(_, _) =>
        if OpenedIn(es, m.Root()) && FrameClosed(m.Root(), Cancelled) !in es then Some(TerminalInconsistent) else None
      case RunFailed(_, _, _) =>
        if OpenedIn(es, m.Root()) && FrameClosed(m.Root(), Failed) !in es then Some(TerminalInconsistent) else None
  }

  ghost predicate RefusedFor(m: Manifest, es: seq<Event>, code: RecoveryCode) {
    exists t :: RunTerminal(t) in es && TerminalRefusal(m, es, t) == Some(code)
  }

  lemma CellCompleteRead(es: seq<Event>, frames: Frames, f: FrameId, i: nat)
    requires FramesTold(es, frames) && f in frames && i in frames[f].cells
    ensures var c := frames[f].cells[i];
            && CellCommitted(c) in es && c.frameId == f && c.iteration == i
            && (i in frames[f].workspaces <==> WorkspaceIn(es, f, i))
            && (CellAnswered(frames[f], c) <==> (c.output.id.Some? ==> AnsweredIn(es, c)))
  {
    assert CellAt(frames, f, i) == Some(frames[f].cells[i]);
    assert CellCommitted(frames[f].cells[i]) in es;
    if i in frames[f].workspaces {
      assert WorkspaceAt(frames, f, i) == Some(frames[f].workspaces[i]);
      assert WorkspaceCommitted(frames[f].workspaces[i]) in es;
    }
    forall w | WorkspaceCommitted(w) in es && w.frameId == f && w.iteration == i ensures i in frames[f].workspaces {
      assert WorkspaceAt(frames, f, i) == Some(w);
    }
    if frames[f].answer.Some? {
      assert AnswerAt(frames, f) == frames[f].answer;
      assert AnswerCommitted(frames[f].answer.value) in es;
    }
    forall a | AnswerCommitted(a) in es && a.frameId == f ensures frames[f].answer == Some(a) {
      assert AnswerAt(frames, f) == Some(a);
    }
  }

  lemma WorkspacePlacedRead(es: seq<Event>, frames: Frames, f: FrameId, i: nat)
    requires FramesTold(es, frames) && f in frames && i in frames[f].workspaces
    ensures var w := frames[f].workspaces[i]; WorkspaceCommitted(w) in es && w.frameId == f && w.iteration == i
    ensures i in frames[f].cells <==> i in CellsIn(es, f)
    ensures |frames[f].cells| == |CellsIn(es, f)|
  {
    assert WorkspaceAt(frames, f, i) == Some(frames[f].workspaces[i]);
    JournalLanguage.CellsRead(es, frames, f);
  }

  ghost predicate FramesDone(s: FoldState) {
    forall f <- s.frames :: CellsComplete(s.frames[f]) && WorkspacesPlaced(s.frames[f], s.terminal.Some?)
  }

  lemma CompleteRead(es: seq<Event>, s: FoldState)
    requires FramesTold(es, s.frames) && (TerminatedIn(es) <==> s.terminal.Some?)
    ensures FramesDone(s) <==> CompleteIn(es)
  {
    if FramesDone(s) {
      forall c | CellCommitted(c) in es
        ensures (InterpreterFailure(c) || WorkspaceIn(es, c.frameId, c.iteration)) && (c.output.id.Some? ==> AnsweredIn(es, c))
      {
        assert CellAt(s.frames, c.frameId, c.iteration) == Some(c);
        CellCompleteRead(es, s.frames, c.frameId, c.iteration);
      }
      forall w | WorkspaceCommitted(w) in es
        ensures w.iteration in CellsIn(es, w.frameId)
                || (!TerminatedIn(es) && w.iteration == |CellsIn(es, w.frameId)| + 1)
      {
        assert WorkspaceAt(s.frames, w.frameId, w.iteration) == Some(w);
        WorkspacePlacedRead(es, s.frames, w.frameId, w.iteration);
      }
    }
    if CompleteIn(es) {
      forall f | f in s.frames ensures CellsComplete(s.frames[f]) && WorkspacesPlaced(s.frames[f], s.terminal.Some?) {
        FrameDone(es, s, f);
      }
    }
  }

  lemma FrameDone(es: seq<Event>, s: FoldState, f: FrameId)
    requires FramesTold(es, s.frames) && (TerminatedIn(es) <==> s.terminal.Some?) && CompleteIn(es) && f in s.frames
    ensures CellsComplete(s.frames[f]) && WorkspacesPlaced(s.frames[f], s.terminal.Some?)
  {
    forall i | i in s.frames[f].cells
      ensures (InterpreterFailure(s.frames[f].cells[i]) || i in s.frames[f].workspaces)
              && CellAnswered(s.frames[f], s.frames[f].cells[i])
    {
      CellCompleteRead(es, s.frames, f, i);
    }
    forall i | i in s.frames[f].workspaces
      ensures i in s.frames[f].cells || (!s.terminal.Some? && i == |s.frames[f].cells| + 1)
    {
      WorkspacePlacedRead(es, s.frames, f, i);
    }
  }

  ghost predicate RootKnown(m: Manifest, es: seq<Event>, s: FoldState) {
    var root := m.Root();
    && (OpenedIn(es, root) <==> root in s.frames)
    && (forall state :: FrameClosed(root, state) in es <==> root in s.frames && s.frames[root].closed == Some(state))
    && (forall a :: AnswerCommitted(a) in es && a.frameId == root <==> root in s.frames && s.frames[root].answer == Some(a))
    && (AllClosedIn(es) <==> OpenFrames(s) == {})
    && (ExecutionsMatch(m, s) <==> ExecutionsMatchIn(m, es))
  }

  lemma AllClosedRead(es: seq<Event>, s: FoldState)
    requires FramesTold(es, s.frames)
    ensures AllClosedIn(es) <==> OpenFrames(s) == {}
  {
    forall f ensures OpenIn(es, f) <==> f in OpenFrames(s) { JournalLanguage.OpenFramesRead(es, s, f); }
    if AllClosedIn(es) {
      forall f ensures f !in OpenFrames(s) { assert !OpenIn(es, f); }
    }
    if OpenFrames(s) == {} {
      forall f | OpenedIn(es, f) ensures ClosedIn(es, f) { assert !OpenIn(es, f); }
    }
  }

  lemma ClosingRead(es: seq<Event>, frames: Frames, f: FrameId)
    requires ClosingsTold(es, frames)
    ensures forall state :: FrameClosed(f, state) in es <==> f in frames && frames[f].closed == Some(state)
  {
    forall state ensures FrameClosed(f, state) in es <==> f in frames && frames[f].closed == Some(state) {
      assert FrameClosed(f, state) in es <==> ClosedAt(frames, f) == Some(state);
    }
  }

  lemma RootRead(m: Manifest, es: seq<Event>, s: FoldState)
    requires FramesTold(es, s.frames) && CallsTold(es, s.calls)
    ensures RootKnown(m, es, s)
  {
    var root := m.Root();
    JournalLanguage.FramesRead(es, s.frames, root);
    ClosingRead(es, s.frames, root);
    AnswerRead(es, s.frames, root);
    AllClosedRead(es, s);
    JournalLanguage.ExecutionsMatchRead(m, es, s);
  }

  lemma AnswerRead(es: seq<Event>, frames: Frames, f: FrameId)
    requires AnswersTold(es, frames)
    ensures forall a :: AnswerCommitted(a) in es && a.frameId == f <==> f in frames && frames[f].answer == Some(a)
  {
    forall a ensures AnswerCommitted(a) in es && a.frameId == f <==> f in frames && frames[f].answer == Some(a) {
      assert AnswerCommitted(a) in es <==> AnswerAt(frames, a.frameId) == Some(a);
      if f in frames && frames[f].answer == Some(a) { assert AnswerAt(frames, f).Some?; }
    }
  }

  lemma TerminalVerdict(m: Manifest, es: seq<Event>, s: FoldState, t: Terminal)
    requires RootKnown(m, es, s)
    ensures CheckTerminal(m, s, t) ==
            match TerminalRefusal(m, es, t) case Some(code) => Err(code) case None => Ok(())
  {
  }

  /** The end checks in their order: incomplete cells, then the terminal, then outstanding effects. */
  ghost predicate Ends(m: Manifest, es: seq<Event>, verdict: Result<RecoveryModel, RecoveryCode>) {
    && (verdict == Err(SemanticCorruption) <==> !CompleteIn(es) || RefusedFor(m, es, SemanticCorruption))
    && (verdict == Err(TerminalInconsistent) <==> CompleteIn(es) && RefusedFor(m, es, TerminalInconsistent))
    && (verdict == Err(Ambiguous) <==>
          CompleteIn(es) && !AllSettledIn(es)
          && !RefusedFor(m, es, SemanticCorruption) && !RefusedFor(m, es, TerminalInconsistent))
    && (verdict.Ok? <==>
          CompleteIn(es) && AllSettledIn(es)
          && !RefusedFor(m, es, SemanticCorruption) && !RefusedFor(m, es, TerminalInconsistent))
  }

  /** What the model of an accepted journal tells. */
  ghost predicate Modelled(m: Manifest, es: seq<Event>, model: RecoveryModel) {
    && model.rootFrameId == m.Root()
    && (forall t :: model.terminal == Some(t) <==> RunTerminal(t) in es)
    && (forall a :: model.rootAnswer == Some(a) <==> AnswerCommitted(a) in es && a.frameId == m.Root())
    && model.committedCells == |TurnsIn(es)|
    && model.committedCalls == |(set e <- es | e.CallCommitted? :: e.call.callId)|
  }

  ghost predicate EndKnown(m: Manifest, es: seq<Event>, s: FoldState) {
    && (FramesDone(s) <==> CompleteIn(es)) && RootKnown(m, es, s)
    && (AllSettledIn(es) <==> !Unresolved(s)) && (AllSettledIn(es) ==> s.totals.tokensReserved == 0)
    && (forall t :: RunTerminal(t) in es <==> s.terminal == Some(t))
  }

  lemma EndRead(m: Manifest, es: seq<Event>, s: FoldState)
    requires Told(m, es, s)
    ensures EndKnown(m, es, s)
  {
    TerminalRead(es, s);
    CompleteRead(es, s);
    RootRead(m, es, s);
    JournalLanguage.UnresolvedRead(es, s);
  }

  lemma FinishCases(m: Manifest, s: FoldState)
    ensures var terminal := if s.terminal.Some? then CheckTerminal(m, s, s.terminal.value) else Ok(());
            && (!FramesDone(s) ==> Finish(m, s) == Err(SemanticCorruption))
            && (FramesDone(s) && terminal.Err? ==> Finish(m, s) == Err(terminal.error))
            && (FramesDone(s) && terminal.Ok? && Unresolved(s) ==> Finish(m, s) == Err(Ambiguous))
            && (FramesDone(s) && terminal.Ok? && !Unresolved(s) && s.totals.tokensReserved == 0 ==>
                  Finish(m, s) == Ok(RecoveryModel(
                    m.Root(), s.terminal, if m.Root() in s.frames then s.frames[m.Root()].answer else None,
                    |s.cells|, |s.calls|)))
  {
  }

  lemma RefusalsRead(m: Manifest, es: seq<Event>, s: FoldState)
    requires EndKnown(m, es, s)
    ensures var terminal := if s.terminal.Some? then CheckTerminal(m, s, s.terminal.value) else Ok(());
            && (forall code :: RefusedFor(m, es, code) <==> terminal == Err(code))
            && (terminal.Err? ==> terminal.error in {SemanticCorruption, TerminalInconsistent})
  {
    if s.terminal.Some? {
      TerminalVerdict(m, es, s, s.terminal.value);
      assert RunTerminal(s.terminal.value) in es;
    }
  }

  lemma EndVerdict(m: Manifest, es: seq<Event>, s: FoldState)
    requires EndKnown(m, es, s)
    ensures Ends(m, es, Finish(m, s))
  {
    RefusalsRead(m, es, s);
    FinishCases(m, s);
  }

  lemma CalledRead(es: seq<Event>, calls: map<CallId, seq<Call>>)
    requires CallsTold(es, calls)
    ensures |calls| == |(set e <- es | e.CallCommitted? :: e.call.callId)|
  {
    var called := set e <- es | e.CallCommitted? :: e.call.callId;
    forall c ensures c in calls <==> c in called {
      assert Executions(es, c) == CallsAt(calls, c);
      ExecutedIsCalled(es, c);
    }
    assert calls.Keys == called;
  }

  lemma {:induction false} ExecutedIsCalled(es: seq<Event>, c: CallId)
    ensures Executions(es, c) != [] <==> exists e <- es :: e.CallCommitted? && e.call.callId == c
  {
    if es != [] {
      var front, last := es[..|es| - 1], es[|es| - 1];
      assert es == front + [last];
      ExecutedIsCalled(front, c);
    }
  }

  lemma ModelRead(m: Manifest, es: seq<Event>, s: FoldState)
    requires Told(m, es, s) && Finish(m, s).Ok?
    ensures Modelled(m, es, Finish(m, s).value)
  {
    EndRead(m, es, s);
    RefusalsRead(m, es, s);
    FinishCases(m, s);
    JournalLanguage.TurnsRead(es, s);
    CalledRead(es, s.calls);
  }

  /**
   * The verdict on a journal that folds, over its events alone. It is corrupt if a cell or a workspace is incomplete or
   * if a terminal comes with an open frame or, completed, without the bijection of executions; its terminal is
   * inconsistent if it disagrees with how the root was closed and answered; otherwise it is ambiguous if an intent has no
   * settlement, and accepted if all have theirs.
   */
  lemma FinishVerdict(m: Manifest, es: seq<Event>)
    requires m.objective.Some? && AllAdmitted(m, es)
    ensures Fold(m, es).Ok? && Ends(m, es, Finish(m, Fold(m, es).value))
    ensures Finish(m, Fold(m, es).value).Ok? ==> Modelled(m, es, Finish(m, Fold(m, es).value).value)
  {
    FoldVerdict(m, es);
    FoldTells(m, es);
    EndRead(m, es, Fold(m, es).value);
    EndVerdict(m, es, Fold(m, es).value);
    if Finish(m, Fold(m, es).value).Ok? { ModelRead(m, es, Fold(m, es).value); }
  }

  /** The one start event that belongs to the manifest. */
  function StartOf(m: Manifest): Event {
    RunStarted(m.runId, m.manifestHash, m.limits, Some(seq(|m.inputs|, i requires 0 <= i < |m.inputs| =>
      InputRef(m.inputs[i].name, "ctx_" + m.inputs[i].sha256, m.inputs[i].sha256, m.inputs[i].bytes))))
  }

  ghost predicate StartsOnce(events: seq<Event>) {
    events != [] && events[0].RunStarted? && forall i | 1 <= i < |events| :: !events[i].RunStarted?
  }

  /** A journal starts once, with its manifest's start; only then does it matter that the program can be normalized. */
  lemma StartVerdict(m: Manifest, events: seq<Event>)
    ensures CheckStart(m, events) ==
            if !StartsOnce(events) then Err(SemanticCorruption)
            else if events[0] != StartOf(m) then Err(IdentityMismatch)
            else if m.objective.None? then Err(SemanticCorruption)
            else Ok(())
  {
    if StartsOnce(events) && events[0].inputRefs.Some? && |events[0].inputRefs.value| == |m.inputs| {
      var refs, expected := events[0].inputRefs.value, StartOf(m).inputRefs.value;
      assert refs == expected <==> forall i | 0 <= i < |refs| :: refs[i] == expected[i];
    }
  }

  /** Recovery accepts a journal exactly if its start is the manifest's, every event may follow, and it ends well. */
  lemma AcceptedExactly(m: Manifest, events: seq<Event>)
    ensures Validate(m, events).Ok? <==>
              && StartsOnce(events) && events[0] == StartOf(m) && m.objective.Some? && AllAdmitted(m, events[1..])
              && CompleteIn(events[1..]) && AllSettledIn(events[1..])
              && forall t :: RunTerminal(t) in events[1..] ==> TerminalRefusal(m, events[1..], t).None?
    ensures Validate(m, events).Ok? ==> Modelled(m, events[1..], Validate(m, events).value)
  {
    StartVerdict(m, events);
    if CheckStart(m, events).Ok? {
      var es := events[1..];
      FoldVerdict(m, es);
      if AllAdmitted(m, es) {
        FinishVerdict(m, es);
        RefusalsAre(m, es);
      }
    }
  }

  lemma RefusalsAre(m: Manifest, es: seq<Event>)
    ensures (!RefusedFor(m, es, SemanticCorruption) && !RefusedFor(m, es, TerminalInconsistent)) <==>
              forall t :: RunTerminal(t) in es ==> TerminalRefusal(m, es, t).None?
  {
  }
}
