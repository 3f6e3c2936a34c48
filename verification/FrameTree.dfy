/** The frames of a journal form one tree whose closures respect ancestry. */
module FrameTree {
  import opened Wrappers
  import opened Journal
  import opened RecoveryJournal

  ghost predicate FrameOk(m: Manifest, s: FoldState, f: FrameId)
    requires f in s.frames
  {
    var o := s.frames[f].opening;
    && f.runId == m.runId
    && o.frameId == f
    && (o.parent.None? <==> f == m.Root())
    && (o.parent.None? ==> o.depth == 0)
    && (o.parent.Some? ==>
          && o.parent.value in s.frames
          && o.depth == s.frames[o.parent.value].opening.depth + 1 <= m.limits.maxDepth
          && (s.frames[f].closed.None? ==> s.frames[o.parent.value].closed.None?))
  }

  /** Parents exist one level up, within the depth limit, and are open while a child is. */
  ghost predicate FramesOk(m: Manifest, s: FoldState) {
    && (forall f {:trigger FrameOk(m, s, f)} | f in s.frames :: FrameOk(m, s, f))
    && (s.frames != map[] ==> m.Root() in s.frames)
  }

  lemma FrameOpenedKeepsFrames(m: Manifest, s: FoldState, o: Opened)
    requires m.objective.Some? && FramesOk(m, s) && StepFrameOpened(m, s, o).Ok?
    ensures FramesOk(m, StepFrameOpened(m, s, o).value)
  {
    var s' := StepFrameOpened(m, s, o).value;
    forall f | f in s'.frames ensures FrameOk(m, s', f) {
      if f in s.frames {
        assert FrameOk(m, s, f);
      } else if o.parent.Some? {
        assert FrameOk(m, s, o.parent.value);
      }
    }
  }

  lemma FrameClosedKeepsFrames(m: Manifest, s: FoldState, frame: FrameRecord, f: FrameId, state: FrameState)
    requires FramesOk(m, s) && f in s.frames && frame == s.frames[f]
    requires StepClosed(s, frame, f, state).Ok?
    ensures FramesOk(m, StepClosed(s, frame, f, state).value)
  {
    var s' := StepClosed(s, frame, f, state).value;
    forall g | g in s'.frames ensures FrameOk(m, s', g) { assert FrameOk(m, s, g); }
  }

  /** Rewriting one frame's contents, but neither its opening nor its closure, keeps the tree. */
  lemma SameSkeletonKeepsFrames(m: Manifest, s: FoldState, s': FoldState)
    requires FramesOk(m, s) && SameSkeleton(s, s')
    ensures FramesOk(m, s')
  {
    forall f | f in s'.frames ensures FrameOk(m, s', f) { assert FrameOk(m, s, f); }
  }

  /** Same frames, each with the same opening and closure. */
  ghost predicate SameSkeleton(s: FoldState, s': FoldState) {
    && s'.frames.Keys == s.frames.Keys
    && (forall f <- s.frames ::
          s'.frames[f].opening == s.frames[f].opening && s'.frames[f].closed == s.frames[f].closed)
  }

  lemma SetFrameSkeleton(s: FoldState, f: FrameId, frame: FrameRecord)
    requires f in s.frames && frame.opening == s.frames[f].opening && frame.closed == s.frames[f].closed
    ensures SameSkeleton(s, SetFrame(s, f, frame))
  {
  }

  lemma StepSkeleton(m: Manifest, s: FoldState, e: Event)
    requires m.objective.Some? && StepEvent(m, s, e).Ok? && !e.FrameOpened? && !e.FrameClosed?
    ensures SameSkeleton(s, StepEvent(m, s, e).value)
  {
    match e {
      case ProgressMade(p) => ProgressSkeleton(s, s.frames[p.frameId], p);
      case WorkspaceCommitted(w) => WorkspaceSkeleton(s, s.frames[w.frameId], w);
      case CellCommitted(c) => CellSkeleton(m, s, s.frames[c.frameId], c);
      case AnswerCommitted(a) => AnswerSkeleton(s, s.frames[a.frameId], a);
      case FallbackProjected(p) => SetFrameSkeleton(s, p.frameId, s.frames[p.frameId].(projection := Some(p)));
      case FallbackCited(c) => SetFrameSkeleton(s, c.frameId, s.frames[c.frameId].(citation := Some(c)));
      case _ =>
    }
  }

  lemma ProgressSkeleton(s: FoldState, frame: FrameRecord, p: Progress)
    requires p.frameId in s.frames && frame == s.frames[p.frameId] && StepProgress(s, frame, p).Ok?
    ensures SameSkeleton(s, StepProgress(s, frame, p).value)
  {
  }

  lemma WorkspaceSkeleton(s: FoldState, frame: FrameRecord, w: Workspace)
    requires w.frameId in s.frames && frame == s.frames[w.frameId] && StepWorkspace(s, frame, w).Ok?
    ensures SameSkeleton(s, StepWorkspace(s, frame, w).value)
  {
  }

  lemma CellSkeleton(m: Manifest, s: FoldState, frame: FrameRecord, c: Cell)
    requires c.frameId in s.frames && frame == s.frames[c.frameId] && StepCell(m, s, frame, c).Ok?
    ensures SameSkeleton(s, StepCell(m, s, frame, c).value)
  {
  }

  lemma AnswerSkeleton(s: FoldState, frame: FrameRecord, a: Answer)
    requires a.frameId in s.frames && frame == s.frames[a.frameId] && StepAnswer(s, frame, a).Ok?
    ensures SameSkeleton(s, StepAnswer(s, frame, a).value)
  {
  }

  lemma StepKeepsFrames(m: Manifest, s: FoldState, e: Event)
    requires m.objective.Some? && FramesOk(m, s) && StepEvent(m, s, e).Ok?
    ensures FramesOk(m, StepEvent(m, s, e).value)
  {
    if e.FrameOpened? {
      FrameOpenedKeepsFrames(m, s, e.opening);
    } else if e.FrameClosed? {
      FrameClosedKeepsFrames(m, s, s.frames[e.closedFrame], e.closedFrame, e.state);
    } else {
      StepSkeleton(m, s, e);
      SameSkeletonKeepsFrames(m, s, StepEvent(m, s, e).value);
    }
  }

  lemma {:induction false} FoldKeepsFrames(m: Manifest, es: seq<Event>)
    requires m.objective.Some? && Fold(m, es).Ok?
    ensures FramesOk(m, Fold(m, es).value)
  {
    if es != [] {
      FoldKeepsFrames(m, es[..|es| - 1]);
      StepKeepsFrames(m, Fold(m, es[..|es| - 1]).value, es[|es| - 1]);
    }
  }

  // ----- Ancestry.

  ghost function Depth(s: FoldState, f: FrameId): nat
    requires f in s.frames
  {
    s.frames[f].opening.depth
  }

  /** The frame reached from `f` by going up `k` parents, if there is one. */
  ghost function Ancestor(s: FoldState, f: FrameId, k: nat): Option<FrameId>
    decreases k
  {
    if k == 0 then Some(f)
    else if f in s.frames && s.frames[f].opening.parent.Some? then
      Ancestor(s, s.frames[f].opening.parent.value, k - 1)
    else None
  }

  /** Going up `Depth` parents reaches the root, and one step more leaves the tree. */
  lemma {:induction false} DepthIsDistanceFromRoot(m: Manifest, s: FoldState, f: FrameId, k: nat)
    requires FramesOk(m, s) && f in s.frames
    ensures Ancestor(s, f, k) == Some(m.Root()) <==> k == Depth(s, f)
    ensures Ancestor(s, f, k).Some? <==> k <= Depth(s, f)
    decreases k
  {
    assert FrameOk(m, s, f);
    if k > 0 && s.frames[f].opening.parent.Some? {
      DepthIsDistanceFromRoot(m, s, s.frames[f].opening.parent.value, k - 1);
    }
  }

  /** While a frame is open, so is every frame above it. */
  lemma {:induction false} OpenAncestors(m: Manifest, s: FoldState, f: FrameId, k: nat)
    requires FramesOk(m, s) && f in s.frames && s.frames[f].closed.None?
    requires k <= Depth(s, f)
    ensures Ancestor(s, f, k).Some? && Ancestor(s, f, k).value in s.frames
    ensures s.frames[Ancestor(s, f, k).value].closed.None?
    decreases k
  {
    assert FrameOk(m, s, f);
    if k > 0 {
      OpenAncestors(m, s, s.frames[f].opening.parent.value, k - 1);
    }
  }

  /**
   * At every prefix of a journal that folds, the frames are one tree rooted at f0: every frame reaches the root
   * by exactly `depth` parent steps, at most `maxDepth` of them, and a closed frame's whole subtree is closed.
   */
  lemma FramesFormOneTree(m: Manifest, es: seq<Event>, f: FrameId)
    requires m.objective.Some? && Fold(m, es).Ok? && f in Fold(m, es).value.frames
    ensures var s := Fold(m, es).value;
            && m.Root() in s.frames
            && (f != m.Root() ==> Depth(s, f) <= m.limits.maxDepth)
            && (forall k: nat :: Ancestor(s, f, k) == Some(m.Root()) <==> k == Depth(s, f))
            && (forall k: nat | k <= Depth(s, f) ::
                  && Ancestor(s, f, k).Some? && Ancestor(s, f, k).value in s.frames
                  && (s.frames[Ancestor(s, f, k).value].closed.Some? ==> s.frames[f].closed.Some?))
  {
    var s := Fold(m, es).value;
    FoldKeepsFrames(m, es);
    assert FrameOk(m, s, f);
    forall k: nat ensures Ancestor(s, f, k) == Some(m.Root()) <==> k == Depth(s, f) {
      DepthIsDistanceFromRoot(m, s, f, k);
    }
    forall k: nat | k <= Depth(s, f)
      ensures Ancestor(s, f, k).Some? && Ancestor(s, f, k).value in s.frames
      ensures s.frames[Ancestor(s, f, k).value].closed.Some? ==> s.frames[f].closed.Some?
    {
      AncestorExists(m, s, f, k);
      if s.frames[f].closed.None? { OpenAncestors(m, s, f, k); }
    }
  }

  lemma {:induction false} AncestorExists(m: Manifest, s: FoldState, f: FrameId, k: nat)
    requires FramesOk(m, s) && f in s.frames && k <= Depth(s, f)
    ensures Ancestor(s, f, k).Some? && Ancestor(s, f, k).value in s.frames
    decreases k
  {
    assert FrameOk(m, s, f);
    if k > 0 { AncestorExists(m, s, s.frames[f].opening.parent.value, k - 1); }
  }

  // ----- Checkpoints.

  /** The number of executions a recurse call has committed. */
  ghost function Executions(s: FoldState, digest: Digest): nat {
    var c := CallId(RecurseCall, digest);
    if c in s.calls && IsRecurse(s, c) then |s.calls[c]| else 0
  }

  /** Only the root is open, and execution `n` of a recurse call is a frame exactly for each committed execution. */
  ghost predicate Quiescent(m: Manifest, s: FoldState) {
    && OpenFrames(s) == {m.Root()}
    && (forall f <- s.frames | f != m.Root() ::
          f.tail.ExecutionTail? && f == Execution(m, f.tail.digest, f.tail.ordinal))
    && (forall d: Digest, n: nat {:trigger Execution(m, d, n)} ::
          && (Execution(m, d, n) in s.frames <==> 1 <= n <= Executions(s, d))
          && (1 <= n <= Executions(s, d) ==>
                var call := s.calls[CallId(RecurseCall, d)][n - 1];
                var child := s.frames[Execution(m, d, n)];
                child.opening.parent == Some(call.frameId) && (call.ok <==> child.closed == Some(Answered))))
  }

  lemma MatchedExecution(m: Manifest, s: FoldState, d: Digest, n: nat)
    requires FramesOk(m, s) && ExecutionsMatch(m, s)
    ensures Execution(m, d, n) in s.frames <==> 1 <= n <= Executions(s, d)
    ensures 1 <= n <= Executions(s, d) ==>
              var id := CallId(RecurseCall, d);
              && id in s.calls && n <= |s.calls[id]|
              && ExecutionMatches(s, Execution(m, d, n), s.calls[id][n - 1])
  {
    var f := Execution(m, d, n);
    if f in s.frames { assert FrameOk(m, s, f); }
    var id := CallId(RecurseCall, d);
    if 1 <= n <= Executions(s, d) {
      assert Execution(m, id.digest, n) == f;
    }
  }

  lemma ExecutionsMatchIsQuiescent(m: Manifest, s: FoldState)
    requires FramesOk(m, s) && ExecutionsMatch(m, s) && OpenFrames(s) == {m.Root()}
    ensures Quiescent(m, s)
  {
    forall f <- s.frames | f != m.Root()
      ensures f.tail.ExecutionTail? && f == Execution(m, f.tail.digest, f.tail.ordinal)
    {
      assert FrameOk(m, s, f);
    }
    forall d: Digest, n: nat
      ensures Execution(m, d, n) in s.frames <==> 1 <= n <= Executions(s, d)
      ensures 1 <= n <= Executions(s, d) ==>
                CallId(RecurseCall, d) in s.calls && n <= |s.calls[CallId(RecurseCall, d)]| &&
                ExecutionMatches(s, Execution(m, d, n), s.calls[CallId(RecurseCall, d)][n - 1])
    {
      MatchedExecution(m, s, d, n);
    }
  }

  lemma CheckpointAccepted(m: Manifest, s: FoldState, c: Checkpoint)
    requires m.objective.Some? && StepEvent(m, s, CheckpointCommitted(c)).Ok?
    ensures ExecutionsMatch(m, s) && OpenFrames(s) == {m.Root()}
  {
  }

  /**
   * When a checkpoint is accepted only the root frame is open, every other frame is execution `n` of a recurse
   * call, and execution `n` of a recurse call is a frame exactly for n = 1..number of committed executions; the
   * n-th committed call was made by that frame's parent and succeeded exactly when the frame answered.
   */
  lemma CheckpointIsQuiescent(m: Manifest, es: seq<Event>, c: Checkpoint)
    requires m.objective.Some? && Fold(m, es + [CheckpointCommitted(c)]).Ok?
    ensures Fold(m, es).Ok? && Quiescent(m, Fold(m, es).value)
  {
    LastStep(m, es, CheckpointCommitted(c));
    FoldKeepsFrames(m, es);
    CheckpointAccepted(m, Fold(m, es).value, c);
    ExecutionsMatchIsQuiescent(m, Fold(m, es).value);
  }

  /** An exact repetition of a frame's opening changes nothing, even after the frame closed; any other is refused. */
  lemma RepeatedOpening(m: Manifest, es: seq<Event>, o: Opened)
    requires m.objective.Some? && Fold(m, es).Ok? && Fold(m, es).value.terminal.None?
    requires o.frameId in Fold(m, es).value.frames
    ensures Fold(m, es + [FrameOpened(o)]) ==
            if Fold(m, es).value.frames[o.frameId].opening == o then Fold(m, es) else Err(SemanticCorruption)
  {
    assert (es + [FrameOpened(o)])[..|es|] == es;
    FoldKeepsFrames(m, es);
    assert FrameOk(m, Fold(m, es).value, o.frameId);
  }
}
