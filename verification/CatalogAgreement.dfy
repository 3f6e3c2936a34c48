/** Both frame catalogs and the status projection describe the frames that the strict fold holds. */
module CatalogAgreement {
  import opened Wrappers
  import opened Journal
  import opened RecoveryJournal
  import opened CheckpointRecovery
  import opened StatusFold
  import opened FrameTree
  import opened CrashCut

  import FoldAgreement

  type Frames = map<FrameId, FrameRecord>

  /** A frame's visible state: its closure, else whether it has answered. */
  function VisibleState(frame: FrameRecord): FrameState {
    if frame.closed.Some? then frame.closed.value else if frame.answer.Some? then Answered else Open
  }

  ghost predicate SeenAt(frames: Frames, seen: Seen, f: FrameId) {
    && (f in seen.openings <==> f in frames)
    && (f in frames ==> seen.openings[f] == frames[f].opening)
    && (f in seen.closed <==> f in frames && frames[f].closed.Some?)
    && (f in seen.closed ==> seen.closed[f] == frames[f].closed.value)
    && (f in seen.answered <==> f in frames && frames[f].answer.Some?)
  }

  /** The greatest iteration and the number of distinct iterations are both the number of cells. */
  ghost predicate CountsAt(frames: Frames, greatest: map<FrameId, nat>, iterations: map<FrameId, set<nat>>, f: FrameId) {
    && (f in frames ==> GetOr(greatest, f, 0) == |frames[f].cells|)
    && (f in frames ==> GetOr(iterations, f, {}) == frames[f].cells.Keys)
    && (f !in frames ==> f !in greatest && f !in iterations)
  }

  ghost predicate StatusAt(frames: Frames, status: map<FrameId, FrameStatus>, f: FrameId) {
    && (f in status <==> f in frames)
    && (f in frames ==>
          && status[f].frameId == frames[f].opening.frameId
          && status[f].parent == frames[f].opening.parent
          && status[f].depth == frames[f].opening.depth
          && status[f].objective == frames[f].opening.objective
          && status[f].iterations == |frames[f].cells|
          && status[f].seenIterations == frames[f].cells.Keys
          && status[f].state == VisibleState(frames[f]))
  }

  ghost predicate CatalogAt(frames: Frames, c: Captured, r: Recovered, status: Status, f: FrameId) {
    && SeenAt(frames, c.seen, f) && SeenAt(frames, r.seen, f)
    && CountsAt(frames, c.greatest, r.iterations, f)
    && StatusAt(frames, status.frames, f)
  }

  ghost predicate CatalogsAgree(s: FoldState, c: Captured, r: Recovered, status: Status) {
    && (forall f {:trigger CatalogAt(s.frames, c, r, status, f)} :: CatalogAt(s.frames, c, r, status, f))
    && status.committedCalls == s.calls.Keys
  }

  // ----- Event by event, at one frame.

  /** The parts of a frame that a catalog shows. */
  ghost predicate SameCatalogAt(a: Frames, b: Frames, f: FrameId) {
    && (f in a <==> f in b)
    && (f in a ==> b[f].opening == a[f].opening && b[f].closed == a[f].closed
                   && b[f].cells == a[f].cells && b[f].answer == a[f].answer)
  }

  lemma UnchangedAt(frames: Frames, frames': Frames, c: Captured, r: Recovered, status: Status, status': Status, f: FrameId)
    requires CatalogAt(frames, c, r, status, f) && SameCatalogAt(frames, frames', f)
    requires f in status'.frames <==> f in status.frames
    requires f in status.frames ==>
               status'.frames[f] == status.frames[f].(phase := status'.frames[f].phase, calls := status'.frames[f].calls)
    ensures CatalogAt(frames', c, r, status', f)
  {
  }

  lemma NewFrameAt(frames: Frames, o: Opened, c: Captured, r: Recovered, status: Status, f: FrameId)
    requires CatalogAt(frames, c, r, status, f) && CatalogAt(frames, c, r, status, o.frameId)
    requires o.frameId !in frames
    ensures CatalogAt(frames[o.frameId := FrameRecord(o, map[], map[], map[], None, None, None, None)],
                      CaptureEvent(c, FrameOpened(o)), RecoverEvent(r, FrameOpened(o)), StatusOpened(status, o), f)
  {
  }

  /** A repeated opening is identical, so overwriting it and keeping it are the same. */
  lemma RepeatedOpeningAt(frames: Frames, o: Opened, c: Captured, r: Recovered, status: Status, f: FrameId)
    requires CatalogAt(frames, c, r, status, f) && CatalogAt(frames, c, r, status, o.frameId)
    requires o.frameId in frames && frames[o.frameId].opening == o
    ensures CatalogAt(frames, CaptureEvent(c, FrameOpened(o)), RecoverEvent(r, FrameOpened(o)),
                      StatusOpened(status, o), f)
  {
  }

  function WithCell(frames: Frames, x: Cell): Frames
    requires x.frameId in frames
  {
    frames[x.frameId := frames[x.frameId].(cells := frames[x.frameId].cells[x.iteration := x])]
  }

  lemma NewCellStatusAt(frames: Frames, x: Cell, status: Status, f: FrameId)
    requires StatusAt(frames, status.frames, f) && StatusAt(frames, status.frames, x.frameId)
    requires x.frameId in frames && x.iteration !in frames[x.frameId].cells
    ensures StatusAt(WithCell(frames, x), StatusCell(status, x).frames, f)
  {
    if f == x.frameId { NewCellSize(frames[f].cells, x); }
  }

  lemma NewCellSize(cells: map<nat, Cell>, x: Cell)
    requires x.iteration !in cells
    ensures |cells[x.iteration := x]| == |cells| + 1
  {
    assert cells[x.iteration := x].Keys == cells.Keys + {x.iteration};
  }

  lemma NewCellCountsAt(frames: Frames, x: Cell, c: Captured, r: Recovered, f: FrameId)
    requires CountsAt(frames, c.greatest, r.iterations, f) && CountsAt(frames, c.greatest, r.iterations, x.frameId)
    requires x.frameId in frames
    requires x.iteration == |frames[x.frameId].cells| + 1 && x.iteration !in frames[x.frameId].cells
    ensures CountsAt(WithCell(frames, x), CaptureEvent(c, CellCommitted(x)).greatest,
                     RecoverEvent(r, CellCommitted(x)).iterations, f)
  {
    var cells := frames[x.frameId].cells;
    assert cells[x.iteration := x].Keys == cells.Keys + {x.iteration};
    assert |cells[x.iteration := x]| == |cells| + 1;
  }

  lemma NewCellAt(frames: Frames, x: Cell, c: Captured, r: Recovered, status: Status, f: FrameId)
    requires CatalogAt(frames, c, r, status, f) && CatalogAt(frames, c, r, status, x.frameId)
    requires x.frameId in frames
    requires x.iteration == |frames[x.frameId].cells| + 1 && x.iteration !in frames[x.frameId].cells
    ensures CatalogAt(WithCell(frames, x), CaptureEvent(c, CellCommitted(x)), RecoverEvent(r, CellCommitted(x)),
                      StatusCell(status, x), f)
  {
    NewCellStatusAt(frames, x, status, f);
    NewCellCountsAt(frames, x, c, r, f);
  }

  lemma RepeatedCellAt(frames: Frames, x: Cell, c: Captured, r: Recovered, status: Status, f: FrameId)
    requires CatalogAt(frames, c, r, status, f) && CatalogAt(frames, c, r, status, x.frameId)
    requires x.frameId in frames && x.iteration in frames[x.frameId].cells
    requires x.iteration <= |frames[x.frameId].cells|
    ensures CatalogAt(frames, CaptureEvent(c, CellCommitted(x)), RecoverEvent(r, CellCommitted(x)),
                      StatusCell(status, x), f)
  {
    assert GetOr(r.iterations, x.frameId, {}) + {x.iteration} == frames[x.frameId].cells.Keys;
  }

  lemma AnsweredAt(frames: Frames, a: Answer, c: Captured, r: Recovered, status: Status, f: FrameId)
    requires CatalogAt(frames, c, r, status, f) && CatalogAt(frames, c, r, status, a.frameId)
    requires a.frameId in frames && frames[a.frameId].closed.None?
    ensures CatalogAt(frames[a.frameId := frames[a.frameId].(answer := Some(a))],
                      CaptureEvent(c, AnswerCommitted(a)), RecoverEvent(r, AnswerCommitted(a)),
                      StatusState(status, a.frameId, Answered), f)
  {
  }

  lemma ClosedAt(frames: Frames, g: FrameId, state: FrameState, c: Captured, r: Recovered, status: Status, f: FrameId)
    requires CatalogAt(frames, c, r, status, f) && CatalogAt(frames, c, r, status, g) && g in frames
    ensures CatalogAt(frames[g := frames[g].(closed := Some(state))],
                      CaptureEvent(c, FrameClosed(g, state)), RecoverEvent(r, FrameClosed(g, state)),
                      StatusState(status, g, state), f)
  {
  }

  // ----- Event by event, everywhere.

  ghost predicate Step(s: FoldState, s': FoldState, c: Captured, r: Recovered, status: Status, e: Event) {
    CatalogsAgree(s, c, r, status) ==>
      CatalogsAgree(s', CaptureEvent(c, e), RecoverEvent(r, e), StatusEvent(status, e))
  }

  lemma OpenedCatalogs(m: Manifest, s: FoldState, o: Opened, c: Captured, r: Recovered, status: Status)
    requires m.objective.Some? && CatalogsAgree(s, c, r, status) && StepFrameOpened(m, s, o).Ok?
    ensures Step(s, StepFrameOpened(m, s, o).value, c, r, status, FrameOpened(o))
  {
    OpenedStep(m, s, o);
    OpenedCalls(m, s, o);
    var s' := StepFrameOpened(m, s, o).value;
    var e := FrameOpened(o);
    assert CatalogAt(s.frames, c, r, status, o.frameId);
    forall f ensures CatalogAt(s'.frames, CaptureEvent(c, e), RecoverEvent(r, e), StatusEvent(status, e), f) {
      assert CatalogAt(s.frames, c, r, status, f);
      if o.frameId in s.frames { RepeatedOpeningAt(s.frames, o, c, r, status, f); }
      else { NewFrameAt(s.frames, o, c, r, status, f); }
    }
  }

  lemma OpenedCalls(m: Manifest, s: FoldState, o: Opened)
    requires m.objective.Some? && StepFrameOpened(m, s, o).Ok?
    ensures StepFrameOpened(m, s, o).value.calls == s.calls
    ensures o.frameId in s.frames ==> s.frames[o.frameId].opening == o
  {
  }

  lemma CellCatalogs(m: Manifest, es: seq<Event>, s: FoldState, x: Cell, c: Captured, r: Recovered, status: Status)
    requires ContentOk(es, s) && CatalogsAgree(s, c, r, status) && x.frameId in s.frames
    requires StepCell(m, s, s.frames[x.frameId], x).Ok?
    ensures Step(s, StepCell(m, s, s.frames[x.frameId], x).value, c, r, status, CellCommitted(x))
  {
    NewCellStep(m, s, s.frames[x.frameId], x);
    CellCalls(m, s, s.frames[x.frameId], x);
    var s' := StepCell(m, s, s.frames[x.frameId], x).value;
    var e := CellCommitted(x);
    assert FrameContent(es, x.frameId, s.frames[x.frameId]);
    assert CatalogAt(s.frames, c, r, status, x.frameId);
    forall f ensures CatalogAt(s'.frames, CaptureEvent(c, e), RecoverEvent(r, e), StatusEvent(status, e), f) {
      assert CatalogAt(s.frames, c, r, status, f);
      if (x.frameId, x.iteration) in s.cells { RepeatedCellAt(s.frames, x, c, r, status, f); }
      else { NewCellAt(s.frames, x, c, r, status, f); }
    }
  }

  lemma CellCalls(m: Manifest, s: FoldState, frame: FrameRecord, x: Cell)
    requires StepCell(m, s, frame, x).Ok?
    ensures StepCell(m, s, frame, x).value.calls == s.calls
  {
  }

  lemma AnswerCatalogs(s: FoldState, a: Answer, c: Captured, r: Recovered, status: Status)
    requires CatalogsAgree(s, c, r, status) && a.frameId in s.frames && s.frames[a.frameId].closed.None?
    requires StepAnswer(s, s.frames[a.frameId], a).Ok?
    ensures Step(s, StepAnswer(s, s.frames[a.frameId], a).value, c, r, status, AnswerCommitted(a))
  {
    AnswerStep(s, s.frames[a.frameId], a);
    var s' := StepAnswer(s, s.frames[a.frameId], a).value;
    assert s'.calls == s.calls;
    var e := AnswerCommitted(a);
    assert CatalogAt(s.frames, c, r, status, a.frameId);
    forall f ensures CatalogAt(s'.frames, CaptureEvent(c, e), RecoverEvent(r, e), StatusEvent(status, e), f) {
      assert CatalogAt(s.frames, c, r, status, f);
      AnsweredAt(s.frames, a, c, r, status, f);
    }
  }

  lemma ClosedCatalogs(s: FoldState, g: FrameId, state: FrameState, c: Captured, r: Recovered, status: Status)
    requires CatalogsAgree(s, c, r, status) && g in s.frames && StepClosed(s, s.frames[g], g, state).Ok?
    ensures Step(s, StepClosed(s, s.frames[g], g, state).value, c, r, status, FrameClosed(g, state))
  {
    var s' := StepClosed(s, s.frames[g], g, state).value;
    assert s'.frames == s.frames[g := s.frames[g].(closed := Some(state))] && s'.calls == s.calls;
    var e := FrameClosed(g, state);
    assert CatalogAt(s.frames, c, r, status, g);
    forall f ensures CatalogAt(s'.frames, CaptureEvent(c, e), RecoverEvent(r, e), StatusEvent(status, e), f) {
      assert CatalogAt(s.frames, c, r, status, f);
      ClosedAt(s.frames, g, state, c, r, status, f);
    }
  }

  lemma CallCatalogs(m: Manifest, s: FoldState, x: Call, c: Captured, r: Recovered, status: Status)
    requires CatalogsAgree(s, c, r, status) && x.frameId in s.frames && StepCall(m, s, x).Ok?
    ensures Step(s, StepCall(m, s, x).value, c, r, status, CallCommitted(x))
  {
    CallKeys(m, s, x);
    assert CatalogAt(s.frames, c, r, status, x.frameId);
    CallStatus(status, x);
    CallEverywhere(s.frames, x, c, r, status);
  }

  lemma CallEverywhere(frames: Frames, x: Call, c: Captured, r: Recovered, status: Status)
    requires forall f {:trigger CatalogAt(frames, c, r, status, f)} :: CatalogAt(frames, c, r, status, f)
    ensures forall f {:trigger CatalogAt(frames, c, r, StatusCall(status, x), f)} ::
              CatalogAt(frames, c, r, StatusCall(status, x), f)
  {
    forall f ensures CatalogAt(frames, c, r, StatusCall(status, x), f) {
      assert CatalogAt(frames, c, r, status, f);
      UnchangedAt(frames, frames, c, r, status, StatusCall(status, x), f);
    }
  }

  lemma CallStatus(status: Status, x: Call)
    requires x.frameId in status.frames
    ensures StatusCall(status, x).committedCalls == status.committedCalls + {x.callId}
  {
  }

  lemma CallKeys(m: Manifest, s: FoldState, x: Call)
    requires StepCall(m, s, x).Ok?
    ensures StepCall(m, s, x).value.frames == s.frames
    ensures StepCall(m, s, x).value.calls.Keys == s.calls.Keys + {x.callId}
  {
    FoldAgreement.CallStep(m, s, x);
  }

  predicate ShownInCatalog(e: Event) {
    e.FrameOpened? || e.CellCommitted? || e.AnswerCommitted? || e.FrameClosed? || e.CallCommitted?
  }

  lemma OtherCatalogs(m: Manifest, s: FoldState, e: Event, c: Captured, r: Recovered, status: Status)
    requires m.objective.Some? && CatalogsAgree(s, c, r, status) && StepEvent(m, s, e).Ok? && !ShownInCatalog(e)
    ensures Step(s, StepEvent(m, s, e).value, c, r, status, e)
  {
    var s' := StepEvent(m, s, e).value;
    OtherFrames(m, s, e);
    OtherStatus(status, e);
    forall f ensures CatalogAt(s'.frames, c, r, StatusEvent(status, e), f) {
      assert CatalogAt(s.frames, c, r, status, f);
      UnchangedAt(s.frames, s'.frames, c, r, status, StatusEvent(status, e), f);
    }
  }

  lemma OtherStatus(status: Status, e: Event)
    requires !ShownInCatalog(e)
    ensures var status' := StatusEvent(status, e);
            && status'.committedCalls == status.committedCalls
            && status'.frames.Keys == status.frames.Keys
            && (forall f <- status.frames ::
                  status'.frames[f] == status.frames[f].(phase := status'.frames[f].phase))
  {
  }

  lemma OtherFrames(m: Manifest, s: FoldState, e: Event)
    requires m.objective.Some? && StepEvent(m, s, e).Ok? && !ShownInCatalog(e)
    ensures StepEvent(m, s, e).value.calls == s.calls
    ensures forall f {:trigger SameCatalogAt(s.frames, StepEvent(m, s, e).value.frames, f)} ::
              SameCatalogAt(s.frames, StepEvent(m, s, e).value.frames, f)
  {
    var s' := StepEvent(m, s, e).value;
    FoldAgreement.OtherCallsKept(m, s, e);
    StepSkeleton(m, s, e);
    if e.WorkspaceCommitted? {
      WorkspaceStep(s, s.frames[e.workspace.frameId], e.workspace);
    } else {
      StepSameContents(m, s, e);
    }
  }

  lemma StepCatalogs(m: Manifest, es: seq<Event>, s: FoldState, e: Event, c: Captured, r: Recovered, status: Status)
    requires m.objective.Some? && ContentOk(es, s) && CatalogsAgree(s, c, r, status) && StepEvent(m, s, e).Ok?
    ensures CatalogsAgree(StepEvent(m, s, e).value, CaptureEvent(c, e), RecoverEvent(r, e), StatusEvent(status, e))
  {
    match e {
      case FrameOpened(o) => OpenedCatalogs(m, s, o, c, r, status);
      case CellCommitted(x) => CellCatalogs(m, es, s, x, c, r, status);
      case AnswerCommitted(a) => AnswerCatalogs(s, a, c, r, status);
      case FrameClosed(f, state) => ClosedCatalogs(s, f, state, c, r, status);
      case CallCommitted(x) => CallCatalogs(m, s, x, c, r, status);
      case _ => OtherCatalogs(m, s, e, c, r, status);
    }
  }

  lemma {:induction false} FoldCatalogs(m: Manifest, es: seq<Event>)
    requires m.objective.Some? && Fold(m, es).Ok?
    ensures CatalogsAgree(Fold(m, es).value, Capture(es), Recover(es), ReduceStatus(es))
  {
    if es == [] {
      NothingListed();
    } else {
      var front, last := es[..|es| - 1], es[|es| - 1];
      FoldCatalogs(m, front);
      FoldKeepsContent(m, front);
      StepCatalogs(m, front, Fold(m, front).value, last, Capture(front), Recover(front), ReduceStatus(front));
    }
  }

  lemma NothingListed()
    ensures CatalogsAgree(EMPTY_FOLD, Capture([]), Recover([]), ReduceStatus([]))
  {
    forall f ensures CatalogAt(EMPTY_FOLD.frames, Capture([]), Recover([]), ReduceStatus([]), f) {
    }
  }

  predicate LineagesDefined(m: Manifest, s: FoldState) {
    forall f <- s.frames :: FrameLineage(m.runId, f).Some?
  }

  /** The catalog that the strict fold's frames call for. */
  function ExpectedCatalog(m: Manifest, s: FoldState): Option<map<FrameId, Snapshot>> {
    if !LineagesDefined(m, s) then None
    else
      Some(map f <- s.frames ::
             var o := s.frames[f].opening;
             Snapshot(f, FrameLineage(m.runId, f).value, o.parent, o.depth, o.objective,
                      VisibleState(s.frames[f]), |s.frames[f].cells| + 1))
  }

  /**
   * At every prefix that folds, the captured and the recovered catalog are the same: undefined exactly when some
   * frame has no lineage, and otherwise listing exactly the strict fold's frames.
   */
  lemma CatalogsAreTheFrames(m: Manifest, es: seq<Event>)
    requires m.objective.Some? && Fold(m, es).Ok?
    ensures CapturedCatalog(m.runId, es) == ExpectedCatalog(m, Fold(m, es).value)
    ensures RecoveredCatalog(m.runId, es) == ExpectedCatalog(m, Fold(m, es).value)
  {
    FoldCatalogs(m, es);
    CatalogsFromState(m, Fold(m, es).value, Capture(es), Recover(es), ReduceStatus(es));
  }

  lemma CatalogsFromState(m: Manifest, s: FoldState, c: Captured, r: Recovered, status: Status)
    requires CatalogsAgree(s, c, r, status)
    ensures Catalog(m.runId, c.seen, GreatestCells(c)) == ExpectedCatalog(m, s)
    ensures Catalog(m.runId, r.seen, CountedCells(r)) == ExpectedCatalog(m, s)
  {
    forall f ensures SeenAt(s.frames, c.seen, f) && SeenAt(s.frames, r.seen, f) {
      assert CatalogAt(s.frames, c, r, status, f);
    }
    forall f | f in s.frames
      ensures GetOr(c.greatest, f, 0) == |s.frames[f].cells| == |GetOr(r.iterations, f, {})|
    {
      assert CatalogAt(s.frames, c, r, status, f);
      KeysSize(s.frames[f].cells);
    }
    SeenRemembers(s, c.seen, GreatestCells(c));
    SeenRemembers(s, r.seen, CountedCells(r));
    CatalogIsExpected(m, s, c.seen, GreatestCells(c));
    CatalogIsExpected(m, s, r.seen, CountedCells(r));
  }

  /** The remembered openings and counts are those of the frames. */
  ghost predicate Remembers(s: FoldState, seen: Seen, cells: FrameId -> nat) {
    && seen.openings.Keys == s.frames.Keys
    && (forall f {:trigger s.frames[f]} | f in s.frames ::
          && f in seen.openings && seen.openings[f] == s.frames[f].opening
          && StateOf(seen, f) == VisibleState(s.frames[f])
          && cells(f) == |s.frames[f].cells|)
  }

  lemma CatalogDefined(m: Manifest, s: FoldState, seen: Seen, cells: FrameId -> nat)
    requires Remembers(s, seen, cells)
    ensures LineagesDefined(m, s) <==> Catalog(m.runId, seen, cells).Some?
  {
  }

  lemma CatalogEntry(m: Manifest, s: FoldState, seen: Seen, cells: FrameId -> nat, f: FrameId)
    requires Remembers(s, seen, cells) && LineagesDefined(m, s) && Catalog(m.runId, seen, cells).Some?
    ensures Catalog(m.runId, seen, cells).value.Keys == ExpectedCatalog(m, s).value.Keys
    ensures f in ExpectedCatalog(m, s).value ==>
              Catalog(m.runId, seen, cells).value[f] == ExpectedCatalog(m, s).value[f]
  {
  }

  lemma CatalogIsExpected(m: Manifest, s: FoldState, seen: Seen, cells: FrameId -> nat)
    requires Remembers(s, seen, cells)
    ensures Catalog(m.runId, seen, cells) == ExpectedCatalog(m, s)
  {
    CatalogDefined(m, s, seen, cells);
    if LineagesDefined(m, s) {
      var listed, expected := Catalog(m.runId, seen, cells).value, ExpectedCatalog(m, s).value;
      CatalogEntry(m, s, seen, cells, m.Root());
      forall f | f in expected ensures listed[f] == expected[f] {
        CatalogEntry(m, s, seen, cells, f);
      }
      assert listed == expected;
    }
  }

  lemma SeenRemembers(s: FoldState, seen: Seen, cells: FrameId -> nat)
    requires forall f {:trigger SeenAt(s.frames, seen, f)} :: SeenAt(s.frames, seen, f)
    requires forall f <- s.frames :: cells(f) == |s.frames[f].cells|
    ensures Remembers(s, seen, cells)
  {
    forall f ensures f in seen.openings <==> f in s.frames { assert SeenAt(s.frames, seen, f); }
    forall f | f in s.frames
      ensures f in seen.openings && seen.openings[f] == s.frames[f].opening
      ensures StateOf(seen, f) == VisibleState(s.frames[f])
    {
      assert SeenAt(s.frames, seen, f);
    }
  }

  lemma KeysSize<K, V>(entries: map<K, V>)
    ensures |entries.Keys| == |entries|
  {
  }

  // ----- Totals of the status projection.

  function TotalIterations(order: seq<FrameId>, frames: map<FrameId, FrameStatus>): nat
    requires forall f <- order :: f in frames
  {
    if order == [] then 0
    else TotalIterations(order[..|order| - 1], frames) + frames[order[|order| - 1]].iterations
  }

  ghost predicate OrderOk(status: Status) {
    && (forall i, j | 0 <= i < j < |status.frameOrder| :: status.frameOrder[i] != status.frameOrder[j])
    && (forall f :: f in status.frameOrder <==> f in status.frames)
  }

  lemma {:induction false} SameTotal(order: seq<FrameId>, a: map<FrameId, FrameStatus>, b: map<FrameId, FrameStatus>)
    requires forall f <- order :: f in a && f in b && a[f].iterations == b[f].iterations
    ensures TotalIterations(order, a) == TotalIterations(order, b)
  {
    if order != [] { SameTotal(order[..|order| - 1], a, b); }
  }

  lemma {:induction false} OneMoreIteration(order: seq<FrameId>, a: map<FrameId, FrameStatus>, f: FrameId, g: FrameStatus)
    requires forall i, j | 0 <= i < j < |order| :: order[i] != order[j]
    requires (forall x <- order :: x in a) && f in order && g.iterations == a[f].iterations + 1
    ensures TotalIterations(order, a[f := g]) == TotalIterations(order, a) + 1
  {
    var front, last := order[..|order| - 1], order[|order| - 1];
    if last == f {
      SameTotal(front, a, a[f := g]);
    } else {
      assert f in front;
      OneMoreIteration(front, a, f, g);
    }
  }

  predicate CountsIteration(status: Status, e: Event) {
    && e.CellCommitted? && e.cell.frameId in status.frames
    && e.cell.iteration !in status.frames[e.cell.frameId].seenIterations
  }

  lemma OpenedOrder(status: Status, o: Opened)
    requires OrderOk(status) && o.frameId !in status.frames
    ensures var status' := StatusOpened(status, o);
            && OrderOk(status')
            && TotalIterations(status'.frameOrder, status'.frames) == TotalIterations(status.frameOrder, status.frames)
  {
    var status' := StatusOpened(status, o);
    assert status'.frameOrder[..|status.frameOrder|] == status.frameOrder;
    SameTotal(status.frameOrder, status.frames, status'.frames);
  }

  lemma CellOrder(status: Status, c: Cell)
    requires OrderOk(status) && CountsIteration(status, CellCommitted(c))
    ensures var status' := StatusCell(status, c);
            && OrderOk(status')
            && TotalIterations(status'.frameOrder, status'.frames) ==
               TotalIterations(status.frameOrder, status.frames) + 1
  {
    var status' := StatusCell(status, c);
    OneMoreIteration(status.frameOrder, status.frames, c.frameId, status'.frames[c.frameId]);
  }

  lemma OtherOrder(status: Status, e: Event)
    requires !CountsIteration(status, e) && !(e.FrameOpened? && e.opening.frameId !in status.frames)
    ensures var status' := StatusEvent(status, e);
            && status'.frameOrder == status.frameOrder
            && status'.frames.Keys == status.frames.Keys
            && (forall f <- status.frames :: status'.frames[f].iterations == status.frames[f].iterations)
  {
  }

  lemma StatusOrder(status: Status, e: Event)
    requires OrderOk(status)
    ensures OrderOk(StatusEvent(status, e))
    ensures TotalIterations(StatusEvent(status, e).frameOrder, StatusEvent(status, e).frames) ==
            TotalIterations(status.frameOrder, status.frames) + (if CountsIteration(status, e) then 1 else 0)
  {
    if e.FrameOpened? && e.opening.frameId !in status.frames {
      OpenedOrder(status, e.opening);
    } else if CountsIteration(status, e) {
      CellOrder(status, e.cell);
    } else {
      OtherOrder(status, e);
      SameTotal(status.frameOrder, status.frames, StatusEvent(status, e).frames);
    }
  }

  /** The projection's iterations and committed calls add up to the strict fold's. */
  lemma {:induction false} StatusTotals(m: Manifest, es: seq<Event>)
    requires m.objective.Some? && Fold(m, es).Ok?
    ensures var s, status := Fold(m, es).value, ReduceStatus(es);
            && OrderOk(status)
            && TotalIterations(status.frameOrder, status.frames) == |s.cells|
            && status.committedCalls == s.calls.Keys
            && (forall f <- s.frames ::
                  && f in status.frames
                  && status.frames[f].state == VisibleState(s.frames[f])
                  && status.frames[f].iterations == |s.frames[f].cells|)
  {
    FoldCatalogs(m, es);
    if es != [] {
      var front, last := es[..|es| - 1], es[|es| - 1];
      StatusTotals(m, front);
      FoldCatalogs(m, front);
      FoldKeepsContent(m, front);
      StatusOrder(ReduceStatus(front), last);
      CellsGrowTogether(m, front, Fold(m, front).value, last, Capture(front), Recover(front), ReduceStatus(front));
    }
    StatusOfState(Fold(m, es).value, Capture(es), Recover(es), ReduceStatus(es));
  }

  lemma StatusOfState(s: FoldState, c: Captured, r: Recovered, status: Status)
    requires CatalogsAgree(s, c, r, status)
    ensures forall f <- s.frames ::
              && f in status.frames
              && status.frames[f].state == VisibleState(s.frames[f])
              && status.frames[f].iterations == |s.frames[f].cells|
  {
    forall f | f in s.frames
      ensures f in status.frames && status.frames[f].state == VisibleState(s.frames[f])
      ensures status.frames[f].iterations == |s.frames[f].cells|
    {
      assert CatalogAt(s.frames, c, r, status, f);
    }
  }

  lemma CellsGrowTogether(m: Manifest, es: seq<Event>, s: FoldState, e: Event, c: Captured, r: Recovered, status: Status)
    requires m.objective.Some? && ContentOk(es, s) && CatalogsAgree(s, c, r, status) && StepEvent(m, s, e).Ok?
    ensures |StepEvent(m, s, e).value.cells| == |s.cells| + (if CountsIteration(status, e) then 1 else 0)
  {
    if e.CellCommitted? {
      var f := e.cell.frameId;
      NewCellStep(m, s, s.frames[f], e.cell);
      assert CatalogAt(s.frames, c, r, status, f);
    } else {
      OtherCellsKept(m, s, e);
    }
  }

  lemma OtherCellsKept(m: Manifest, s: FoldState, e: Event)
    requires m.objective.Some? && StepEvent(m, s, e).Ok? && !e.CellCommitted?
    ensures StepEvent(m, s, e).value.cells == s.cells
  {
  }

  /** What an accepted journal reports is what its status projection shows. */
  lemma AcceptedTotals(m: Manifest, events: seq<Event>)
    requires Validate(m, events).Ok?
    ensures var status := ReduceStatus(events[1..]);
            && OrderOk(status)
            && Validate(m, events).value.committedCells == TotalIterations(status.frameOrder, status.frames)
            && Validate(m, events).value.committedCalls == |status.committedCalls|
  {
    StatusTotals(m, events[1..]);
    KeysSize(Fold(m, events[1..]).value.calls);
    ReportedTotals(m, Fold(m, events[1..]).value);
  }

  lemma ReportedTotals(m: Manifest, s: FoldState)
    requires Finish(m, s).Ok?
    ensures Finish(m, s).value.committedCells == |s.cells| && Finish(m, s).value.committedCalls == |s.calls|
  {
  }
}
