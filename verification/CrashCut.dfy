/** What a crash can leave behind: the verdict on every prefix of an accepted journal. */
module CrashCut {
  import opened Wrappers
  import opened Journal
  import opened RecoveryJournal
  import OperationOrder

  /** Cells are numbered 1..n, workspaces reach at most one further, and both stem from journal events. */
  ghost predicate FrameContent(es: seq<Event>, f: FrameId, frame: FrameRecord) {
    && (forall i :: i in frame.cells <==> 1 <= i <= |frame.cells|)
    && (forall i <- frame.cells ::
          && frame.cells[i].frameId == f && frame.cells[i].iteration == i
          && CellCommitted(frame.cells[i]) in es)
    && (forall i <- frame.workspaces :: 1 <= i <= |frame.cells| + 1)
    && (frame.answer.Some? ==> frame.answer.value.frameId == f && AnswerCommitted(frame.answer.value) in es)
  }

  ghost predicate HasCell(s: FoldState, c: Cell) {
    && c.frameId in s.frames
    && c.iteration in s.frames[c.frameId].cells
    && s.frames[c.frameId].cells[c.iteration] == c
  }

  ghost predicate HasAnswer(s: FoldState, a: Answer) {
    a.frameId in s.frames && s.frames[a.frameId].answer == Some(a)
  }

  /** The run-wide cell registry is the union of the frames' cells. */
  ghost predicate RegistryOk(s: FoldState) {
    && (forall f, i {:trigger (f, i) in s.cells} :: (f, i) in s.cells <==> f in s.frames && i in s.frames[f].cells)
    && (forall f, i {:trigger s.cells[(f, i)]} :: (f, i) in s.cells ==> s.cells[(f, i)] == s.frames[f].cells[i])
  }

  ghost predicate ContentOk(es: seq<Event>, s: FoldState) {
    && (forall f {:trigger FrameContent(es, f, s.frames[f])} | f in s.frames :: FrameContent(es, f, s.frames[f]))
    && (forall c {:trigger HasCell(s, c)} | CellCommitted(c) in es :: HasCell(s, c))
    && (forall a {:trigger HasAnswer(s, a)} | AnswerCommitted(a) in es :: HasAnswer(s, a))
    && RegistryOk(s)
  }

  ghost predicate SameContents(s: FoldState, s': FoldState) {
    && s'.cells == s.cells
    && s'.frames.Keys == s.frames.Keys
    && (forall f <- s.frames ::
          && s'.frames[f].cells == s.frames[f].cells
          && s'.frames[f].workspaces == s.frames[f].workspaces
          && s'.frames[f].answer == s.frames[f].answer)
  }

  lemma SetFrameContents(s: FoldState, f: FrameId, frame: FrameRecord)
    requires f in s.frames && frame.cells == s.frames[f].cells
    requires frame.workspaces == s.frames[f].workspaces && frame.answer == s.frames[f].answer
    ensures SameContents(s, SetFrame(s, f, frame))
  {
  }

  predicate TouchesContents(e: Event) {
    e.FrameOpened? || e.WorkspaceCommitted? || e.CellCommitted? || e.AnswerCommitted?
  }

  lemma StepSameContents(m: Manifest, s: FoldState, e: Event)
    requires m.objective.Some? && StepEvent(m, s, e).Ok? && !TouchesContents(e)
    ensures SameContents(s, StepEvent(m, s, e).value)
  {
    match e {
      case ProgressMade(p) => ProgressContents(s, s.frames[p.frameId], p);
      case FallbackProjected(p) => SetFrameContents(s, p.frameId, s.frames[p.frameId].(projection := Some(p)));
      case FallbackCited(c) => SetFrameContents(s, c.frameId, s.frames[c.frameId].(citation := Some(c)));
      case FrameClosed(f, state) => SetFrameContents(s, f, s.frames[f].(closed := Some(state)));
      case _ =>
    }
  }

  lemma ProgressContents(s: FoldState, frame: FrameRecord, p: Progress)
    requires p.frameId in s.frames && frame == s.frames[p.frameId] && StepProgress(s, frame, p).Ok?
    ensures SameContents(s, StepProgress(s, frame, p).value)
  {
  }

  lemma SameContentsKept(es: seq<Event>, s: FoldState, s': FoldState, e: Event)
    requires ContentOk(es, s) && SameContents(s, s') && !e.CellCommitted? && !e.AnswerCommitted?
    ensures ContentOk(es + [e], s')
  {
    forall f | f in s'.frames ensures FrameContent(es + [e], f, s'.frames[f]) {
      assert FrameContent(es, f, s.frames[f]);
    }
    forall c | CellCommitted(c) in es + [e] ensures HasCell(s', c) { assert HasCell(s, c); }
    forall a | AnswerCommitted(a) in es + [e] ensures HasAnswer(s', a) { assert HasAnswer(s, a); }
  }

  /** Committed cells and answers stay, and a committed cell's workspace can no longer appear or vanish. */
  ghost predicate Grows(a: FrameRecord, b: FrameRecord) {
    && (forall i <- a.cells ::
          && i in b.cells && b.cells[i] == a.cells[i]
          && (i in a.workspaces <==> i in b.workspaces))
    && (a.answer.Some? ==> b.answer == a.answer)
  }

  /** Replacing one frame by a grown one keeps everything the journal says about the other frames. */
  lemma UpdateKeepsContent(es: seq<Event>, s: FoldState, s': FoldState, e: Event, f: FrameId, frame: FrameRecord)
    requires ContentOk(es, s) && RegistryOk(s')
    requires s'.frames == s.frames[f := frame] && FrameContent(es + [e], f, frame)
    requires f in s.frames ==> Grows(s.frames[f], frame)
    requires e.CellCommitted? ==> HasCell(s', e.cell)
    requires e.AnswerCommitted? ==> HasAnswer(s', e.answer)
    ensures ContentOk(es + [e], s')
  {
    forall g | g in s'.frames ensures FrameContent(es + [e], g, s'.frames[g]) {
      if g != f { assert FrameContent(es, g, s.frames[g]); }
    }
    forall c | CellCommitted(c) in es + [e] ensures HasCell(s', c) {
      if CellCommitted(c) in es { assert HasCell(s, c); }
    }
    forall a | AnswerCommitted(a) in es + [e] ensures HasAnswer(s', a) {
      if AnswerCommitted(a) in es { assert HasAnswer(s, a); }
    }
  }

  lemma OpenedStep(m: Manifest, s: FoldState, o: Opened)
    requires m.objective.Some? && StepFrameOpened(m, s, o).Ok?
    ensures o.frameId in s.frames ==> StepFrameOpened(m, s, o).value == s
    ensures o.frameId !in s.frames ==>
              && StepFrameOpened(m, s, o).value.frames ==
                 s.frames[o.frameId := FrameRecord(o, map[], map[], map[], None, None, None, None)]
              && StepFrameOpened(m, s, o).value.cells == s.cells
  {
  }

  lemma OpenedContent(m: Manifest, es: seq<Event>, s: FoldState, o: Opened)
    requires m.objective.Some? && ContentOk(es, s) && StepFrameOpened(m, s, o).Ok?
    ensures ContentOk(es + [FrameOpened(o)], StepFrameOpened(m, s, o).value)
  {
    OpenedStep(m, s, o);
    var s' := StepFrameOpened(m, s, o).value;
    if o.frameId in s.frames {
      SameContentsKept(es, s, s', FrameOpened(o));
    } else {
      UpdateKeepsContent(es, s, s', FrameOpened(o), o.frameId, s'.frames[o.frameId]);
    }
  }

  lemma WorkspaceStep(s: FoldState, frame: FrameRecord, w: Workspace)
    requires w.frameId in s.frames && frame == s.frames[w.frameId] && StepWorkspace(s, frame, w).Ok?
    ensures w.iteration == |frame.cells| + 1
    ensures var s' := StepWorkspace(s, frame, w).value;
            && s'.cells == s.cells
            && s'.frames == s.frames[w.frameId := frame.(workspaces := frame.workspaces[w.iteration := w])]
  {
    assert w.iteration in frame.workspaces ==> frame.workspaces[w.iteration := w] == frame.workspaces;
  }

  lemma WorkspaceContent(es: seq<Event>, s: FoldState, frame: FrameRecord, w: Workspace)
    requires ContentOk(es, s) && w.frameId in s.frames && frame == s.frames[w.frameId]
    requires StepWorkspace(s, frame, w).Ok?
    ensures ContentOk(es + [WorkspaceCommitted(w)], StepWorkspace(s, frame, w).value)
  {
    WorkspaceStep(s, frame, w);
    assert FrameContent(es, w.frameId, frame);
    UpdateKeepsContent(es, s, StepWorkspace(s, frame, w).value, WorkspaceCommitted(w), w.frameId,
                       frame.(workspaces := frame.workspaces[w.iteration := w]));
  }

  /** A new cell is the next one of its frame, and no other frame changes. */
  lemma NewCellStep(m: Manifest, s: FoldState, frame: FrameRecord, c: Cell)
    requires c.frameId in s.frames && frame == s.frames[c.frameId] && StepCell(m, s, frame, c).Ok?
    ensures (c.frameId, c.iteration) in s.cells ==>
              StepCell(m, s, frame, c).value == s && s.cells[(c.frameId, c.iteration)] == c
    ensures (c.frameId, c.iteration) !in s.cells ==>
              var s' := StepCell(m, s, frame, c).value;
              && c.iteration == |frame.cells| + 1
              && s'.frames == s.frames[c.frameId := frame.(cells := frame.cells[c.iteration := c])]
              && s'.cells == s.cells[(c.frameId, c.iteration) := c]
  {
  }

  lemma RepeatedCellContent(es: seq<Event>, s: FoldState, c: Cell)
    requires ContentOk(es, s) && (c.frameId, c.iteration) in s.cells && s.cells[(c.frameId, c.iteration)] == c
    ensures ContentOk(es + [CellCommitted(c)], s)
  {
    var e := CellCommitted(c);
    forall g | g in s.frames ensures FrameContent(es + [e], g, s.frames[g]) {
      assert FrameContent(es, g, s.frames[g]);
    }
  }

  lemma CellContent(m: Manifest, es: seq<Event>, s: FoldState, frame: FrameRecord, c: Cell)
    requires ContentOk(es, s) && c.frameId in s.frames && frame == s.frames[c.frameId]
    requires StepCell(m, s, frame, c).Ok?
    ensures ContentOk(es + [CellCommitted(c)], StepCell(m, s, frame, c).value)
  {
    NewCellStep(m, s, frame, c);
    if (c.frameId, c.iteration) in s.cells {
      RepeatedCellContent(es, s, c);
    } else {
      NewCellContent(es, s, StepCell(m, s, frame, c).value, frame, c);
    }
  }

  lemma NewCellContent(es: seq<Event>, s: FoldState, s': FoldState, frame: FrameRecord, c: Cell)
    requires ContentOk(es, s) && c.frameId in s.frames && frame == s.frames[c.frameId]
    requires c.iteration == |frame.cells| + 1
    requires s'.frames == s.frames[c.frameId := frame.(cells := frame.cells[c.iteration := c])]
    requires s'.cells == s.cells[(c.frameId, c.iteration) := c]
    ensures ContentOk(es + [CellCommitted(c)], s')
  {
    assert FrameContent(es, c.frameId, frame);
    var frame' := frame.(cells := frame.cells[c.iteration := c]);
    assert c.iteration !in frame.cells;
    assert |frame'.cells| == |frame.cells| + 1;
    assert FrameContent(es + [CellCommitted(c)], c.frameId, frame');
    UpdateKeepsContent(es, s, s', CellCommitted(c), c.frameId, frame');
  }

  lemma AnswerStep(s: FoldState, frame: FrameRecord, a: Answer)
    requires a.frameId in s.frames && frame == s.frames[a.frameId] && StepAnswer(s, frame, a).Ok?
    ensures frame.answer.Some? ==> frame.answer.value == a
    ensures var s' := StepAnswer(s, frame, a).value;
            && s'.cells == s.cells
            && s'.frames == s.frames[a.frameId := frame.(answer := Some(a))]
  {
    assert frame.answer == Some(a) ==> frame.(answer := Some(a)) == frame;
  }

  lemma AnswerContent(es: seq<Event>, s: FoldState, frame: FrameRecord, a: Answer)
    requires ContentOk(es, s) && a.frameId in s.frames && frame == s.frames[a.frameId]
    requires StepAnswer(s, frame, a).Ok?
    ensures ContentOk(es + [AnswerCommitted(a)], StepAnswer(s, frame, a).value)
  {
    AnswerStep(s, frame, a);
    assert FrameContent(es, a.frameId, frame);
    UpdateKeepsContent(es, s, StepAnswer(s, frame, a).value, AnswerCommitted(a), a.frameId,
                       frame.(answer := Some(a)));
  }

  lemma StepKeepsContent(m: Manifest, es: seq<Event>, s: FoldState, e: Event)
    requires m.objective.Some? && ContentOk(es, s) && StepEvent(m, s, e).Ok?
    ensures ContentOk(es + [e], StepEvent(m, s, e).value)
  {
    if e.FrameOpened? { OpenedContent(m, es, s, e.opening); }
    else if e.WorkspaceCommitted? { WorkspaceContent(es, s, s.frames[e.workspace.frameId], e.workspace); }
    else if e.CellCommitted? { CellContent(m, es, s, s.frames[e.cell.frameId], e.cell); }
    else if e.AnswerCommitted? { AnswerContent(es, s, s.frames[e.answer.frameId], e.answer); }
    else {
      StepSameContents(m, s, e);
      SameContentsKept(es, s, StepEvent(m, s, e).value, e);
    }
  }

  lemma {:induction false} FoldKeepsContent(m: Manifest, es: seq<Event>)
    requires m.objective.Some? && Fold(m, es).Ok?
    ensures ContentOk(es, Fold(m, es).value)
  {
    if es != [] {
      var front, last := es[..|es| - 1], es[|es| - 1];
      assert es == front + [last];
      FoldKeepsContent(m, front);
      StepKeepsContent(m, front, Fold(m, front).value, last);
    }
  }

  // ----- What later events cannot change.

  ghost predicate Later(s: FoldState, s': FoldState) {
    forall f {:trigger f in s'.frames} | f in s.frames :: f in s'.frames && Grows(s.frames[f], s'.frames[f])
  }

  lemma StepIsLater(m: Manifest, es: seq<Event>, s: FoldState, e: Event)
    requires m.objective.Some? && ContentOk(es, s) && StepEvent(m, s, e).Ok?
    ensures Later(s, StepEvent(m, s, e).value)
  {
    if e.FrameOpened? { OpenedLater(m, s, e.opening); }
    else if e.WorkspaceCommitted? { WorkspaceLater(es, s, s.frames[e.workspace.frameId], e.workspace); }
    else if e.CellCommitted? { CellLater(m, es, s, s.frames[e.cell.frameId], e.cell); }
    else if e.AnswerCommitted? { AnswerLater(s, s.frames[e.answer.frameId], e.answer); }
    else { StepSameContents(m, s, e); }
  }

  lemma OpenedLater(m: Manifest, s: FoldState, o: Opened)
    requires m.objective.Some? && StepFrameOpened(m, s, o).Ok?
    ensures Later(s, StepFrameOpened(m, s, o).value)
  {
  }

  lemma WorkspaceLater(es: seq<Event>, s: FoldState, frame: FrameRecord, w: Workspace)
    requires ContentOk(es, s) && w.frameId in s.frames && frame == s.frames[w.frameId]
    requires StepWorkspace(s, frame, w).Ok?
    ensures Later(s, StepWorkspace(s, frame, w).value)
  {
    WorkspaceStep(s, frame, w);
    assert FrameContent(es, w.frameId, frame);
  }

  lemma CellLater(m: Manifest, es: seq<Event>, s: FoldState, frame: FrameRecord, c: Cell)
    requires ContentOk(es, s) && c.frameId in s.frames && frame == s.frames[c.frameId]
    requires StepCell(m, s, frame, c).Ok?
    ensures Later(s, StepCell(m, s, frame, c).value)
  {
    NewCellStep(m, s, frame, c);
    assert FrameContent(es, c.frameId, frame);
  }

  lemma AnswerLater(s: FoldState, frame: FrameRecord, a: Answer)
    requires a.frameId in s.frames && frame == s.frames[a.frameId] && StepAnswer(s, frame, a).Ok?
    ensures Later(s, StepAnswer(s, frame, a).value)
  {
  }

  lemma LaterTransitive(a: FoldState, b: FoldState, c: FoldState)
    requires Later(a, b) && Later(b, c)
    ensures Later(a, c)
  {
    forall f | f in a.frames ensures f in c.frames && Grows(a.frames[f], c.frames[f]) {
      assert f in b.frames;
    }
  }

  lemma {:induction false} FoldIsLater(m: Manifest, es: seq<Event>, k: nat)
    requires m.objective.Some? && Fold(m, es).Ok? && k <= |es|
    ensures Fold(m, es[..k]).Ok? && Later(Fold(m, es[..k]).value, Fold(m, es).value)
    decreases |es|
  {
    if k == |es| {
      assert es[..k] == es;
    } else {
      var front, last := es[..|es| - 1], es[|es| - 1];
      assert es[..k] == front[..k] && es == front + [last];
      FoldIsLater(m, front, k);
      FoldKeepsContent(m, front);
      StepIsLater(m, front, Fold(m, front).value, last);
      LaterTransitive(Fold(m, es[..k]).value, Fold(m, front).value, Fold(m, es).value);
    }
  }

  // ----- The verdict on a prefix.

  /** An output-bearing cell whose frame has no answer event yet. */
  ghost predicate OutputWithoutAnswer(es: seq<Event>) {
    exists e <- es ::
      && e.CellCommitted? && e.cell.output.id.Some?
      && !AnsweredIn(es, e.cell.frameId)
  }

  ghost predicate AnsweredIn(es: seq<Event>, f: FrameId) {
    exists e <- es :: e.AnswerCommitted? && e.answer.frameId == f
  }

  /** An external effect whose outcome the journal does not record. */
  ghost predicate IntentWithoutSettlement(es: seq<Event>) {
    exists e <- es :: e.OperationIntended? && !OperationOrder.SettledIn(es, e.intent)
  }

  ghost predicate OutputsAnswered(s: FoldState) {
    forall f <- s.frames :: forall i <- s.frames[f].cells ::
      s.frames[f].cells[i].output.id.Some? ==> s.frames[f].answer.Some?
  }

  lemma OutputsAnsweredInJournal(es: seq<Event>, s: FoldState)
    requires ContentOk(es, s)
    ensures OutputsAnswered(s) <==> !OutputWithoutAnswer(es)
  {
    if !OutputsAnswered(s) {
      var f, i :| f in s.frames && i in s.frames[f].cells
                  && s.frames[f].cells[i].output.id.Some? && s.frames[f].answer.None?;
      assert FrameContent(es, f, s.frames[f]);
      var e := CellCommitted(s.frames[f].cells[i]);
      assert e in es;
      AnsweredInJournal(es, s, f);
    }
    if OutputWithoutAnswer(es) {
      var e :| e in es && e.CellCommitted? && e.cell.output.id.Some? && !AnsweredIn(es, e.cell.frameId);
      assert HasCell(s, e.cell);
      AnsweredInJournal(es, s, e.cell.frameId);
    }
  }

  lemma AnsweredInJournal(es: seq<Event>, s: FoldState, f: FrameId)
    requires ContentOk(es, s) && f in s.frames
    ensures s.frames[f].answer.Some? <==> AnsweredIn(es, f)
  {
    assert FrameContent(es, f, s.frames[f]);
    if AnsweredIn(es, f) {
      var e :| e in es && e.AnswerCommitted? && e.answer.frameId == f;
      assert HasAnswer(s, e.answer);
    }
  }

  lemma UnresolvedInJournal(m: Manifest, es: seq<Event>)
    requires m.objective.Some? && Fold(m, es).Ok?
    ensures Unresolved(Fold(m, es).value) <==> IntentWithoutSettlement(es)
  {
    OperationOrder.FoldKeepsJournal(m, es);
    UnresolvedInBooks(es, Fold(m, es).value);
  }

  lemma UnresolvedInBooks(es: seq<Event>, s: FoldState)
    requires OperationOrder.JournalOk(es, s)
    ensures Unresolved(s) <==> IntentWithoutSettlement(es)
  {
    if Unresolved(s) {
      var id :| id in s.book.intents && id !in s.book.settlements;
      OperationOrder.FindIntent(es, s, id);
      OperationOrder.IntentPosition(es, s.book.intents[id]);
      OperationOrder.BookSettlesIn(es, s, s.book.intents[id]);
      var e := OperationIntended(s.book.intents[id]);
      assert e in es;
    }
    if IntentWithoutSettlement(es) {
      var e :| e in es && e.OperationIntended? && !OperationOrder.SettledIn(es, e.intent);
      OperationOrder.IntentPosition(es, e.intent);
      OperationOrder.BookSettlesIn(es, s, e.intent);
      assert e.intent.intentId in s.book.intents;
    }
  }

  /** A frame of a cut is complete except perhaps for its answer. */
  lemma CutFrameComplete(es: seq<Event>, f: FrameId, cut: FrameRecord, whole: FrameRecord)
    requires FrameContent(es, f, cut) && Grows(cut, whole) && CellsComplete(whole)
    ensures WorkspacesPlaced(cut, false)
    ensures CellsComplete(cut) <==>
            forall i <- cut.cells :: cut.cells[i].output.id.Some? ==> cut.answer.Some?
  {
    forall i <- cut.cells
      ensures InterpreterFailure(cut.cells[i]) || i in cut.workspaces
      ensures CellAnswered(cut, cut.cells[i]) <==> (cut.cells[i].output.id.Some? ==> cut.answer.Some?)
    {
      assert CellAnswered(whole, whole.cells[i]);
    }
  }

  lemma CutVerdict(m: Manifest, es: seq<Event>, cut: FoldState, whole: FoldState)
    requires ContentOk(es, cut) && Later(cut, whole) && cut.terminal.None?
    requires forall f <- whole.frames :: CellsComplete(whole.frames[f])
    requires !Unresolved(cut) ==> cut.totals.tokensReserved == 0
    ensures !OutputsAnswered(cut) ==> Finish(m, cut) == Err(SemanticCorruption)
    ensures OutputsAnswered(cut) && Unresolved(cut) ==> Finish(m, cut) == Err(Ambiguous)
    ensures OutputsAnswered(cut) && !Unresolved(cut) ==> Finish(m, cut).Ok?
  {
    forall f | f in cut.frames
      ensures WorkspacesPlaced(cut.frames[f], false)
      ensures CellsComplete(cut.frames[f]) <==>
              forall i <- cut.frames[f].cells :: cut.frames[f].cells[i].output.id.Some? ==> cut.frames[f].answer.Some?
    {
      assert f in whole.frames;
      CutFrameComplete(es, f, cut.frames[f], whole.frames[f]);
    }
  }

  lemma AcceptedFrames(m: Manifest, s: FoldState)
    requires Finish(m, s).Ok?
    ensures forall f <- s.frames :: CellsComplete(s.frames[f])
  {
  }

  /**
   * Every proper nonempty prefix of an accepted journal has one of three verdicts. A cut between an output-bearing
   * cell and its answer is semantic corruption; otherwise an unsettled intent makes it exactly AMBIGUOUS; otherwise
   * the prefix is accepted.
   */
  lemma CrashCutVerdict(m: Manifest, events: seq<Event>, k: nat)
    requires Validate(m, events).Ok? && 1 <= k < |events|
    ensures OutputWithoutAnswer(events[1..k]) ==> Validate(m, events[..k]) == Err(SemanticCorruption)
    ensures !OutputWithoutAnswer(events[1..k]) && IntentWithoutSettlement(events[1..k]) ==>
              Validate(m, events[..k]) == Err(Ambiguous)
    ensures !OutputWithoutAnswer(events[1..k]) && !IntentWithoutSettlement(events[1..k]) ==>
              Validate(m, events[..k]).Ok?
  {
    var es := events[1..];
    var cut := es[..k - 1];
    assert events[1..k] == cut && events[..k][1..] == cut;
    PrefixFolds(m, es, k - 1);
    FoldIsLater(m, es, k - 1);
    FoldKeepsContent(m, cut);
    OperationOrder.ReservationsAreOutstanding(m, cut);
    AcceptedFrames(m, Fold(m, es).value);
    CutVerdict(m, cut, Fold(m, cut).value, Fold(m, es).value);
    OutputsAnsweredInJournal(cut, Fold(m, cut).value);
    UnresolvedInJournal(m, cut);
    StartOfPrefix(m, events, k);
  }

  lemma StartOfPrefix(m: Manifest, events: seq<Event>, k: nat)
    requires CheckStart(m, events).Ok? && 1 <= k <= |events|
    ensures CheckStart(m, events[..k]).Ok?
  {
  }
}
