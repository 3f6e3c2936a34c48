/**
 * The strict fold against the grammar of journals: it accepts exactly the journals in which every event may follow those
 * before it, and refuses any other for the first event that may not.
 */
module JournalLanguage {
  import opened Wrappers
  import opened Usage
  import opened Journal
  import opened RecoveryJournal
  import opened JournalContents
  import opened JournalGrammar
  import opened OperationDiscipline
  import opened OperationOrder
  import CrashCut
  import FoldAgreement
  import JournalLimits

  // ----- The fold's state, read from the journal.

  lemma FramesRead(es: seq<Event>, frames: Frames, f: FrameId)
    requires FramesTold(es, frames)
    ensures OpenedIn(es, f) <==> f in frames
    ensures ClosedIn(es, f) <==> f in frames && frames[f].closed.Some?
    ensures f in frames ==> frames[f].opening.frameId == f && FrameOpened(frames[f].opening) in es
  {
    if f in frames {
      assert OpeningAt(frames, f) == Some(frames[f].opening);
      assert FrameOpened(frames[f].opening) in es;
      if frames[f].closed.Some? {
        assert ClosedAt(frames, f) == Some(frames[f].closed.value);
        assert FrameClosed(f, frames[f].closed.value) in es;
      }
    }
    if OpenedIn(es, f) { var o :| FrameOpened(o) in es && o.frameId == f; assert OpeningAt(frames, o.frameId) == Some(o); }
    if ClosedIn(es, f) { var state :| FrameClosed(f, state) in es; assert ClosedAt(frames, f) == Some(state); }
  }

  lemma CellsRead(es: seq<Event>, frames: Frames, f: FrameId)
    requires CellsTold(es, frames)
    ensures f in frames ==> frames[f].cells.Keys == CellsIn(es, f) && |frames[f].cells| == |CellsIn(es, f)|
    ensures f !in frames ==> CellsIn(es, f) == {}
  {
    forall i ensures i in CellsIn(es, f) <==> CellAt(frames, f, i).Some? {
      if CellAt(frames, f, i).Some? {
        var c := CellAt(frames, f, i).value;
        assert CellCommitted(c) in es;
      }
      if i in CellsIn(es, f) {
        var e :| e in es && e.CellCommitted? && e.cell.frameId == f && e.cell.iteration == i;
        assert CellCommitted(e.cell) in es;
      }
    }
    if f in frames { assert frames[f].cells.Keys == CellsIn(es, f); }
  }

  lemma TurnsRead(es: seq<Event>, s: FoldState)
    requires CellsTold(es, s.frames) && CrashCut.RegistryOk(s)
    ensures s.cells.Keys == TurnsIn(es) && |s.cells| == |TurnsIn(es)|
  {
    forall f, i ensures (f, i) in s.cells <==> (f, i) in TurnsIn(es) {
      assert (f, i) in s.cells <==> f in s.frames && i in s.frames[f].cells;
      if (f, i) in s.cells { assert CellCommitted(CellAt(s.frames, f, i).value) in es; }
      if (f, i) in TurnsIn(es) {
        var e :| e in es && e.CellCommitted? && e.cell.frameId == f && e.cell.iteration == i;
        assert CellCommitted(e.cell) in es;
      }
    }
    forall k ensures k in s.cells.Keys <==> k in TurnsIn(es) { assert k == (k.0, k.1); }
    assert |s.cells| == |s.cells.Keys|;
  }

  lemma ChildrenRead(es: seq<Event>, frames: Frames)
    requires OpeningsTold(es, frames)
    ensures FoldAgreement.Children(frames) == ChildrenIn(es)
  {
    forall f ensures f in FoldAgreement.Children(frames) <==> f in ChildrenIn(es) {
      if f in FoldAgreement.Children(frames) {
        assert OpeningAt(frames, f) == Some(frames[f].opening);
        assert FrameOpened(frames[f].opening) in es;
      }
      if f in ChildrenIn(es) {
        var e :| e in es && e.FrameOpened? && e.opening.parent.Some? && e.opening.frameId == f;
        assert FrameOpened(e.opening) in es && OpeningAt(frames, f) == Some(e.opening);
      }
    }
  }

  lemma CallsRead(m: Manifest, es: seq<Event>, s: FoldState)
    requires OpeningsTold(es, s.frames) && JournalLimits.CountersOk(m, Intents(es), s)
    ensures s.totals.childFrames == |ChildrenIn(es)| && s.totals.logicalCalls == CallsIn(es)
    ensures s.totals.attempts == |Intents(es)|
  {
    ChildrenRead(es, s.frames);
  }

  lemma SettlementRead(es: seq<Event>, s: FoldState, id: IntentId)
    requires OperationOrder.JournalOk(es, s)
    ensures id in SettledIds(es) <==> id in s.book.settlements
    ensures SettlementIn(es, id) == if id in s.book.settlements then Some(s.book.settlements[id]) else None
  {
    if id in s.book.settlements {
      assert SettlementOk(s.book, id);
      SettlementPosition(es, s.book.settlements[id]);
      assert SettledAs(es, id, s.book.settlements[id]);
      assert OperationSettled(s.book.settlements[id]) in es;
    }
    forall x | SettledAs(es, id, x) ensures id in s.book.settlements && s.book.settlements[id] == x {
      SettlementPosition(es, x);
    }
    if id in SettledIds(es) {
      var e :| e in es && e.OperationSettled? && e.settlement.intentId == id;
      assert SettledAs(es, id, e.settlement);
    }
  }

  /** The books settle exactly what the journal settles, and in the same way. */
  ghost predicate Answered(es: seq<Event>, book: Book) {
    && SettledIds(es) == book.settlements.Keys
    && forall id {:trigger SettlementIn(es, id)} ::
         SettlementIn(es, id) == if id in book.settlements then Some(book.settlements[id]) else None
  }

  lemma AnsweredRead(es: seq<Event>, s: FoldState)
    requires OperationOrder.JournalOk(es, s)
    ensures Answered(es, s.book)
  {
    forall id
      ensures id in SettledIds(es) <==> id in s.book.settlements
      ensures SettlementIn(es, id) == if id in s.book.settlements then Some(s.book.settlements[id]) else None
    {
      SettlementRead(es, s, id);
    }
  }

  lemma UsagesRead(es: seq<Event>, book: Book, attempts: seq<Intent>)
    requires Answered(es, book) && forall k | 0 <= k < |attempts| :: attempts[k].intentId in book.settlements
    ensures UsagesIn(es, attempts) == SettledUsages(book, attempts)
  {
  }

  /** The books record the operation exactly if the journal has attempts of it, and then as the discipline says. */
  ghost predicate Booked(es: seq<Event>, book: Book, key: OperationKey) {
    && (key in book.operations <==> Of(Intents(es), key) != [])
    && (key in book.operations ==> OperationOk(key, book.operations[key], Of(Intents(es), key), book))
  }

  lemma BookedRead(es: seq<Event>, s: FoldState, key: OperationKey)
    requires OperationOrder.JournalOk(es, s)
    ensures Booked(es, s.book, key)
  {
    assert KeyOk(Intents(es), s.book, key);
  }

  // ----- Frames.

  lemma OpeningVerdict(m: Manifest, es: seq<Event>, s: FoldState, o: Opened)
    requires m.objective.Some? && FramesTold(es, s.frames) && JournalLimits.CountersOk(m, Intents(es), s)
    ensures StepFrameOpened(m, s, o).Ok? <==> OpeningAdmitted(m, es, o)
  {
    FramesRead(es, s.frames, o.frameId);
    CallsRead(m, es, s);
    assert FrameOpened(o) in es <==> OpeningAt(s.frames, o.frameId) == Some(o);
    if o.parent.Some? {
      var parent := o.parent.value;
      FramesRead(es, s.frames, parent);
      forall p | FrameOpened(p) in es && p.frameId == parent
        ensures parent in s.frames && s.frames[parent].opening == p
      {
        assert OpeningAt(s.frames, p.frameId) == Some(p);
      }
    }
  }

  lemma ProgressVerdict(es: seq<Event>, s: FoldState, p: Progress)
    requires FramesTold(es, s.frames) && p.frameId in s.frames
    ensures StepProgress(s, s.frames[p.frameId], p).Ok? <==> ProgressAdmitted(es, p)
  {
    CellsRead(es, s.frames, p.frameId);
    var at := ProgressAt(s.frames, p.frameId, p.iteration, p.ordinal);
    if at.Some? { assert ProgressMade(at.value) in es; }
    forall q | ProgressMade(q) in es && q.frameId == p.frameId && q.iteration == p.iteration && q.ordinal == p.ordinal
      ensures at == Some(q)
    {
    }
  }

  lemma WorkspaceVerdict(es: seq<Event>, s: FoldState, w: Workspace)
    requires FramesTold(es, s.frames) && w.frameId in s.frames
    ensures StepWorkspace(s, s.frames[w.frameId], w).Ok? <==> WorkspaceAdmitted(es, w)
  {
    CellsRead(es, s.frames, w.frameId);
    var at := WorkspaceAt(s.frames, w.frameId, w.iteration);
    if at.Some? { assert WorkspaceCommitted(at.value) in es; }
    forall v | WorkspaceCommitted(v) in es && v.frameId == w.frameId && v.iteration == w.iteration ensures at == Some(v) {}
  }

  lemma ClosingVerdict(es: seq<Event>, s: FoldState, f: FrameId, state: FrameState)
    requires FramesTold(es, s.frames) && f in s.frames
    ensures StepClosed(s, s.frames[f], f, state).Ok? <==> ClosingAdmitted(es, f, state)
  {
    forall o | FrameOpened(o) in es ensures o.frameId in s.frames && s.frames[o.frameId].opening == o {
      assert OpeningAt(s.frames, o.frameId) == Some(o);
    }
    forall child ensures ClosedIn(es, child) <==> child in s.frames && s.frames[child].closed.Some? {
      FramesRead(es, s.frames, child);
    }
    forall child | child in s.frames ensures FrameOpened(s.frames[child].opening) in es
                                            && s.frames[child].opening.frameId == child {
      FramesRead(es, s.frames, child);
    }
  }

  lemma AnswerVerdict(es: seq<Event>, s: FoldState, a: Answer)
    requires FramesTold(es, s.frames) && a.frameId in s.frames
    ensures StepAnswer(s, s.frames[a.frameId], a).Ok? <==> AnswerAdmitted(es, a)
  {
    var f := a.frameId;
    CellsRead(es, s.frames, f);
    if AnswerAt(s.frames, f).Some? { assert AnswerCommitted(AnswerAt(s.frames, f).value) in es; }
    forall b | AnswerCommitted(b) in es && b.frameId == f ensures AnswerAt(s.frames, f) == Some(b) {}
    var n := |CellsIn(es, f)|;
    if CellAt(s.frames, f, n).Some? { assert CellCommitted(CellAt(s.frames, f, n).value) in es; }
    forall c | CellCommitted(c) in es && c.frameId == f && c.iteration == n ensures CellAt(s.frames, f, n) == Some(c) {}
    if ProjectionAt(s.frames, f).Some? { assert FallbackProjected(ProjectionAt(s.frames, f).value) in es; }
    forall p | FallbackProjected(p) in es && p.frameId == f ensures ProjectionAt(s.frames, f) == Some(p) {}
    if CitationAt(s.frames, f).Some? { assert FallbackCited(CitationAt(s.frames, f).value) in es; }
    forall c | FallbackCited(c) in es && c.frameId == f ensures CitationAt(s.frames, f) == Some(c) {}
  }

  lemma ProjectionVerdict(m: Manifest, es: seq<Event>, s: FoldState, p: Projection)
    requires FramesTold(es, s.frames) && p.frameId in s.frames
    ensures StepProjected(m, s, s.frames[p.frameId], p).Ok? <==> ProjectionAdmitted(m, es, p)
  {
    var f := p.frameId;
    if AnswerAt(s.frames, f).Some? { assert AnswerCommitted(AnswerAt(s.frames, f).value) in es; }
    forall b | AnswerCommitted(b) in es && b.frameId == f ensures AnswerAt(s.frames, f) == Some(b) {}
    if ProjectionAt(s.frames, f).Some? { assert FallbackProjected(ProjectionAt(s.frames, f).value) in es; }
    forall q | FallbackProjected(q) in es && q.frameId == f ensures ProjectionAt(s.frames, f) == Some(q) {}
  }

  lemma {:induction false} DistinctRefs(refs: seq<string>)
    ensures |(set r <- refs)| == |refs| <==> forall i, j | 0 <= i < j < |refs| :: refs[i] != refs[j]
    ensures |(set r <- refs)| <= |refs|
  {
    if refs == [] {
      assert (set r <- refs) == {};
    } else {
      var front, last := refs[..|refs| - 1], refs[|refs| - 1];
      DistinctRefs(front);
      assert refs == front + [last];
      assert (set r <- refs) == (set r <- front) + {last};
      if last in front {
        assert (set r <- refs) == (set r <- front);
        var i :| 0 <= i < |front| && front[i] == last;
        assert refs[i] == refs[|refs| - 1];
      } else {
        forall i, j | 0 <= i < j < |refs| && (forall i, j | 0 <= i < j < |front| :: front[i] != front[j])
          ensures refs[i] != refs[j]
        {
          if j < |front| { assert front[i] != front[j]; } else { assert front[i] in front; }
        }
        if i, j :| 0 <= i < j < |front| && front[i] == front[j] { assert refs[i] == refs[j]; }
      }
    }
  }

  lemma CitationVerdict(m: Manifest, es: seq<Event>, s: FoldState, c: Citation)
    requires FramesTold(es, s.frames) && c.frameId in s.frames
    ensures StepCited(m, s, s.frames[c.frameId], c).Ok? <==> CitationAdmitted(m, es, c)
  {
    var f := c.frameId;
    DistinctRefs(c.evidenceRefs);
    if CitationAt(s.frames, f).Some? { assert FallbackCited(CitationAt(s.frames, f).value) in es; }
    forall d | FallbackCited(d) in es && d.frameId == f ensures CitationAt(s.frames, f) == Some(d) {}
    if ProjectionAt(s.frames, f).Some? { assert FallbackProjected(ProjectionAt(s.frames, f).value) in es; }
    forall q | FallbackProjected(q) in es && q.frameId == f ensures ProjectionAt(s.frames, f) == Some(q) {}
  }

  // ----- Keys and approvals.

  lemma KeyRead(m: Manifest, es: seq<Event>, s: FoldState, id: RegistryId)
    requires KeysTold(m.runId, es, s.registry.keys)
    ensures id in s.registry.keys ==> BoundIn(m.runId, es, id, s.registry.keys[id])
    ensures forall b :: BoundIn(m.runId, es, id, b) ==> id in s.registry.keys && s.registry.keys[id] == b
  {
    if id in s.registry.keys {
      var b := s.registry.keys[id];
      assert RegistryIdOf(m.runId, b.kind, b.key, b.frameId) == Some(id);
      assert KeyBound(b) in es;
    }
  }

  lemma BindingVerdict(m: Manifest, es: seq<Event>, s: FoldState, b: KeyBinding)
    requires KeysTold(m.runId, es, s.registry.keys)
    ensures StepKeyBound(m, s, b).Ok? <==> BindingAdmitted(m, es, b)
  {
    var id := RegistryIdOf(m.runId, b.kind, b.key, b.frameId);
    if id.Some? { KeyRead(m, es, s, id.value); }
  }

  lemma ApprovalVerdict(es: seq<Event>, s: FoldState, a: Approval)
    requires ApprovalsTold(es, s.registry.approvals)
    ensures StepApproval(s, a).Ok? <==> ApprovalAdmitted(es, a)
  {
    var k := (a.frameId, a.callId);
    if k in s.registry.approvals { assert AgentApproval(s.registry.approvals[k]) in es; }
  }

  lemma AuthorizedCallRead(m: Manifest, es: seq<Event>, s: FoldState, kind: CallKind, key: string, id: CallId)
    requires KeysTold(m.runId, es, s.registry.keys)
    ensures AuthorizedCallId(m, s, kind, key) == Some(id) <==> CallAuthorizedIn(m, es, kind, key, id)
  {
    KeyRead(m, es, s, GlobalKey(kind, key));
  }

  // ----- Operations.

  /** What the books record of an operation, read from the journal. */
  ghost predicate OperationKnown(es: seq<Event>, s: FoldState, key: OperationKey) {
    var attempts := Of(Intents(es), key);
    && (key in s.book.operations <==> attempts != [])
    && (attempts != [] ==>
          var op, last := s.book.operations[key], attempts[|attempts| - 1].intentId;
          && |op.segments| > 0 && op.lastAttempt == |attempts| && op.lastIntentId == last
          && op.kind == attempts[0].identity.kind && op.key == attempts[0].identity.key
          && (last in SettledIds(es) <==> op.segments[|op.segments| - 1].Complete())
          && (|op.segments| == 1 <==> LastLogicalCall(attempts) == attempts))
  }

  /** The usage and the outcome of an operation's last logical call, as the journal settles it. */
  ghost predicate CallSettled(es: seq<Event>, op: Operation, attempts: seq<Intent>) {
    && |op.segments| > 0 && attempts != []
    && var segment := op.segments[|op.segments| - 1];
       && segment.usage == SumUsage(UsagesIn(es, LastLogicalCall(attempts)))
       && |segment.outcomes| > 0
       && SettlementIn(es, attempts[|attempts| - 1].intentId) == Some(segment.outcomes[|segment.outcomes| - 1])
  }

  ghost predicate LastCallKnown(es: seq<Event>, s: FoldState, key: OperationKey) {
    key in s.book.operations && Of(Intents(es), key) != [] ==>
      var op := s.book.operations[key];
      && |op.segments| > 0
      && (op.segments[|op.segments| - 1].Complete() ==> CallSettled(es, op, Of(Intents(es), key)))
  }

  lemma OperationFacts(key: OperationKey, op: Operation, attempts: seq<Intent>, book: Book)
    requires OperationOk(key, op, attempts, book)
    ensures attempts != [] && |op.segments| > 0 && op.lastAttempt == |attempts|
    ensures op.lastIntentId == attempts[|attempts| - 1].intentId
    ensures op.kind == attempts[0].identity.kind && op.key == attempts[0].identity.key
    ensures attempts[|attempts| - 1].intentId in book.settlements <==> op.segments[|op.segments| - 1].Complete()
    ensures |op.segments| == 1 <==> LastLogicalCall(attempts) == attempts
  {
    LastSettled(key, op, attempts, book);
    OnlySegment(key, op, attempts, book);
  }

  lemma OperationRead(es: seq<Event>, s: FoldState, key: OperationKey)
    requires Answered(es, s.book) && Booked(es, s.book, key)
    ensures OperationKnown(es, s, key)
  {
    if key in s.book.operations { OperationFacts(key, s.book.operations[key], Of(Intents(es), key), s.book); }
  }

  ghost predicate CallAnswered(op: Operation, attempts: seq<Intent>, book: Book) {
    && |op.segments| > 0 && attempts != []
    && var segment, last, call := op.segments[|op.segments| - 1], attempts[|attempts| - 1].intentId, LastLogicalCall(attempts);
       && |segment.outcomes| > 0 && last in book.settlements
       && book.settlements[last] == segment.outcomes[|segment.outcomes| - 1]
       && (forall k | 0 <= k < |call| :: call[k].intentId in book.settlements)
       && segment.usage == SumUsage(SettledUsages(book, call))
  }

  lemma LastCallFacts(key: OperationKey, op: Operation, attempts: seq<Intent>, book: Book)
    requires OperationOk(key, op, attempts, book) && op.segments[|op.segments| - 1].Complete()
    ensures CallAnswered(op, attempts, book)
  {
    LastSegmentUsage(key, op, attempts, book);
    var segment := op.segments[|op.segments| - 1];
    assert SegmentOk(key, segment, book);
    assert attempts[|attempts| - 1] == segment.intents[|segment.intents| - 1];
  }

  lemma AnsweredIsSettled(es: seq<Event>, op: Operation, attempts: seq<Intent>, book: Book)
    requires CallAnswered(op, attempts, book) && Answered(es, book)
    ensures CallSettled(es, op, attempts)
  {
    UsagesRead(es, book, LastLogicalCall(attempts));
  }

  lemma LastCallRead(es: seq<Event>, s: FoldState, key: OperationKey)
    requires Answered(es, s.book) && Booked(es, s.book, key)
    ensures LastCallKnown(es, s, key)
  {
    if key in s.book.operations {
      var op, attempts := s.book.operations[key], Of(Intents(es), key);
      if op.segments[|op.segments| - 1].Complete() {
        LastCallFacts(key, op, attempts, s.book);
        AnsweredIsSettled(es, op, attempts, s.book);
      }
    }
  }

  /** All that the fold knows of an operation. */
  lemma OperationKeyRead(es: seq<Event>, s: FoldState, key: OperationKey)
    requires OperationOrder.JournalOk(es, s)
    ensures OperationKnown(es, s, key) && LastCallKnown(es, s, key)
  {
    AnsweredRead(es, s);
    BookedRead(es, s, key);
    OperationRead(es, s, key);
    LastCallRead(es, s, key);
  }

  lemma FlattenEnds(segments: seq<Segment>)
    requires segments != [] && segments[|segments| - 1].intents != []
    ensures Flatten(segments) != []
  {
  }

  lemma OnlySegment(key: OperationKey, op: Operation, attempts: seq<Intent>, book: Book)
    requires OperationOk(key, op, attempts, book)
    ensures |op.segments| == 1 <==> LastLogicalCall(attempts) == attempts
  {
    LastSegmentUsage(key, op, attempts, book);
    var front, last := op.segments[..|op.segments| - 1], op.segments[|op.segments| - 1];
    assert |attempts| == |Flatten(front)| + |last.intents|;
    if |op.segments| == 1 {
      assert front == [] && attempts == last.intents;
    } else {
      assert SegmentOk(key, op.segments[|front| - 1], book) && front[|front| - 1] == op.segments[|front| - 1];
      FlattenEnds(front);
    }
  }

  /** What the fold knows of the turn that a cell belongs to. */
  ghost predicate TurnKnown(es: seq<Event>, s: FoldState, c: Cell) {
    && c.frameId in s.frames
    && |s.frames[c.frameId].cells| == |CellsIn(es, c.frameId)|
    && s.totals.committedControllerTurns == |TurnsIn(es)|
    && ((c.frameId, c.iteration) in s.cells <==> c.iteration in CellsIn(es, c.frameId))
    && (CellCommitted(c) in es <==> (c.frameId, c.iteration) in s.cells && s.cells[(c.frameId, c.iteration)] == c)
  }

  ghost predicate ControllerKnown(es: seq<Event>, s: FoldState, key: OperationKey) {
    var attempts := Of(Intents(es), key);
    && (key in s.book.operations ==>
          && |s.book.operations[key].segments| > 0
          && (ControllerComplete(s.book.operations[key]) <==> ControllerDone(es, attempts)))
    && (key !in s.book.operations ==> attempts == [])
    && (key in s.book.operations && ControllerDone(es, attempts) ==>
          s.book.operations[key].segments[|s.book.operations[key].segments| - 1].usage
          == SumUsage(UsagesIn(es, attempts)))
  }

  lemma ControllerRead(es: seq<Event>, s: FoldState, key: OperationKey)
    requires OperationKnown(es, s, key) && LastCallKnown(es, s, key)
    ensures ControllerKnown(es, s, key)
  {
  }

  lemma TurnRead(m: Manifest, es: seq<Event>, s: FoldState, c: Cell)
    requires CellsTold(es, s.frames) && CrashCut.RegistryOk(s) && JournalLimits.CountersOk(m, Intents(es), s)
    requires c.frameId in s.frames
    ensures TurnKnown(es, s, c)
  {
    CellsRead(es, s.frames, c.frameId);
    TurnsRead(es, s);
    var at := CellAt(s.frames, c.frameId, c.iteration);
    assert (c.frameId, c.iteration) in s.cells <==> at.Some?;
    if at.Some? { assert CellCommitted(at.value) in es && s.cells[(c.frameId, c.iteration)] == at.value; }
    assert CellCommitted(c) in es <==> at == Some(c);
  }

  lemma CellCases(m: Manifest, es: seq<Event>, s: FoldState, c: Cell)
    requires TurnKnown(es, s, c) && ControllerKnown(es, s, OpKey(c.frameId, ControllerOperation(c.frameId, c.iteration)))
    ensures StepCell(m, s, s.frames[c.frameId], c).Ok? <==> CellAdmitted(m, es, c)
  {
    assert UsagesIn(es, []) == [];
  }

  lemma CellVerdict(m: Manifest, es: seq<Event>, s: FoldState, c: Cell)
    requires Told(m, es, s) && c.frameId in s.frames
    ensures StepCell(m, s, s.frames[c.frameId], c).Ok? <==> CellAdmitted(m, es, c)
  {
    TurnRead(m, es, s, c);
    var key := OpKey(c.frameId, ControllerOperation(c.frameId, c.iteration));
    OperationKeyRead(es, s, key);
    ControllerRead(es, s, key);
    CellCases(m, es, s, c);
  }

  lemma FollowsRead(es: seq<Event>, s: FoldState, i: IntentIdentity)
    requires OperationKnown(es, s, OpKey(i.frameId, i.operationId)) && SettledIds(es) == s.book.settlements.Keys
    ensures AttemptInOrder(s, i) <==> FollowsIn(es, i)
  {
  }

  lemma BudgetRead(m: Manifest, es: seq<Event>, s: FoldState, i: IntentIdentity)
    requires s.totals.attempts == |Intents(es)| && s.totals.logicalCalls == CallsIn(es)
    requires s.totals.tokensReserved == ReservedIn(es) && s.totals.tokensUsed == UsedIn(es)
    ensures ReservationAllowed(m, s, i) <==> BudgetAdmits(m, es, i)
  {
  }

  lemma TotalsRead(m: Manifest, es: seq<Event>, s: FoldState)
    requires Told(m, es, s)
    ensures s.totals.attempts == |Intents(es)| && s.totals.logicalCalls == CallsIn(es)
    ensures s.totals.tokensReserved == ReservedIn(es) && s.totals.tokensUsed == UsedIn(es)
    ensures s.totals.checkpointSequence == Checkpoints(es) && s.book.controllerOperations == ControllersIn(es)
  {
    CallsRead(m, es, s);
    AnsweredRead(es, s);
  }

  lemma ProjectionRead(es: seq<Event>, frames: Frames, f: FrameId, hash: string)
    requires ProjectionsTold(es, frames)
    ensures (exists p :: FallbackProjected(p) in es && p.frameId == f && p.projectionHash == hash) <==>
              ProjectionAt(frames, f).Some? && ProjectionAt(frames, f).value.projectionHash == hash
  {
    if ProjectionAt(frames, f).Some? { assert FallbackProjected(ProjectionAt(frames, f).value) in es; }
    forall p | FallbackProjected(p) in es && p.frameId == f ensures ProjectionAt(frames, f) == Some(p) {}
  }

  ghost predicate AuthorityKnown(m: Manifest, es: seq<Event>, s: FoldState, i: IntentIdentity) {
    && i.frameId in s.frames && |s.frames[i.frameId].cells| == |CellsIn(es, i.frameId)|
    && s.book.controllerOperations == ControllersIn(es)
    && ((exists p :: FallbackProjected(p) in es && p.frameId == i.frameId && p.projectionHash == i.key) <==>
          ProjectionAt(s.frames, i.frameId).Some? && ProjectionAt(s.frames, i.frameId).value.projectionHash == i.key)
    && (i.operationId.CallOperation? ==>
          var id := i.operationId.callId;
          && (AuthorizedCallId(m, s, LlmCall, i.key) == Some(id) <==> CallAuthorizedIn(m, es, LlmCall, i.key, id))
          && (AuthorizedCallId(m, s, AgentCall, i.key) == Some(id) <==> CallAuthorizedIn(m, es, AgentCall, i.key, id))
          && ((i.frameId, id) in s.registry.approvals && s.registry.approvals[(i.frameId, id)].decision != Denied <==>
                exists a :: AgentApproval(a) in es && a.frameId == i.frameId && a.callId == id && a.decision != Denied))
  }

  lemma AuthorityRead(m: Manifest, es: seq<Event>, s: FoldState, i: IntentIdentity)
    requires Told(m, es, s) && i.frameId in s.frames
    ensures AuthorityKnown(m, es, s, i)
  {
    TotalsRead(m, es, s);
    CellsRead(es, s.frames, i.frameId);
    ProjectionRead(es, s.frames, i.frameId, i.key);
    if i.operationId.CallOperation? {
      AuthorizedCallRead(m, es, s, LlmCall, i.key, i.operationId.callId);
      AuthorizedAgentRead(m, es, s, i);
    }
  }

  lemma AuthorizedRead(m: Manifest, es: seq<Event>, s: FoldState, i: IntentIdentity)
    requires AuthorityKnown(m, es, s, i)
    ensures OperationAuthorized(m, s, s.frames[i.frameId], i) <==> AuthorizedIn(m, es, i)
  {
  }

  lemma AuthorizedAgentRead(m: Manifest, es: seq<Event>, s: FoldState, i: IntentIdentity)
    requires RegistryTold(m.runId, es, s.registry) && i.operationId.CallOperation?
    ensures var id, k := i.operationId.callId, (i.frameId, i.operationId.callId);
            && (AuthorizedCallId(m, s, AgentCall, i.key) == Some(id) <==> CallAuthorizedIn(m, es, AgentCall, i.key, id))
            && (k in s.registry.approvals && s.registry.approvals[k].decision != Denied <==>
                  exists a :: AgentApproval(a) in es && a.frameId == i.frameId && a.callId == id && a.decision != Denied)
  {
    var id, k := i.operationId.callId, (i.frameId, i.operationId.callId);
    AuthorizedCallRead(m, es, s, AgentCall, i.key, id);
    if k in s.registry.approvals { assert AgentApproval(s.registry.approvals[k]) in es; }
  }

  lemma IntentIdRead(es: seq<Event>, s: FoldState, id: IntentId)
    requires OperationOrder.JournalOk(es, s)
    ensures id in s.book.intents <==> exists j :: OperationIntended(j) in es && j.intentId == id
    ensures forall j :: OperationIntended(j) in es && j.intentId == id ==> id in s.book.intents && s.book.intents[id] == j
  {
    if id in s.book.intents { FindIntent(es, s, id); }
    forall j | OperationIntended(j) in es && j.intentId == id ensures id in s.book.intents && s.book.intents[id] == j {
      IntentPosition(es, j);
      var k :| 0 <= k < |Intents(es)| && Intents(es)[k] == j;
    }
  }

  lemma IntentVerdict(m: Manifest, es: seq<Event>, s: FoldState, intent: Intent)
    requires Told(m, es, s) && intent.identity.frameId in s.frames
    ensures StepIntended(m, s, s.frames[intent.identity.frameId], intent).Ok? <==> IntentAdmitted(m, es, intent)
  {
    var i := intent.identity;
    IntentIdRead(es, s, intent.intentId);
    TotalsRead(m, es, s);
    BudgetRead(m, es, s, i);
    AuthorityRead(m, es, s, i);
    AuthorizedRead(m, es, s, i);
    OperationKeyRead(es, s, OpKey(i.frameId, i.operationId));
    AnsweredRead(es, s);
    FollowsRead(es, s, i);
  }

  /** The last logical call of an operation whose last attempt has not settled, and its sum so far. */
  ghost predicate OpenCall(es: seq<Event>, book: Book, id: IntentId) {
    && id in book.intents && HasSegment(book, id)
    && var call := LastLogicalCall(Of(Intents(es), book.intents[id].OperationKey()));
       && call != [] && SegmentFor(book, id).usage == SumUsage(UsagesIn(es, call[..|call| - 1]))
       && Within(SegmentFor(book, id).usage, ADD_USAGE_LIMITS)
  }

  lemma OpenSegmentIsLast(key: OperationKey, op: Operation, attempts: seq<Intent>, book: Book, n: nat, id: IntentId)
    requires OperationOk(key, op, attempts, book) && n < |op.segments|
    requires id in book.intents && book.intents[id].intentId == id && book.intents[id] in op.segments[n].intents
    requires id !in book.settlements
    ensures n == |op.segments| - 1 && |op.segments[n].outcomes| == |op.segments[n].intents| - 1
  {
    var segment := op.segments[n];
    assert SegmentOk(key, segment, book);
    var j :| 0 <= j < |segment.intents| && segment.intents[j] == book.intents[id];
    assert segment.intents[j].intentId == id;
    assert j >= |segment.outcomes|;
  }

  lemma SegmentSum(key: OperationKey, segment: Segment, book: Book)
    requires SegmentOk(key, segment, book) && |segment.outcomes| == |segment.intents| - 1
    ensures var settled := segment.intents[..|segment.intents| - 1];
            && (forall k | 0 <= k < |settled| :: settled[k].intentId in book.settlements)
            && segment.usage == SumUsage(SettledUsages(book, settled)) && Within(segment.usage, ADD_USAGE_LIMITS)
  {
    var settled := segment.intents[..|segment.intents| - 1];
    assert Usages(segment.outcomes) == SettledUsages(book, settled);
    AccumulateExact(Usages(segment.outcomes));
  }

  lemma LastCallSum(key: OperationKey, op: Operation, attempts: seq<Intent>, book: Book)
    requires OperationOk(key, op, attempts, book)
    requires var last := op.segments[|op.segments| - 1]; |last.outcomes| == |last.intents| - 1
    ensures var call, last := LastLogicalCall(attempts), op.segments[|op.segments| - 1];
            && call != [] && Within(last.usage, ADD_USAGE_LIMITS)
            && (forall k | 0 <= k < |call| - 1 :: call[k].intentId in book.settlements)
            && last.usage == SumUsage(SettledUsages(book, call[..|call| - 1]))
  {
    LastSegmentUsage(key, op, attempts, book);
    var last := op.segments[|op.segments| - 1];
    assert SegmentOk(key, last, book);
    SegmentSum(key, last, book);
  }

  lemma OpenSegmentRead(es: seq<Event>, book: Book, id: IntentId)
    requires Answered(es, book) && id in book.intents && id in book.attemptRecords && id !in book.settlements
    requires AttemptOk(book, id) && book.intents[id].intentId == id && Booked(es, book, book.attemptRecords[id].operation)
    ensures OpenCall(es, book, id)
  {
    var a := book.attemptRecords[id];
    var op, attempts := book.operations[a.operation], Of(Intents(es), a.operation);
    OpenSegmentIsLast(a.operation, op, attempts, book, a.segment, id);
    LastCallSum(a.operation, op, attempts, book);
    var call := LastLogicalCall(attempts);
    UsagesRead(es, book, call[..|call| - 1]);
  }

  /** What the fold knows of the attempt that a settlement answers. */
  ghost predicate AttemptKnown(es: seq<Event>, s: FoldState, id: IntentId) {
    && (id in s.book.settlements <==> id in SettledIds(es))
    && (id in s.book.intents <==> exists j :: OperationIntended(j) in es && j.intentId == id)
    && (forall j :: OperationIntended(j) in es && j.intentId == id ==> id in s.book.intents && s.book.intents[id] == j)
    && (id in s.book.intents && id !in s.book.settlements ==>
          OpenCall(es, s.book, id) && s.totals.tokensReserved >= s.book.intents[id].identity.reservation.tokens)
    && s.totals.tokensUsed == UsedIn(es)
  }

  lemma AttemptRead(m: Manifest, es: seq<Event>, s: FoldState, id: IntentId)
    requires OperationOrder.JournalOk(es, s) && TotalsTold(es, s)
    ensures AttemptKnown(es, s, id)
  {
    IntentIdRead(es, s, id);
    SettlementRead(es, s, id);
    if id in s.book.intents && id !in s.book.settlements {
      AnsweredRead(es, s);
      assert AttemptOk(s.book, id);
      BookedRead(es, s, s.book.attemptRecords[id].operation);
      OpenSegmentRead(es, s.book, id);
      ReservedCovers(Intents(es), s.book.settlements.Keys, s.book.intents[id]);
    }
  }

  lemma SettlementCases(m: Manifest, es: seq<Event>, s: FoldState, e: Settlement)
    requires AttemptKnown(es, s, e.intentId)
    ensures StepSettled(m, s, e).Ok? <==> SettlementAdmitted(m, es, e)
  {
    if e.intentId in s.book.intents && e.intentId !in s.book.settlements {
      AddUsageExact(SegmentFor(s.book, e.intentId).usage, e.usage, ADD_USAGE_LIMITS);
      var i := s.book.intents[e.intentId];
      assert OperationIntended(i) in es && i.intentId == e.intentId;
    }
  }

  lemma SettlementVerdict(m: Manifest, es: seq<Event>, s: FoldState, e: Settlement)
    requires Told(m, es, s)
    ensures StepSettled(m, s, e).Ok? <==> SettlementAdmitted(m, es, e)
  {
    AttemptRead(m, es, s, e.intentId);
    SettlementCases(m, es, s, e);
  }

  // ----- Calls.

  lemma BackedCases(m: Manifest, es: seq<Event>, s: FoldState, c: Call)
    requires var key := OpKey(c.frameId, CallOperation(c.callId)); OperationKnown(es, s, key) && LastCallKnown(es, s, key)
    requires AuthorizedCallId(m, s, c.kind, c.key) == Some(c.callId) <==> CallAuthorizedIn(m, es, c.kind, c.key, c.callId)
    requires Answered(es, s.book)
    ensures BackedByOperation(m, s, c) <==> BackedIn(m, es, c)
  {
  }

  lemma BoundRead(m: Manifest, es: seq<Event>, s: FoldState, id: RegistryId)
    requires KeysTold(m.runId, es, s.registry.keys)
    ensures id in s.registry.keys <==> exists b :: BoundIn(m.runId, es, id, b)
  {
    KeyRead(m, es, s, id);
  }

  lemma CallCases(m: Manifest, es: seq<Event>, s: FoldState, c: Call)
    requires Executions(es, c.callId) == CallsAt(s.calls, c.callId)
    requires BackedByOperation(m, s, c) <==> BackedIn(m, es, c)
    requires var id := RegistryIdOf(m.runId, c.kind, c.key, c.frameId);
             id.Some? ==> (id.value in s.registry.keys <==> exists b :: BoundIn(m.runId, es, id.value, b))
    ensures StepCall(m, s, c).Ok? <==> CallAdmitted(m, es, c)
  {
  }

  lemma CallVerdict(m: Manifest, es: seq<Event>, s: FoldState, c: Call)
    requires Told(m, es, s)
    ensures StepCall(m, s, c).Ok? <==> CallAdmitted(m, es, c)
  {
    OperationKeyRead(es, s, OpKey(c.frameId, CallOperation(c.callId)));
    AnsweredRead(es, s);
    AuthorizedCallRead(m, es, s, c.kind, c.key, c.callId);
    BackedCases(m, es, s, c);
    var id := RegistryIdOf(m.runId, c.kind, c.key, c.frameId);
    if id.Some? { BoundRead(m, es, s, id.value); }
    CallCases(m, es, s, c);
  }

  // ----- Checkpoints.

  lemma ChildRead(es: seq<Event>, frames: Frames)
    requires OpeningsTold(es, frames) && ClosingsTold(es, frames)
    ensures forall o :: FrameOpened(o) in es <==> o.frameId in frames && frames[o.frameId].opening == o
    ensures forall f <- frames :: frames[f].opening.frameId == f
    ensures forall f :: ClosedIn(es, f) <==> f in frames && frames[f].closed.Some?
    ensures forall f, state :: FrameClosed(f, state) in es <==> f in frames && frames[f].closed == Some(state)
  {
    forall o ensures FrameOpened(o) in es <==> o.frameId in frames && frames[o.frameId].opening == o {
      assert FrameOpened(o) in es <==> OpeningAt(frames, o.frameId) == Some(o);
    }
    forall f | f in frames ensures frames[f].opening.frameId == f { assert OpeningAt(frames, f).Some?; }
    forall f, state ensures FrameClosed(f, state) in es <==> f in frames && frames[f].closed == Some(state) {
      assert FrameClosed(f, state) in es <==> ClosedAt(frames, f) == Some(state);
    }
    forall f ensures ClosedIn(es, f) <==> f in frames && frames[f].closed.Some? {
      if f in frames && frames[f].closed.Some? { assert FrameClosed(f, frames[f].closed.value) in es; }
    }
  }

  lemma RecurseRead(es: seq<Event>, s: FoldState, c: CallId)
    requires CallsTold(es, s.calls)
    ensures RecursesIn(es, c) <==> c in s.calls && IsRecurse(s, c)
    ensures c in s.calls ==> s.calls[c] == Executions(es, c)
    ensures RecursesIn(es, c) ==> c in s.calls
  {
    assert Executions(es, c) == CallsAt(s.calls, c);
  }

  lemma ExecutionRead(m: Manifest, es: seq<Event>, s: FoldState, f: FrameId, call: Call)
    requires OpeningsTold(es, s.frames) && ClosingsTold(es, s.frames)
    ensures ExecutionMatches(s, f, call) <==> ExecutionIn(es, f, call)
  {
    ChildRead(es, s.frames);
    if f in s.frames { assert FrameOpened(s.frames[f].opening) in es; }
  }

  lemma ChildMatchRead(m: Manifest, es: seq<Event>, s: FoldState, o: Opened)
    requires FrameOpened(o) in es && o.parent.Some? && CallsTold(es, s.calls)
    requires o.frameId in s.frames && s.frames[o.frameId].opening == o
    requires ClosedIn(es, o.frameId) <==> s.frames[o.frameId].closed.Some?
    ensures (&& FrameLineage(m.runId, o.frameId).Some? && o.frameId.tail.ExecutionTail? && s.frames[o.frameId].closed.Some?
             && CallId(RecurseCall, o.frameId.tail.digest) in s.calls
             && IsRecurse(s, CallId(RecurseCall, o.frameId.tail.digest))
             && o.frameId.tail.ordinal <= |s.calls[CallId(RecurseCall, o.frameId.tail.digest)]|)
            <==>
            (&& o.frameId.runId == m.runId && o.frameId.tail.ExecutionTail? && ClosedIn(es, o.frameId)
             && RecursesIn(es, CallId(RecurseCall, o.frameId.tail.digest))
             && 1 <= o.frameId.tail.ordinal <= |Executions(es, CallId(RecurseCall, o.frameId.tail.digest))|)
  {
    if o.frameId.tail.ExecutionTail? { RecurseRead(es, s, CallId(RecurseCall, o.frameId.tail.digest)); }
  }

  ghost predicate ChildrenMatch(m: Manifest, s: FoldState) {
    forall f <- s.frames | s.frames[f].opening.parent.Some? ::
      && FrameLineage(m.runId, f).Some? && f.tail.ExecutionTail? && s.frames[f].closed.Some?
      && CallId(RecurseCall, f.tail.digest) in s.calls && IsRecurse(s, CallId(RecurseCall, f.tail.digest))
      && f.tail.ordinal <= |s.calls[CallId(RecurseCall, f.tail.digest)]|
  }

  ghost predicate ChildrenMatchIn(m: Manifest, es: seq<Event>) {
    forall o :: FrameOpened(o) in es && o.parent.Some? ==>
      && o.frameId.runId == m.runId && o.frameId.tail.ExecutionTail? && ClosedIn(es, o.frameId)
      && RecursesIn(es, CallId(RecurseCall, o.frameId.tail.digest))
      && 1 <= o.frameId.tail.ordinal <= |Executions(es, CallId(RecurseCall, o.frameId.tail.digest))|
  }

  lemma ChildrenMatchRead(m: Manifest, es: seq<Event>, s: FoldState)
    requires FramesTold(es, s.frames) && CallsTold(es, s.calls)
    ensures ChildrenMatch(m, s) <==> ChildrenMatchIn(m, es)
  {
    ChildRead(es, s.frames);
    if ChildrenMatch(m, s) {
      forall o | FrameOpened(o) in es && o.parent.Some?
        ensures && o.frameId.runId == m.runId && o.frameId.tail.ExecutionTail? && ClosedIn(es, o.frameId)
                && RecursesIn(es, CallId(RecurseCall, o.frameId.tail.digest))
                && 1 <= o.frameId.tail.ordinal <= |Executions(es, CallId(RecurseCall, o.frameId.tail.digest))|
      {
        ChildMatchRead(m, es, s, o);
      }
    }
    if ChildrenMatchIn(m, es) {
      forall f | f in s.frames && s.frames[f].opening.parent.Some?
        ensures && FrameLineage(m.runId, f).Some? && f.tail.ExecutionTail? && s.frames[f].closed.Some?
                && CallId(RecurseCall, f.tail.digest) in s.calls && IsRecurse(s, CallId(RecurseCall, f.tail.digest))
                && f.tail.ordinal <= |s.calls[CallId(RecurseCall, f.tail.digest)]|
      {
        ChildMatchRead(m, es, s, s.frames[f].opening);
      }
    }
  }

  ghost predicate CallsMatch(m: Manifest, s: FoldState) {
    forall c <- s.calls | IsRecurse(s, c) :: c.CallId? && c.kind == RecurseCall && EachExecution(m, s, c)
  }

  ghost predicate EachExecution(m: Manifest, s: FoldState, c: CallId)
    requires c in s.calls && c.CallId?
  {
    forall n {:trigger Execution(m, c.digest, n)} :: 1 <= n <= |s.calls[c]| ==>
      ExecutionMatches(s, Execution(m, c.digest, n), s.calls[c][n - 1])
  }

  ghost predicate CallsMatchIn(m: Manifest, es: seq<Event>) {
    forall c {:trigger RecursesIn(es, c)} | RecursesIn(es, c) :: c.CallId? && c.kind == RecurseCall && EachExecutionIn(m, es, c)
  }

  lemma EachExecutionRead(m: Manifest, es: seq<Event>, s: FoldState, c: CallId)
    requires OpeningsTold(es, s.frames) && ClosingsTold(es, s.frames) && c in s.calls && c.CallId?
    requires s.calls[c] == Executions(es, c)
    ensures EachExecution(m, s, c) <==> EachExecutionIn(m, es, c)
  {
    forall n | 1 <= n <= |s.calls[c]|
      ensures ExecutionMatches(s, Execution(m, c.digest, n), s.calls[c][n - 1]) <==>
              ExecutionIn(es, Execution(m, c.digest, n), Executions(es, c)[n - 1])
    {
      ExecutionRead(m, es, s, Execution(m, c.digest, n), s.calls[c][n - 1]);
    }
  }

  lemma CallsMatchRead(m: Manifest, es: seq<Event>, s: FoldState)
    requires FramesTold(es, s.frames) && CallsTold(es, s.calls)
    ensures CallsMatch(m, s) <==> CallsMatchIn(m, es)
  {
    forall c
      ensures RecursesIn(es, c) <==> c in s.calls && IsRecurse(s, c)
      ensures c in s.calls && c.CallId? ==> (EachExecution(m, s, c) <==> EachExecutionIn(m, es, c))
    {
      RecurseRead(es, s, c);
      if c in s.calls && c.CallId? { EachExecutionRead(m, es, s, c); }
    }
  }

  lemma MatchSplits(m: Manifest, es: seq<Event>, s: FoldState)
    ensures ExecutionsMatch(m, s) <==> ChildrenMatch(m, s) && CallsMatch(m, s)
    ensures ExecutionsMatchIn(m, es) <==> ChildrenMatchIn(m, es) && CallsMatchIn(m, es)
  {
  }

  lemma ExecutionsMatchRead(m: Manifest, es: seq<Event>, s: FoldState)
    requires FramesTold(es, s.frames) && CallsTold(es, s.calls)
    ensures ExecutionsMatch(m, s) <==> ExecutionsMatchIn(m, es)
  {
    ChildrenMatchRead(m, es, s);
    CallsMatchRead(m, es, s);
    MatchSplits(m, es, s);
  }

  lemma UnresolvedRead(es: seq<Event>, s: FoldState)
    requires OperationOrder.JournalOk(es, s)
    ensures AllSettledIn(es) <==> !Unresolved(s)
    ensures AllSettledIn(es) ==> s.totals.tokensReserved == 0
  {
    forall i | OperationIntended(i) in es
      ensures i.intentId in s.book.intents && (i.intentId in SettledIds(es) <==> i.intentId in s.book.settlements)
    {
      IntentIdRead(es, s, i.intentId);
      SettlementRead(es, s, i.intentId);
    }
    forall id | id in s.book.intents
      ensures OperationIntended(s.book.intents[id]) in es && s.book.intents[id].intentId == id
    {
      FindIntent(es, s, id);
    }
    if !Unresolved(s) { AllSettled(Intents(es), s.book.settlements.Keys); }
  }

  lemma OpenFramesRead(es: seq<Event>, s: FoldState, f: FrameId)
    requires FramesTold(es, s.frames)
    ensures OpenIn(es, f) <==> f in OpenFrames(s)
  {
    FramesRead(es, s.frames, f);
  }

  lemma OnlyOpen(es: seq<Event>, s: FoldState, root: FrameId)
    requires FramesTold(es, s.frames)
    ensures OpenFrames(s) == {root} <==> forall f :: OpenIn(es, f) <==> f == root
  {
    forall f ensures OpenIn(es, f) <==> f in OpenFrames(s) { OpenFramesRead(es, s, f); }
    if forall f :: OpenIn(es, f) <==> f == root {
      forall f ensures f in OpenFrames(s) <==> f == root { assert OpenIn(es, f) <==> f == root; }
    }
  }

  ghost predicate BoundaryKnown(m: Manifest, es: seq<Event>, s: FoldState) {
    && s.totals.checkpointSequence == Checkpoints(es) && CellCount(s, m.Root()) == |CellsIn(es, m.Root())|
    && s.totals.committedControllerTurns == |TurnsIn(es)|
    && (AllSettledIn(es) <==> !Unresolved(s)) && (AllSettledIn(es) ==> s.totals.tokensReserved == 0)
    && (OpenFrames(s) == {m.Root()} <==> forall f :: OpenIn(es, f) <==> f == m.Root())
    && (ExecutionsMatch(m, s) <==> ExecutionsMatchIn(m, es))
  }

  lemma BoundaryRead(m: Manifest, es: seq<Event>, s: FoldState)
    requires Told(m, es, s)
    ensures BoundaryKnown(m, es, s)
  {
    CellsRead(es, s.frames, m.Root());
    TurnsRead(es, s);
    UnresolvedRead(es, s);
    OnlyOpen(es, s, m.Root());
    ExecutionsMatchRead(m, es, s);
  }

  lemma CheckpointVerdict(m: Manifest, es: seq<Event>, s: FoldState, c: Checkpoint)
    requires BoundaryKnown(m, es, s)
    ensures StepCheckpoint(m, s, c).Ok? <==> CheckpointAdmitted(m, es, c)
  {
  }
}
