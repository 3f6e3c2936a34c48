/** The strict fold's counters are what they claim to count, and never pass the manifest's limits. */
module JournalLimits {
  import opened Wrappers
  import opened Journal
  import opened RecoveryJournal
  import opened CheckpointRecovery
  import opened FoldAgreement
  import OperationDiscipline
  import OperationOrder

  /** Logical calls that a sequence of intents reserves. */
  function LogicalCalls(intents: seq<Intent>): nat {
    if intents == [] then 0
    else LogicalCalls(intents[..|intents| - 1]) + intents[|intents| - 1].identity.reservation.logicalCalls
  }

  ghost predicate CountersOk(m: Manifest, intents: seq<Intent>, s: FoldState) {
    var t := s.totals;
    && t.committedControllerTurns == |s.cells| <= m.limits.maxControllerTurns
    && t.attempts == |intents| <= m.limits.maxAttempts
    && t.childFrames == |Children(s.frames)| <= m.limits.maxFrames
    && t.logicalCalls == t.childFrames + LogicalCalls(intents) <= m.limits.maxLogicalCalls
  }

  lemma OpenedCounters(m: Manifest, intents: seq<Intent>, s: FoldState, o: Opened)
    requires m.objective.Some? && CountersOk(m, intents, s) && StepFrameOpened(m, s, o).Ok?
    ensures CountersOk(m, intents, StepFrameOpened(m, s, o).value)
  {
    if o.frameId in s.frames {
      RepeatedOpeningKeeps(m, s, o);
    } else {
      NewFrameStep(m, s, o);
      if o.parent.Some? { OpenedWithinLimits(m, s, o); }
      NewFrameCounters(m, intents, s, StepFrameOpened(m, s, o).value, o);
    }
  }

  lemma RepeatedOpeningKeeps(m: Manifest, s: FoldState, o: Opened)
    requires m.objective.Some? && StepFrameOpened(m, s, o).Ok? && o.frameId in s.frames
    ensures StepFrameOpened(m, s, o).value == s
  {
  }

  lemma NewFrameCounters(m: Manifest, intents: seq<Intent>, s: FoldState, s': FoldState, o: Opened)
    requires CountersOk(m, intents, s) && o.frameId !in s.frames && s'.cells == s.cells
    requires s'.frames == s.frames[o.frameId := FrameRecord(o, map[], map[], map[], None, None, None, None)]
    requires s'.totals == if o.parent.None? then s.totals
                          else s.totals.(childFrames := s.totals.childFrames + 1,
                                         logicalCalls := s.totals.logicalCalls + 1)
    requires o.parent.Some? ==> s.totals.childFrames + 1 <= m.limits.maxFrames
    requires o.parent.Some? ==> s.totals.logicalCalls + 1 <= m.limits.maxLogicalCalls
    ensures CountersOk(m, intents, s')
  {
    ChildrenWith(s.frames, FrameRecord(o, map[], map[], map[], None, None, None, None), o.frameId);
  }

  lemma ChildrenWith(frames: map<FrameId, FrameRecord>, record: FrameRecord, f: FrameId)
    requires f !in frames
    ensures Children(frames[f := record]) == Children(frames) + (if record.opening.parent.Some? then {f} else {})
    ensures f !in Children(frames)
  {
  }

  lemma OpenedWithinLimits(m: Manifest, s: FoldState, o: Opened)
    requires m.objective.Some? && StepFrameOpened(m, s, o).Ok? && o.frameId !in s.frames && o.parent.Some?
    ensures s.totals.childFrames + 1 <= m.limits.maxFrames
    ensures s.totals.logicalCalls + 1 <= m.limits.maxLogicalCalls
  {
  }

  lemma CellCounters(m: Manifest, intents: seq<Intent>, s: FoldState, frame: FrameRecord, c: Cell)
    requires CountersOk(m, intents, s) && c.frameId in s.frames && frame == s.frames[c.frameId]
    requires StepCell(m, s, frame, c).Ok?
    ensures CountersOk(m, intents, StepCell(m, s, frame, c).value)
  {
    CellStep(m, s, frame, c);
    if (c.frameId, c.iteration) !in s.cells {
      CellWithinLimits(m, s, frame, c);
      assert Children(StepCell(m, s, frame, c).value.frames) == Children(s.frames);
    }
  }

  lemma CellWithinLimits(m: Manifest, s: FoldState, frame: FrameRecord, c: Cell)
    requires c.frameId in s.frames && frame == s.frames[c.frameId] && StepCell(m, s, frame, c).Ok?
    requires (c.frameId, c.iteration) !in s.cells
    ensures s.totals.committedControllerTurns + 1 <= m.limits.maxControllerTurns
  {
  }

  lemma IntendedCounters(m: Manifest, intents: seq<Intent>, s: FoldState, frame: FrameRecord, intent: Intent)
    requires CountersOk(m, intents, s) && StepIntended(m, s, frame, intent).Ok?
    ensures CountersOk(m, intents + [intent], StepIntended(m, s, frame, intent).value)
  {
    IntendedBooks(m, s, frame, intent);
    assert (intents + [intent])[..|intents|] == intents;
    IntendedWithinLimits(m, s, frame, intent);
  }

  lemma IntendedWithinLimits(m: Manifest, s: FoldState, frame: FrameRecord, intent: Intent)
    requires StepIntended(m, s, frame, intent).Ok?
    ensures s.totals.attempts + 1 <= m.limits.maxAttempts
    ensures s.totals.logicalCalls + intent.identity.reservation.logicalCalls <= m.limits.maxLogicalCalls
  {
  }

  lemma StepKeepsCounters(m: Manifest, es: seq<Event>, s: FoldState, e: Event)
    requires m.objective.Some? && CountersOk(m, Intents(es), s) && StepEvent(m, s, e).Ok?
    ensures CountersOk(m, Intents(es + [e]), StepEvent(m, s, e).value)
  {
    OperationOrder.ViewsAppend(es, e);
    assert !e.OperationIntended? ==> Intents(es + [e]) == Intents(es);
    if e.FrameOpened? { OpenedCounters(m, Intents(es), s, e.opening); }
    else if e.CellCommitted? { CellCounters(m, Intents(es), s, s.frames[e.cell.frameId], e.cell); }
    else if e.OperationIntended? {
      IntendedCounters(m, Intents(es), s, s.frames[e.intent.identity.frameId], e.intent);
    } else {
      OtherStepChildren(m, s, e);
      OtherStepCounters(m, s, e);
    }
  }

  lemma OtherStepCounters(m: Manifest, s: FoldState, e: Event)
    requires m.objective.Some? && StepEvent(m, s, e).Ok?
    requires !e.FrameOpened? && !e.CellCommitted? && !e.OperationIntended?
    ensures var s' := StepEvent(m, s, e).value;
            && s'.cells == s.cells
            && s'.totals.committedControllerTurns == s.totals.committedControllerTurns
            && s'.totals.attempts == s.totals.attempts
            && s'.totals.childFrames == s.totals.childFrames
            && s'.totals.logicalCalls == s.totals.logicalCalls
  {
  }

  lemma {:induction false} FoldKeepsCounters(m: Manifest, es: seq<Event>)
    requires m.objective.Some? && Fold(m, es).Ok?
    ensures CountersOk(m, Intents(es), Fold(m, es).value)
  {
    if es != [] {
      var front, last := es[..|es| - 1], es[|es| - 1];
      assert es == front + [last];
      FoldKeepsCounters(m, front);
      StepKeepsCounters(m, front, Fold(m, front).value, last);
    } else {
      NothingCounted(m);
    }
  }

  lemma NothingCounted(m: Manifest)
    ensures CountersOk(m, [], EMPTY_FOLD)
  {
    assert Children(EMPTY_FOLD.frames) == {};
  }

  /** At every prefix, whatever the second fold derives obeys the manifest and counts what the journal contains. */
  lemma DerivedStateWithinManifest(m: Manifest, es: seq<Event>, storedBytes: int)
    requires m.objective.Some? && Fold(m, es).Ok? && Derive(m.runId, es, storedBytes).Some?
    ensures var u := Derive(m.runId, es, storedBytes).value.usage;
            && u.controllerTurns == |Fold(m, es).value.cells| <= m.limits.maxControllerTurns
            && u.attempts == |Intents(es)| <= m.limits.maxAttempts
            && u.framesOpened == |Children(Fold(m, es).value.frames)| <= m.limits.maxFrames
            && u.logicalCalls == u.framesOpened + LogicalCalls(Intents(es)) <= m.limits.maxLogicalCalls
  {
    DerivedStateAgrees(m, es, storedBytes);
    FoldKeepsCounters(m, es);
  }

  /** The rebuilt attempt ordinal of an operation is the number of its intents. */
  lemma DerivedAttemptsCountIntents(m: Manifest, es: seq<Event>, storedBytes: int, key: OperationKey)
    requires m.objective.Some? && Fold(m, es).Ok? && Derive(m.runId, es, storedBytes).Some?
    ensures GetOr(Derive(m.runId, es, storedBytes).value.ordinals.operationAttempts, key, 0)
            == |OperationDiscipline.Of(Intents(es), key)|
  {
    DerivedStateAgrees(m, es, storedBytes);
    OperationOrder.FoldKeepsJournal(m, es);
    AttemptsCountIntents(Intents(es), Fold(m, es).value,
                         Derive(m.runId, es, storedBytes).value.ordinals.operationAttempts, key);
  }

  lemma AttemptsCountIntents(intents: seq<Intent>, s: FoldState, attempts: map<OperationKey, nat>, key: OperationKey)
    requires OperationDiscipline.IndexOk(intents, s.book) && OperationDiscipline.OperationsOk(intents, s.book)
    requires AttemptsAgree(s.book.operations, attempts)
    ensures GetOr(attempts, key, 0) == |OperationDiscipline.Of(intents, key)|
  {
    assert OperationDiscipline.KeyOk(intents, s.book, key);
  }
}
