/** The independently written folds agree on every journal that the strict fold accepts so far. */
module FoldAgreement {
  import opened Wrappers
  import opened Budget
  import opened Journal
  import opened RecoveryJournal
  import opened CheckpointRecovery
  import opened FrameTree

  function Children(frames: map<FrameId, FrameRecord>): set<FrameId> {
    set f <- frames | frames[f].opening.parent.Some?
  }

  ghost predicate LedgerAgrees(t: Totals, u: BudgetUsage) {
    && u.framesOpened == t.childFrames
    && u.logicalCalls == t.logicalCalls
    && u.attempts == t.attempts
    && u.controllerTurns == t.committedControllerTurns
    && u.tokensReserved == t.tokensReserved
    && u.tokensUsed == t.tokensUsed
    && u.activeLeafCalls == 0
  }

  ghost predicate OrdinalReached(executions: map<Digest, nat>, f: FrameId) {
    f.tail.ExecutionTail? && f.tail.digest in executions && f.tail.ordinal <= executions[f.tail.digest]
  }

  /** The recurse ordinal of a call is the greatest ordinal among its child frames. */
  ghost predicate ExecutionsAgree(m: Manifest, children: set<FrameId>, executions: map<Digest, nat>) {
    && (forall f {:trigger OrdinalReached(executions, f)} | f in children :: OrdinalReached(executions, f))
    && (forall digest {:trigger executions[digest]} | digest in executions ::
          Execution(m, digest, executions[digest]) in children)
  }

  ghost predicate KeysAgree(bindings: map<RegistryId, KeyBinding>, keys: map<RegistryId, string>) {
    && keys.Keys == bindings.Keys
    && (forall id <- keys :: keys[id] == bindings[id].identityHash)
  }

  ghost predicate AttemptsAgree(operations: map<OperationKey, Operation>, attempts: map<OperationKey, nat>) {
    && attempts.Keys == operations.Keys
    && (forall key <- attempts :: attempts[key] == operations[key].lastAttempt)
  }

  ghost predicate CallsAgree(executions: map<CallId, seq<Call>>, calls: map<CallId, Call>) {
    && calls.Keys == executions.Keys
    && (forall c <- calls :: executions[c] != [] && calls[c] == executions[c][|executions[c]| - 1])
  }

  ghost predicate Agrees(m: Manifest, s: FoldState, d: Derived) {
    && LedgerAgrees(s.totals, d.usage)
    && d.progression.childFrames == Children(s.frames)
    && d.progression.cells == s.cells.Keys
    && ExecutionsAgree(m, Children(s.frames), d.ordinals.recurseExecutions)
    && KeysAgree(s.registry.keys, d.keys)
    && d.intents == s.book.intents
    && AttemptsAgree(s.book.operations, d.ordinals.operationAttempts)
    && CallsAgree(s.calls, d.calls)
  }

  /** Every child frame names a recurse execution. */
  ghost predicate ExecutionsNamed(m: Manifest, frames: map<FrameId, FrameRecord>) {
    forall f {:trigger ExecutionNamed(m.runId, f)} | f in Children(frames) :: ExecutionNamed(m.runId, f)
  }

  lemma OpenedAgrees(m: Manifest, s: FoldState, d: Derived, o: Opened)
    requires m.objective.Some? && FramesOk(m, s) && Agrees(m, s, d) && StepFrameOpened(m, s, o).Ok?
    ensures var s' := StepFrameOpened(m, s, o).value;
            var d' := DeriveOpened(m.runId, d, o);
            && (ExecutionsNamed(m, s'.frames) ==> d'.Some? && Agrees(m, s', d'.value))
            && (ExecutionsNamed(m, s.frames) && !ExecutionsNamed(m, s'.frames) ==> d'.None?)
  {
    if o.frameId in s.frames {
      assert FrameOk(m, s, o.frameId);
    } else {
      NewFrameStep(m, s, o);
      var s' := StepFrameOpened(m, s, o).value;
      if o.parent.None? {
        assert Children(s'.frames) == Children(s.frames);
      } else {
        assert Children(s'.frames) == Children(s.frames) + {o.frameId};
        if ExecutionNamed(m.runId, o.frameId) {
          NewExecutionAgrees(m, Children(s.frames), d.ordinals.recurseExecutions, o.frameId);
        }
      }
    }
  }

  lemma NewFrameStep(m: Manifest, s: FoldState, o: Opened)
    requires m.objective.Some? && StepFrameOpened(m, s, o).Ok? && o.frameId !in s.frames
    ensures var s' := StepFrameOpened(m, s, o).value;
            && s'.frames == s.frames[o.frameId := FrameRecord(o, map[], map[], map[], None, None, None, None)]
            && s' == s.(frames := s'.frames,
                        totals := if o.parent.None? then s.totals
                                  else s.totals.(childFrames := s.totals.childFrames + 1,
                                                 logicalCalls := s.totals.logicalCalls + 1))
  {
  }

  lemma NewExecutionAgrees(m: Manifest, children: set<FrameId>, executions: map<Digest, nat>, f: FrameId)
    requires ExecutionsAgree(m, children, executions) && ExecutionNamed(m.runId, f)
    ensures var greatest := Max(GetOr(executions, f.tail.digest, 0), f.tail.ordinal);
            ExecutionsAgree(m, children + {f}, executions[f.tail.digest := greatest])
  {
    var greatest := Max(GetOr(executions, f.tail.digest, 0), f.tail.ordinal);
    var executions' := executions[f.tail.digest := greatest];
    assert f == Execution(m, f.tail.digest, f.tail.ordinal);
    forall g | g in children + {f} ensures OrdinalReached(executions', g) {
      if g in children { assert OrdinalReached(executions, g); }
    }
    forall digest | digest in executions'
      ensures Execution(m, digest, executions'[digest]) in children + {f}
    {
      if digest in executions { assert Execution(m, digest, executions[digest]) in children; }
    }
  }

  lemma CellAgrees(m: Manifest, s: FoldState, frame: FrameRecord, d: Derived, c: Cell)
    requires Agrees(m, s, d) && c.frameId in s.frames && frame == s.frames[c.frameId]
    requires StepCell(m, s, frame, c).Ok?
    ensures Agrees(m, StepCell(m, s, frame, c).value, DeriveCell(m.runId, d, c))
  {
    CellStep(m, s, frame, c);
    if (c.frameId, c.iteration) !in s.cells {
      NewCellAgrees(m, s, StepCell(m, s, frame, c).value, frame, d, c);
    }
  }

  lemma NewCellAgrees(m: Manifest, s: FoldState, s': FoldState, frame: FrameRecord, d: Derived, c: Cell)
    requires Agrees(m, s, d) && c.frameId in s.frames && frame == s.frames[c.frameId]
    requires (c.frameId, c.iteration) !in s.cells
    requires s' == s.(
               frames := s.frames[c.frameId := frame.(cells := frame.cells[c.iteration := c])],
               cells := s.cells[(c.frameId, c.iteration) := c],
               totals := s.totals.(committedControllerTurns := s.totals.committedControllerTurns + 1))
    ensures Agrees(m, s', DeriveCell(m.runId, d, c))
  {
    assert Children(s'.frames) == Children(s.frames);
    assert s'.cells.Keys == s.cells.Keys + {(c.frameId, c.iteration)};
  }

  lemma CellStep(m: Manifest, s: FoldState, frame: FrameRecord, c: Cell)
    requires c.frameId in s.frames && frame == s.frames[c.frameId] && StepCell(m, s, frame, c).Ok?
    ensures var s' := StepCell(m, s, frame, c).value;
            if (c.frameId, c.iteration) in s.cells then s' == s
            else s' == s.(
              frames := s.frames[c.frameId := frame.(cells := frame.cells[c.iteration := c])],
              cells := s.cells[(c.frameId, c.iteration) := c],
              totals := s.totals.(committedControllerTurns := s.totals.committedControllerTurns + 1))
  {
  }

  lemma KeyAgrees(m: Manifest, s: FoldState, d: Derived, b: KeyBinding)
    requires Agrees(m, s, d) && StepKeyBound(m, s, b).Ok? && FrameLineage(m.runId, b.frameId).Some?
    ensures DeriveKey(m.runId, d, b).Some?
    ensures Agrees(m, StepKeyBound(m, s, b).value, DeriveKey(m.runId, d, b).value)
  {
    KeyStep(m, s, b);
    var id := RegistryIdOf(m.runId, b.kind, b.key, b.frameId).value;
    assert KeysAgree(s.registry.keys[id := b], d.keys[id := b.identityHash]);
  }

  lemma KeyStep(m: Manifest, s: FoldState, b: KeyBinding)
    requires StepKeyBound(m, s, b).Ok?
    ensures RegistryIdOf(m.runId, b.kind, b.key, b.frameId).Some?
    ensures var id := RegistryIdOf(m.runId, b.kind, b.key, b.frameId).value;
            && (id in s.registry.keys ==> s.registry.keys[id] == b)
            && StepKeyBound(m, s, b).value == s.(registry := s.registry.(keys := s.registry.keys[id := b]))
  {
    var id := RegistryIdOf(m.runId, b.kind, b.key, b.frameId).value;
    assert id in s.registry.keys ==> s.registry.keys[id := b] == s.registry.keys;
  }

  lemma IntendedAgrees(m: Manifest, s: FoldState, frame: FrameRecord, d: Derived, intent: Intent)
    requires Agrees(m, s, d) && StepIntended(m, s, frame, intent).Ok?
    ensures Agrees(m, StepIntended(m, s, frame, intent).value, DeriveIntended(d, intent))
  {
    var s' := StepIntended(m, s, frame, intent).value;
    IntendedBooks(m, s, frame, intent);
    assert AttemptsAgree(s'.book.operations, DeriveIntended(d, intent).ordinals.operationAttempts);
  }

  lemma IntendedBooks(m: Manifest, s: FoldState, frame: FrameRecord, intent: Intent)
    requires StepIntended(m, s, frame, intent).Ok?
    ensures var s' := StepIntended(m, s, frame, intent).value;
            var i := intent.identity;
            && s' == s.(book := s'.book, totals := s'.totals)
            && s'.totals == s.totals.(
                 attempts := s.totals.attempts + i.reservation.attempts,
                 logicalCalls := s.totals.logicalCalls + i.reservation.logicalCalls,
                 tokensReserved := s.totals.tokensReserved + i.reservation.tokens)
            && s'.book.intents == s.book.intents[intent.intentId := intent]
            && intent.OperationKey() in s'.book.operations
            && s'.book.operations[intent.OperationKey()].lastAttempt == i.attempt
            && s'.book.operations ==
               s.book.operations[intent.OperationKey() := s'.book.operations[intent.OperationKey()]]
  {
  }

  lemma SettledAgrees(m: Manifest, s: FoldState, d: Derived, e: Settlement)
    requires Agrees(m, s, d) && StepSettled(m, s, e).Ok?
    ensures DeriveSettled(d, e).Some?
    ensures Agrees(m, StepSettled(m, s, e).value, DeriveSettled(d, e).value)
  {
    var s' := StepSettled(m, s, e).value;
    SettledBooks(m, s, e);
    assert AttemptsAgree(s'.book.operations, d.ordinals.operationAttempts);
  }

  lemma SettledBooks(m: Manifest, s: FoldState, e: Settlement)
    requires StepSettled(m, s, e).Ok?
    ensures e.intentId in s.book.intents
    ensures var s' := StepSettled(m, s, e).value;
            && s' == s.(book := s'.book, totals := s'.totals)
            && s'.totals == s.totals.(
                 tokensReserved := s.totals.tokensReserved - s.book.intents[e.intentId].identity.reservation.tokens,
                 tokensUsed := s.totals.tokensUsed + e.usage.Tokens())
            && s'.book.intents == s.book.intents
            && s'.book.operations.Keys == s.book.operations.Keys
            && (forall key <- s.book.operations ::
                  s'.book.operations[key].lastAttempt == s.book.operations[key].lastAttempt)
  {
  }

  lemma CallAgrees(m: Manifest, s: FoldState, d: Derived, c: Call)
    requires Agrees(m, s, d) && StepCall(m, s, c).Ok?
    ensures Agrees(m, StepCall(m, s, c).value, d.(calls := d.calls[c.callId := c]))
  {
    var s' := StepCall(m, s, c).value;
    CallStep(m, s, c);
    assert CallsAgree(s'.calls, d.calls[c.callId := c]);
  }

  lemma CallStep(m: Manifest, s: FoldState, c: Call)
    requires StepCall(m, s, c).Ok?
    ensures var s' := StepCall(m, s, c).value;
            var executions := if c.callId in s.calls then s.calls[c.callId] else [];
            || (s' == s && executions != [] && executions[|executions| - 1] == c)
            || s' == s.(calls := s.calls[c.callId := executions + [c]])
  {
  }

  /** The remaining events change nothing that the second fold rebuilds. */
  lemma OtherAgrees(m: Manifest, s: FoldState, s': FoldState, d: Derived, d': Derived)
    requires Agrees(m, s, d) && Children(s'.frames) == Children(s.frames)
    requires s'.cells == s.cells && s'.calls == s.calls && s'.registry.keys == s.registry.keys
    requires s'.book == s.book
    requires s'.totals == s.totals.(checkpointSequence := s'.totals.checkpointSequence)
    requires d' == d.(progression := d'.progression)
    requires d'.progression.childFrames == d.progression.childFrames && d'.progression.cells == d.progression.cells
    ensures Agrees(m, s', d')
  {
  }

  lemma OtherStep(m: Manifest, s: FoldState, e: Event)
    requires m.objective.Some? && StepEvent(m, s, e).Ok?
    requires !e.FrameOpened? && !e.CellCommitted? && !e.KeyBound? && !e.OperationIntended?
    requires !e.OperationSettled? && !e.CallCommitted?
    ensures var s' := StepEvent(m, s, e).value;
            && s'.cells == s.cells && s'.calls == s.calls && s'.registry.keys == s.registry.keys
            && s'.book == s.book
            && s'.totals == s.totals.(checkpointSequence := s'.totals.checkpointSequence)
  {
  }

  lemma OtherCallsKept(m: Manifest, s: FoldState, e: Event)
    requires m.objective.Some? && StepEvent(m, s, e).Ok? && !e.CallCommitted?
    ensures StepEvent(m, s, e).value.calls == s.calls
  {
  }

  lemma OtherStepChildren(m: Manifest, s: FoldState, e: Event)
    requires m.objective.Some? && StepEvent(m, s, e).Ok? && !e.FrameOpened?
    ensures Children(StepEvent(m, s, e).value.frames) == Children(s.frames)
  {
    if e.FrameClosed? {
      ClosedChildren(s, s.frames[e.closedFrame], e.closedFrame, e.state);
    } else {
      StepSkeleton(m, s, e);
      SkeletonChildren(s, StepEvent(m, s, e).value);
    }
  }

  lemma SkeletonChildren(s: FoldState, s': FoldState)
    requires SameSkeleton(s, s')
    ensures Children(s'.frames) == Children(s.frames)
  {
  }

  lemma ClosedChildren(s: FoldState, frame: FrameRecord, f: FrameId, state: FrameState)
    requires f in s.frames && frame == s.frames[f] && StepClosed(s, frame, f, state).Ok?
    ensures Children(StepClosed(s, frame, f, state).value.frames) == Children(s.frames)
  {
  }

  lemma StepAgrees(m: Manifest, s: FoldState, d: Derived, e: Event)
    requires m.objective.Some? && FramesOk(m, s) && Agrees(m, s, d) && ExecutionsNamed(m, s.frames)
    requires StepEvent(m, s, e).Ok?
    ensures var s' := StepEvent(m, s, e).value;
            var d' := DeriveEvent(m.runId, d, e);
            && (d'.Some? <==> ExecutionsNamed(m, s'.frames))
            && (d'.Some? ==> Agrees(m, s', d'.value))
  {
    if e.FrameOpened? {
      OpenedAgrees(m, s, d, e.opening);
    } else {
      OtherStepChildren(m, s, e);
      if e.CellCommitted? { CellAgrees(m, s, s.frames[e.cell.frameId], d, e.cell); }
      else if e.KeyBound? {
        LineageKnown(m, s, e.binding.frameId);
        KeyAgrees(m, s, d, e.binding);
      }
      else if e.OperationIntended? { IntendedAgrees(m, s, s.frames[e.intent.identity.frameId], d, e.intent); }
      else if e.OperationSettled? { SettledAgrees(m, s, d, e.settlement); }
      else if e.CallCommitted? { CallAgrees(m, s, d, e.call); }
      else {
        OtherStep(m, s, e);
        OtherAgrees(m, s, StepEvent(m, s, e).value, d, DeriveEvent(m.runId, d, e).value);
      }
    }
  }

  lemma LineageKnown(m: Manifest, s: FoldState, f: FrameId)
    requires FramesOk(m, s) && ExecutionsNamed(m, s.frames) && f in s.frames
    ensures FrameLineage(m.runId, f).Some?
  {
    assert FrameOk(m, s, f);
    if f in Children(s.frames) { assert ExecutionNamed(m.runId, f); }
  }

  /** A frame, once opened, keeps its name: an unnamed execution can never be named later. */
  lemma StepKeepsUnnamed(m: Manifest, s: FoldState, e: Event)
    requires m.objective.Some? && StepEvent(m, s, e).Ok? && !ExecutionsNamed(m, s.frames)
    ensures !ExecutionsNamed(m, StepEvent(m, s, e).value.frames)
  {
    if e.FrameOpened? {
      OpenedKeepsChildren(m, s, e.opening);
    } else {
      OtherStepChildren(m, s, e);
    }
  }

  lemma OpenedKeepsChildren(m: Manifest, s: FoldState, o: Opened)
    requires m.objective.Some? && StepFrameOpened(m, s, o).Ok?
    ensures Children(s.frames) <= Children(StepFrameOpened(m, s, o).value.frames)
  {
    if o.frameId !in s.frames { NewFrameStep(m, s, o); }
  }

  /**
   * At every prefix that folds, the second fold succeeds exactly when every child frame names a recurse execution;
   * its counters, cells, keys, intents, attempt ordinals and last executions are then those of the strict fold.
   */
  lemma {:induction false} DerivedStateAgrees(m: Manifest, es: seq<Event>, storedBytes: int)
    requires m.objective.Some? && Fold(m, es).Ok?
    ensures var s := Fold(m, es).value;
            var d := Derive(m.runId, es, storedBytes);
            && (d.Some? <==> ExecutionsNamed(m, s.frames))
            && (d.Some? ==> Agrees(m, s, d.value))
  {
    if es != [] {
      var front, last := es[..|es| - 1], es[|es| - 1];
      DerivedStateAgrees(m, front, storedBytes);
      FoldKeepsFrames(m, front);
      var s := Fold(m, front).value;
      if Derive(m.runId, front, storedBytes).Some? {
        StepAgrees(m, s, Derive(m.runId, front, storedBytes).value, last);
      } else {
        StepKeepsUnnamed(m, s, last);
      }
    }
  }

  /** At a checkpoint the rebuilt recurse ordinals, which are maxima, count the committed executions. */
  lemma CheckpointOrdinals(m: Manifest, es: seq<Event>, c: Checkpoint, storedBytes: int, digest: Digest)
    requires m.objective.Some? && Fold(m, es + [CheckpointCommitted(c)]).Ok?
    requires Derive(m.runId, es, storedBytes).Some?
    ensures Fold(m, es).Ok?
    ensures GetOr(Derive(m.runId, es, storedBytes).value.ordinals.recurseExecutions, digest, 0)
            == Executions(Fold(m, es).value, digest)
  {
    CheckpointIsQuiescent(m, es, c);
    DerivedStateAgrees(m, es, storedBytes);
    FoldKeepsFrames(m, es);
    GreatestOrdinal(m, Fold(m, es).value, Derive(m.runId, es, storedBytes).value.ordinals.recurseExecutions, digest);
  }

  lemma GreatestOrdinal(m: Manifest, s: FoldState, executions: map<Digest, nat>, digest: Digest)
    requires FramesOk(m, s) && Quiescent(m, s) && ExecutionsAgree(m, Children(s.frames), executions)
    ensures GetOr(executions, digest, 0) == Executions(s, digest)
  {
    var n := Executions(s, digest);
    if n >= 1 {
      var f := Execution(m, digest, n);
      assert f in s.frames;
      assert FrameOk(m, s, f);
      assert OrdinalReached(executions, f);
    }
    if digest in executions {
      assert Execution(m, digest, executions[digest]) in s.frames;
    }
  }
}
