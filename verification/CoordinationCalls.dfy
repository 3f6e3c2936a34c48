/**
 * When the coordinator's public calls are refused and what they leave otherwise (src/extension/run-coordinator.ts):
 * sessions, new runs, and whatever the holder of a run's control asks for.
 */
module CoordinationCalls {
  import opened Wrappers
  import opened Coordination
  import opened CoordinationSafety
  import opened CoordinationEffects

  // ----- Whose control it is.

  /** A retained run is held by exactly its own control; whoever else a control finds is the run it was made for. */
  lemma OwnedExactly(s: State, control: Control, id: nat)
    requires Valid(s) && id < |s.records| && Retained(s, id)
    ensures Owned(s, control) == Some(id) <==> s.records[id].control == control
    ensures control.localId == s.records[id].control.localId && control.token != s.records[id].control.token ==>
              Owned(s, control).None?
  {
    assert NamesOk(s, id);
  }

  // ----- Cancelling several runs.

  /** A run differs at most in what its source reports and in that its cancellation may have been requested. */
  predicate OnlyCancelled(before: Record, after: Record) {
    && (before.cancelRequested ==> after.cancelRequested)
    && OnlyReported(before.(cancelRequested := after.cancelRequested), after)
  }

  /** Nothing but reports and requests for cancellation. */
  predicate Quieted(before: State, after: State) {
    && SameLists(before, after) && AliasesKept(before, after)
    && forall x | 0 <= x < |before.records| :: OnlyCancelled(before.records[x], after.records[x])
  }

  lemma NothingQuieted(s: State)
    ensures Quieted(s, s)
  {
    NothingReported(s);
  }

  lemma QuietedTransitive(a: State, b: State, c: State)
    requires Quieted(a, b) && Quieted(b, c)
    ensures Quieted(a, c)
  {
    forall x | 0 <= x < |a.records| ensures OnlyCancelled(a.records[x], c.records[x]) {
      assert OnlyCancelled(a.records[x], b.records[x]) && OnlyCancelled(b.records[x], c.records[x]);
    }
    forall alias | alias in a.aliases ensures PointsTo(c, alias, a.aliases[alias]) {
      assert PointsTo(b, alias, a.aliases[alias]);
    }
  }

  lemma CancelQuiets(s: State, control: Control, sources: Sources)
    ensures Quieted(s, Cancel(s, control, sources).0)
  {
    NothingQuieted(s);
    CancelEffect(s, control, sources);
    var (s', outcome) := Cancel(s, control, sources);
    if outcome == Done {
      var id := Owned(s, control).value;
      forall x | 0 <= x < |s.records| ensures OnlyCancelled(s.records[x], s'.records[x]) {
        if x != id { assert OnlyReported(s.records[x], s'.records[x]); }
      }
    }
  }

  lemma {:induction false} CancelEachQuiets(s: State, ids: seq<nat>, sources: Sources)
    ensures Quieted(s, CancelEach(s, ids, sources))
  {
    NothingQuieted(s);
    if ids != [] {
      var before := CancelEach(s, ids[..|ids| - 1], sources);
      CancelEachQuiets(s, ids[..|ids| - 1], sources);
      var id := ids[|ids| - 1];
      if id < |before.records| {
        CancelQuiets(before, before.records[id].control, sources);
        QuietedTransitive(s, before, CancelEach(s, ids, sources));
      }
    }
  }

  predicate AllCancelled(before: State, after: State) {
    forall id <- before.active :: id < |after.records| && after.records[id].cancelRequested
  }

  // ----- Sessions.

  /** The generation is behind what was seen, or is the current one under another session. */
  predicate Stale(s: State, next: Session) {
    || next.generation < s.minimumGeneration
    || (s.session.Some? && next.generation < s.session.value.generation)
    || (s.session.Some? && next.generation == s.session.value.generation && next.sessionId != s.session.value.sessionId)
  }

  /**
   * A session is refused if its identity is invalid or stale, and then nothing changes. Otherwise it is the current one,
   * no earlier generation will be accepted, and if the generation changes every active run is cancelled.
   */
  predicate SessionSet(before: State, after: State, next: Session, valid: bool, outcome: Outcome) {
    && outcome == (if !valid then Refused(SessionInvalid) else if Stale(before, next) then Refused(StaleGeneration) else Done)
    && (outcome != Done ==> after == before)
    && (outcome == Done ==>
          && after.session == Some(next)
          && after.minimumGeneration >= next.generation && after.minimumGeneration >= before.minimumGeneration
          && after.minimumGeneration in {next.generation, before.minimumGeneration}
          && Quieted(before.(session := after.session, minimumGeneration := after.minimumGeneration), after)
          && (if before.session.Some? && before.session.value.generation != next.generation then AllCancelled(before, after)
              else after == before.(session := after.session, minimumGeneration := after.minimumGeneration)))
  }

  lemma SetSessionEffect(s: State, next: Session, valid: bool, sources: Sources)
    requires Valid(s)
    ensures var (s', outcome) := SetSession(s, next, valid, sources); SessionSet(s, s', next, valid, outcome)
  {
    CancelEachQuiets(s, s.active, sources);
    CancelEachSteps(s, s.active, sources);
    NothingQuieted(s);
  }

  /** Every active run is cancelled, no session is current, and the last one's generation is spent. */
  predicate SessionInvalidated(before: State, after: State) {
    && after.session.None? && AllCancelled(before, after)
    && after.minimumGeneration >= before.minimumGeneration
    && (before.session.Some? ==>
          && after.minimumGeneration > before.session.value.generation
          && after.minimumGeneration in {before.minimumGeneration, before.session.value.generation + 1})
    && (before.session.None? ==> after.minimumGeneration == before.minimumGeneration)
    && Quieted(before.(session := None, minimumGeneration := after.minimumGeneration), after)
  }

  lemma InvalidateSessionEffect(s: State, sources: Sources)
    requires Valid(s)
    ensures SessionInvalidated(s, InvalidateSession(s, sources))
  {
    CancelEachQuiets(s, s.active, sources);
    CancelEachSteps(s, s.active, sources);
  }

  // ----- New runs.

  predicate Usable(s: State, candidate: string) { SafeAlias(candidate) && candidate !in s.aliases }

  /** The first usable candidate, if any. */
  predicate FirstUsable(s: State, candidates: seq<string>, localId: string) {
    exists i | 0 <= i < |candidates| ::
      candidates[i] == localId && Usable(s, candidates[i]) && forall j | 0 <= j < i :: !Usable(s, candidates[j])
  }

  lemma {:induction false} FreeIdIsFirst(s: State, candidates: seq<string>)
    ensures FreeId(s, candidates).None? <==> forall c <- candidates :: !Usable(s, c)
    ensures FreeId(s, candidates).Some? ==> FirstUsable(s, candidates, FreeId(s, candidates).value)
  {
    if candidates != [] && !Usable(s, candidates[0]) {
      FreeIdIsFirst(s, candidates[1..]);
      if FreeId(s, candidates).Some? {
        var i :| 0 <= i < |candidates[1..]| && candidates[1..][i] == FreeId(s, candidates).value
                 && Usable(s, candidates[1..][i]) && forall j | 0 <= j < i :: !Usable(s, candidates[1..][j]);
        assert candidates[i + 1] == candidates[1..][i];
        forall j | 0 <= j < i + 1 ensures !Usable(s, candidates[j]) {
          if j > 0 { assert candidates[j] == candidates[1..][j - 1]; }
        }
      }
      assert candidates == [candidates[0]] + candidates[1..];
    }
  }

  /** Each refusal has its cause and changes nothing. */
  predicate CreationRefused(before: State, next: Session, candidates: seq<string>, token: string, code: Code) {
    match code
    case StaleGeneration => before.session != Some(next)
    case ActiveLimit => before.session == Some(next) && |before.active| >= MAX_ACTIVE
    case IdCollision =>
      before.session == Some(next) && |before.active| < MAX_ACTIVE && forall c <- candidates :: !Usable(before, c)
    case TokenInvalid =>
      before.session == Some(next) && |before.active| < MAX_ACTIVE && !ValidToken(token)
      && exists c <- candidates :: Usable(before, c)
    case _ => false
  }

  /** The new run is the last active one, under the first usable id, cancelled at once if its owner has gone. */
  predicate Created(before: State, after: State, next: Session, candidates: seq<string>, ownerAborted: bool, control: Control) {
    var id := |before.records|;
    && FirstUsable(before, candidates, control.localId)
    && |after.records| == id + 1 && after == before.(
         records := after.records, aliases := after.aliases, active := before.active + [id])
    && OnlyReported(Record(control, next, None, None, None, false, false, ownerAborted, None), after.records[id])
    && (forall x | 0 <= x < id :: OnlyReported(before.records[x], after.records[x]))
    && AliasesKept(before, after) && PointsTo(after, control.localId, id)
  }

  predicate CreationHandled(before: State, after: State, next: Session, candidates: seq<string>, token: string,
                            ownerAborted: bool, r: Result<Control, Code>)
  {
    && (r.Ok? <==>
          before.session == Some(next) && |before.active| < MAX_ACTIVE && ValidToken(token)
          && exists c <- candidates :: Usable(before, c))
    && (r.Err? ==> after == before && CreationRefused(before, next, candidates, token, r.error))
    && (r.Ok? ==> r.value.token == token && Created(before, after, next, candidates, ownerAborted, r.value))
  }

  lemma AddedRun(s: State, control: Control, next: Session, ownerAborted: bool, sources: Sources)
    requires control.localId !in s.aliases
    ensures var added := Add(s, control, next);
            var owned := if ownerAborted then Cancel(added, control, sources).0 else added;
            && SameLists(added, owned) && AliasesKept(added, owned) && PointsTo(owned, control.localId, |s.records|)
            && OnlyReported(added.records[|s.records|].(cancelRequested := ownerAborted), owned.records[|s.records|])
            && forall x | 0 <= x < |s.records| :: OnlyReported(s.records[x], owned.records[x])
  {
    var added, id := Add(s, control, next), |s.records|;
    NothingReported(added);
    CancelEffect(added, control, sources);
    assert Owned(added, control) == Some(id) && added.records[id].terminal.None? && !added.records[id].cancelRequested;
    forall x | 0 <= x < |s.records| ensures added.records[x] == s.records[x] {}
    if ownerAborted {
      var owned := Cancel(added, control, sources).0;
      assert Cancel(added, control, sources).1 == Done;
      forall x | 0 <= x < |s.records| ensures OnlyReported(s.records[x], owned.records[x]) {
        assert OnlyReported(added.records[x], owned.records[x]);
      }
      assert control.localId in added.aliases && PointsTo(owned, control.localId, added.aliases[control.localId]);
    }
  }

  lemma NotifiedRun(s: State, control: Control, next: Session, ownerAborted: bool, sources: Sources)
    requires control.localId !in s.aliases
    ensures var added := Add(s, control, next);
            var owned := if ownerAborted then Cancel(added, control, sources).0 else added;
            var after := Notify(owned, sources);
            && |after.records| == |s.records| + 1 && after == s.(
                 records := after.records, aliases := after.aliases, active := s.active + [|s.records|])
            && AliasesKept(s, after) && PointsTo(after, control.localId, |s.records|)
            && OnlyReported(Record(control, next, None, None, None, false, false, ownerAborted, None), after.records[|s.records|])
            && forall x | 0 <= x < |s.records| :: OnlyReported(s.records[x], after.records[x])
  {
    var added, id := Add(s, control, next), |s.records|;
    AddedRun(s, control, next, ownerAborted, sources);
    var owned := if ownerAborted then Cancel(added, control, sources).0 else added;
    NotifyReports(owned, sources);
    var after := Notify(owned, sources);
    forall x | 0 <= x < |s.records| ensures OnlyReported(s.records[x], after.records[x]) {
      assert OnlyReported(s.records[x], owned.records[x]) && OnlyReported(owned.records[x], after.records[x]);
    }
    assert OnlyReported(owned.records[id], after.records[id]);
    forall alias | alias in s.aliases ensures PointsTo(after, alias, s.aliases[alias]) {
      assert alias in added.aliases && added.aliases[alias] == s.aliases[alias];
      assert PointsTo(owned, alias, added.aliases[alias]) && alias in owned.aliases;
      assert PointsTo(after, alias, owned.aliases[alias]);
    }
    assert control.localId in owned.aliases && PointsTo(after, control.localId, owned.aliases[control.localId]);
  }

  lemma CreateEffect(s: State, next: Session, candidates: seq<string>, token: string, ownerAborted: bool, sources: Sources)
    requires |candidates| == ID_ATTEMPTS
    ensures var (s', r) := Create(s, next, candidates, token, ownerAborted, sources);
            CreationHandled(s, s', next, candidates, token, ownerAborted, r)
  {
    FreeIdIsFirst(s, candidates);
    var (s', r) := Create(s, next, candidates, token, ownerAborted, sources);
    if r.Ok? { NotifiedRun(s, r.value, next, ownerAborted, sources); }
  }

  // ----- What the holder of a control asks for.

  /** The phase counts as the run's newest report, from a run without a source. */
  predicate PhaseSet(before: State, after: State, id: nat)
    requires id < |before.records|
  {
    var r := before.records[id];
    && SameLists(before, after) && AliasesKept(before, after) && OthersReported(before, after, id)
    && OnlyReported(r.(sourced := false, progress := Some(Progress(SequenceOf(r.progress) + 1, None))), after.records[id])
    && after.records[id].progress == Some(Progress(SequenceOf(r.progress) + 1, None))
  }

  /** The source is heard at once, whatever was reported before. */
  predicate Attached(before: State, after: State, id: nat, sources: Sources)
    requires id < |before.records|
  {
    && SameLists(before, after) && AliasesKept(before, after) && OthersReported(before, after, id)
    && OnlyReported(before.records[id].(sourced := true, progress := None), after.records[id])
    && (id in sources && sources[id].sequence >= 0 ==>
          after.records[id].progress.Some? && SequenceOf(after.records[id].progress) >= sources[id].sequence)
  }

  /** What becomes of a request of the run's owner that does not name, finish or fail it. */
  predicate Informed(before: State, after: State, id: nat, request: Request, sources: Sources)
    requires id < |before.records|
  {
    if request.SetPhase? then PhaseSet(before, after, id)
    else if request.AttachProgress? then Attached(before, after, id, sources)
    else if request.Observe? then Observed(before, after, id, request.progress)
    else Reported(before, after)
  }

  /** Only the holder of the control is heard; each request has its effect, and an ended run takes none. */
  ghost predicate RequestHandled(before: State, after: State, control: Control, request: Request, sources: Sources,
                                 outcome: Outcome)
  {
    match Owned(before, control)
    case None => outcome == Refused(RunNotOwned) && after == before
    case Some(id) =>
      var ended := before.records[id].terminal.Some?;
      if request.BindRunName? then NameBound(before, after, id, request.alias, ByRunName, outcome)
      else if request.BindRunId? then NameBound(before, after, id, request.alias, ByRunId, outcome)
      else if request.Finish? then
        && |after.records| == |before.records|
        && FinishHandled(before, after, id, request.runId, request.terminal, outcome)
      else if ended then outcome == Refused(RunTerminal) && after == before
      else if request.Fail? then outcome == Done && Ended(before, after, id, request.terminal)
      else outcome == Done && Informed(before, after, id, request, sources)
  }

  lemma UpdatedThenReported(s: State, updated: State, after: State, id: nat, r: Record)
    requires id < |s.records| && updated == Update(s, id, r) && Reported(updated, after)
    ensures SameLists(s, after) && AliasesKept(s, after) && OthersReported(s, after, id)
    ensures OnlyReported(r, after.records[id])
  {
    forall x | 0 <= x < |s.records| && x != id ensures OnlyReported(s.records[x], after.records[x]) {
      assert OnlyReported(updated.records[x], after.records[x]);
    }
    assert OnlyReported(updated.records[id], after.records[id]);
  }

  lemma {:induction false} UnsourcedStays(s: State, ids: seq<nat>, sources: Sources, id: nat)
    requires id < |s.records| && !s.records[id].sourced
    ensures var s' := RefreshAll(s, ids, sources); id < |s'.records| && s'.records[id] == s.records[id]
  {
    if ids != [] {
      UnsourcedStays(s, ids[..|ids| - 1], sources, id);
      RefreshReports(RefreshAll(s, ids[..|ids| - 1], sources), ids[|ids| - 1], sources);
    }
  }

  lemma PhaseEffect(s: State, id: nat, sources: Sources)
    requires id < |s.records|
    ensures var early := Progress(SequenceOf(s.records[id].progress) + 1, None);
            PhaseSet(s, Notify(Update(s, id, s.records[id].(sourced := false, progress := Some(early))), sources), id)
  {
    var r := s.records[id].(sourced := false, progress := Some(Progress(SequenceOf(s.records[id].progress) + 1, None)));
    var updated := Update(s, id, r);
    NotifyReports(updated, sources);
    UpdatedThenReported(s, updated, Notify(updated, sources), id, r);
    UnsourcedStays(updated, updated.active + updated.recent, sources, id);
  }

  lemma AttachEffect(s: State, id: nat, sources: Sources)
    requires id < |s.records| && s.records[id].terminal.None?
    ensures var attached := Update(s, id, s.records[id].(sourced := true, progress := None));
            Attached(s, Notify(Refresh(attached, id, sources), sources), id, sources)
  {
    var r := s.records[id].(sourced := true, progress := None);
    var attached := Update(s, id, r);
    RefreshEffect(attached, id, sources);
    var heard := Refresh(attached, id, sources);
    NotifyReports(heard, sources);
    ReportedTransitive(attached, heard, Notify(heard, sources));
    UpdatedThenReported(s, attached, Notify(heard, sources), id, r);
    assert OnlyReported(heard.records[id], Notify(heard, sources).records[id]);
  }

  lemma HandleEffect(s: State, control: Control, request: Request, sources: Sources)
    ensures var (s', outcome) := Handle(s, control, request, sources);
            RequestHandled(s, s', control, request, sources, outcome)
  {
    if Owned(s, control).Some? {
      var id := Owned(s, control).value;
      match request {
        case BindRunName(alias) => BindEffect(s, id, alias, ByRunName, true, sources);
        case BindRunId(alias) => BindEffect(s, id, alias, ByRunId, true, sources);
        case Finish(runId, terminal) => FinishEffect(s, id, runId, terminal, sources);
        case Fail(terminal) => TerminalizeEffect(s, id, terminal, true, sources);
        case SetObjective => NotifyReports(s, sources);
        case SetPhase => PhaseEffect(s, id, sources);
        case AttachProgress => if s.records[id].terminal.None? { AttachEffect(s, id, sources); }
        case Observe(p) => ObserveEffect(s, id, p, sources);
      }
    }
  }

  // ----- Cancelling by local id.

  /** The name is the local id of a run that is still known by it. */
  predicate LocalRun(s: State, alias: string) {
    && SafeAlias(alias) && alias in s.aliases && s.aliases[alias] < |s.records|
    && s.records[s.aliases[alias]].control.localId == alias
  }

  /** A local id stands for its run's control; any other name cancels nothing. */
  lemma CancelLocalEffect(s: State, alias: string, sources: Sources)
    ensures var (s', outcome) := CancelLocalAlias(s, alias, sources);
            if LocalRun(s, alias) then
              CancelHandled(s, s', s.records[s.aliases[alias]].control, outcome)
              && Owned(s, s.records[s.aliases[alias]].control) == Some(s.aliases[alias])
            else outcome == Refused(RunNotFound) && s' == s
  {
    if LocalRun(s, alias) { CancelEffect(s, s.records[s.aliases[alias]].control, sources); }
  }
}
