/**
 * The coordinator as the object it is (src/extension/run-coordinator.ts): its methods update records, lists and aliases
 * in place. Each does to the registry what Coordination computes, with the effects stated beside it; the public ones keep
 * it valid.
 */
module RunCoordinator {
  import opened Wrappers
  import opened Coordination
  import opened CoordinationSafety
  import opened CoordinationEffects
  import opened CoordinationCalls

  class Coordinator {
    var records: seq<Record>
    var active: seq<nat>
    var recent: seq<nat>
    var aliases: map<string, nat>
    var session: Option<Session>
    var minimumGeneration: nat
    var subscribers: nat

    ghost function Registry(): State
      reads this
    {
      State(records, active, recent, aliases, session, minimumGeneration, subscribers)
    }

    constructor ()
      ensures Registry() == Start() && Valid(Registry())
    {
      records, active, recent, aliases := [], [], [], map[];
      session, minimumGeneration, subscribers := None, 0, 0;
    }

    method Refresh(id: nat, sources: Sources)
      modifies this
      ensures Registry() == Coordination.Refresh(old(Registry()), id, sources)
      ensures Refreshed(old(Registry()), Registry(), id, sources)
    {
      RefreshEffect(Registry(), id, sources);
      if id >= |records| || !records[id].sourced || records[id].terminal.Some? || id !in sources { return; }
      var snapshot := sources[id];
      if snapshot.sequence >= SequenceOf(records[id].progress) {
        records := records[id := records[id].(progress := Some(snapshot))];
      }
      if snapshot.runId.Some? {
        var runId := snapshot.runId.value;
        if !ValidRunId(runId) || (records[id].runId.Some? && records[id].runId.value != runId) {
          records := records[id := records[id].(identityConflict := true)];
        } else if records[id].runId.None? {
          if runId in aliases && aliases[runId] != id {
            records := records[id := records[id].(identityConflict := true)];
          } else {
            records := records[id := records[id].(runId := Some(runId))];
            aliases := aliases[runId := id];
          }
        }
      }
    }

    method RefreshEach(ids: seq<nat>, sources: Sources)
      modifies this
      ensures Registry() == RefreshAll(old(Registry()), ids, sources)
    {
      for k := 0 to |ids|
        invariant Registry() == RefreshAll(old(Registry()), ids[..k], sources)
      {
        assert ids[..k + 1][..k] == ids[..k];
        Refresh(ids[k], sources);
      }
      assert ids[..|ids|] == ids;
    }

    method Notify(sources: Sources)
      modifies this
      ensures Registry() == Coordination.Notify(old(Registry()), sources)
      ensures Reported(old(Registry()), Registry()) && Coordination.Notify(Registry(), sources) == Registry()
      ensures old(Valid(Registry())) ==> Valid(Registry()) && Evolves(old(Registry()), Registry())
    {
      NotifyReports(Registry(), sources);
      NotifyIdempotent(Registry(), sources);
      if Valid(Registry()) { NotifyKeeps(Registry(), sources); }
      if subscribers == 0 { return; }
      RefreshEach(active + recent, sources);
    }

    /** Terminal runs beyond the limit lose their names, oldest first. */
    method EvictOldest()
      modifies this
      ensures Registry() == EvictExcess(old(Registry()))
    {
      while |recent| > MAX_RECENT
        invariant EvictExcess(Registry()) == EvictExcess(old(Registry()))
        decreases |recent|
      {
        var last := recent[|recent| - 1];
        recent := recent[..|recent| - 1];
        if last < |records| {
          var evicted := records[last];
          aliases := map alias <- aliases | !(evicted.Named(alias) && aliases[alias] == last) :: aliases[alias];
        }
      }
    }

    method Terminalize(id: nat, terminal: Terminal, refresh: bool, sources: Sources) returns (outcome: Outcome)
      requires id < |records|
      modifies this
      ensures (Registry(), outcome) == Coordination.Terminalize(old(Registry()), id, terminal, refresh, sources)
      ensures if old(records[id].terminal.Some?) then outcome == Refused(RunTerminal) && Registry() == old(Registry())
              else outcome == Done && Ended(old(Registry()), Registry(), id, terminal)
    {
      TerminalizeEffect(Registry(), id, terminal, refresh, sources);
      if records[id].terminal.Some? { return Refused(RunTerminal); }
      if refresh { Refresh(id, sources); }
      records := records[id := records[id].(sourced := false, terminal := Some(terminal))];
      active := Without(active, id);
      recent := [id] + recent;
      EvictOldest();
      Notify(sources);
      return Done;
    }

    method BindAlias(id: nat, alias: string, kind: AliasKind, publish: bool, sources: Sources) returns (outcome: Outcome)
      requires id < |records|
      modifies this
      ensures (Registry(), outcome) == Coordination.BindAlias(old(Registry()), id, alias, kind, publish, sources)
      ensures NameBound(old(Registry()), Registry(), id, alias, kind, outcome)
    {
      BindEffect(Registry(), id, alias, kind, publish, sources);
      if records[id].terminal.Some? { return Refused(RunTerminal); }
      if !(if kind.ByRunId? then ValidRunId(alias) else ValidRunName(alias)) { return Refused(InvalidAlias); }
      var prior := if kind.ByRunId? then records[id].runId else records[id].runName;
      if prior == Some(alias) { return Done; }
      if prior.Some? || (alias in aliases && aliases[alias] != id) { return Refused(AliasCollision); }
      records := records[id :=
        if kind.ByRunId? then records[id].(runId := Some(alias)) else records[id].(runName := Some(alias))];
      aliases := aliases[alias := id];
      if publish { Notify(sources); }
      return Done;
    }

    method Cancel(control: Control, sources: Sources) returns (outcome: Outcome)
      modifies this
      ensures (Registry(), outcome) == Coordination.Cancel(old(Registry()), control, sources)
      ensures CancelHandled(old(Registry()), Registry(), control, outcome)
      ensures old(Valid(Registry())) ==> Valid(Registry()) && Evolves(old(Registry()), Registry())
    {
      CancelEffect(Registry(), control, sources);
      if Valid(Registry()) { CancelSteps(Registry(), control, sources); }
      var owned := Owned(State(records, active, recent, aliases, session, minimumGeneration, subscribers), control);
      if owned.None? { return Refused(if control.localId in aliases then RunNotOwned else RunNotFound); }
      var id := owned.value;
      if records[id].terminal.Some? { return Refused(RunTerminal); }
      if records[id].cancelRequested { return AlreadyRequested; }
      records := records[id := records[id].(cancelRequested := true)];
      Notify(sources);
      return Done;
    }

    /** Cancel every active run. */
    method CancelActive(sources: Sources)
      modifies this
      ensures Registry() == CancelEach(old(Registry()), old(active), sources)
    {
      var ids := active;
      for k := 0 to |ids|
        invariant Registry() == CancelEach(old(Registry()), ids[..k], sources)
      {
        assert ids[..k + 1][..k] == ids[..k];
        if ids[k] < |records| {
          var _ := Cancel(records[ids[k]].control, sources);
        }
      }
      assert ids[..|ids|] == ids;
    }

    method SetSession(next: Session, valid: bool, sources: Sources) returns (outcome: Outcome)
      modifies this
      ensures (Registry(), outcome) == Coordination.SetSession(old(Registry()), next, valid, sources)
      ensures old(Valid(Registry())) ==> Valid(Registry()) && Evolves(old(Registry()), Registry())
      ensures old(Valid(Registry())) ==> SessionSet(old(Registry()), Registry(), next, valid, outcome)
    {
      ghost var before := Registry();
      if Valid(before) {
        SetSessionSteps(before, next, valid, sources);
        SetSessionEffect(before, next, valid, sources);
      }
      if !valid { return Refused(SessionInvalid); }
      if next.generation < minimumGeneration
         || (session.Some? && next.generation < session.value.generation)
         || (session.Some? && next.generation == session.value.generation && session.value.sessionId != next.sessionId) {
        return Refused(StaleGeneration);
      }
      if session.Some? && session.value.generation != next.generation { CancelActive(sources); }
      if minimumGeneration < next.generation { minimumGeneration := next.generation; }
      session := Some(next);
      return Done;
    }

    method InvalidateSession(sources: Sources)
      modifies this
      ensures Registry() == Coordination.InvalidateSession(old(Registry()), sources)
      ensures old(Valid(Registry())) ==> Valid(Registry()) && Evolves(old(Registry()), Registry())
      ensures old(Valid(Registry())) ==> SessionInvalidated(old(Registry()), Registry())
    {
      ghost var before := Registry();
      if Valid(before) {
        InvalidateSessionSteps(before, sources);
        InvalidateSessionEffect(before, sources);
      }
      CancelActive(sources);
      if session.Some? && minimumGeneration < session.value.generation + 1 {
        minimumGeneration := session.value.generation + 1;
      }
      session := None;
    }

    /** Up to eight attempts to find an unused local id. */
    method AllocateLocalId(candidates: seq<string>) returns (localId: Option<string>)
      ensures localId == FreeId(Registry(), candidates)
      ensures localId.None? <==> forall c <- candidates :: !Usable(Registry(), c)
      ensures localId.Some? ==> FirstUsable(Registry(), candidates, localId.value)
    {
      FreeIdIsFirst(Registry(), candidates);
      for attempt := 0 to |candidates|
        invariant FreeId(Registry(), candidates) == FreeId(Registry(), candidates[attempt..])
      {
        if SafeAlias(candidates[attempt]) && candidates[attempt] !in aliases { return Some(candidates[attempt]); }
      }
      return None;
    }

    method Create(next: Session, candidates: seq<string>, token: string, ownerAborted: bool, sources: Sources)
      returns (r: Result<Control, Code>)
      requires |candidates| == ID_ATTEMPTS
      modifies this
      ensures (Registry(), r) == Coordination.Create(old(Registry()), next, candidates, token, ownerAborted, sources)
      ensures CreationHandled(old(Registry()), Registry(), next, candidates, token, ownerAborted, r)
      ensures old(Valid(Registry())) ==> Valid(Registry()) && Evolves(old(Registry()), Registry())
    {
      ghost var before := Registry();
      CreateEffect(before, next, candidates, token, ownerAborted, sources);
      if Valid(before) { CreateSteps(before, next, candidates, token, ownerAborted, sources); }
      if session != Some(next) { return Err(StaleGeneration); }
      if |active| >= MAX_ACTIVE { return Err(ActiveLimit); }
      var localId := AllocateLocalId(candidates);
      if localId.None? { return Err(IdCollision); }
      if !ValidToken(token) { return Err(TokenInvalid); }
      var control := Control(localId.value, token);
      var id := |records|;
      records := records + [Record(control, next, None, None, None, false, false, false, None)];
      aliases := aliases[control.localId := id];
      active := active + [id];
      if ownerAborted { var _ := Cancel(control, sources); }
      Notify(sources);
      return Ok(control);
    }

    /** What a report tells of its run: a conflict if the run is, or becomes, another one. */
    method Tell(id: nat, p: Progress, sources: Sources)
      requires id < |records|
      modifies this
      ensures Registry() == Told(old(Registry()), id, p, sources)
    {
      var conflicting := records[id].(progress := Some(p), identityConflict := true);
      records := records[id := records[id].(progress := Some(p))];
      if p.runId.Some? {
        if records[id].runId.Some? {
          if records[id].runId != p.runId { records := records[id := conflicting]; }
        } else {
          var bound := BindAlias(id, p.runId.value, ByRunId, false, sources);
          if bound != Done { records := records[id := conflicting]; }
        }
      }
    }

    method Observe(id: nat, p: Progress, sources: Sources)
      requires id < |records|
      modifies this
      ensures Registry() == DoObserve(old(Registry()), id, p, sources)
      ensures Observed(old(Registry()), Registry(), id, p)
    {
      ObserveEffect(Registry(), id, p, sources);
      if p.sequence < SequenceOf(records[id].progress) { return; }
      Tell(id, p, sources);
      Notify(sources);
    }

    method Finish(id: nat, runId: string, terminal: Terminal, sources: Sources) returns (outcome: Outcome)
      requires id < |records|
      modifies this
      ensures (Registry(), outcome) == DoFinish(old(Registry()), id, runId, terminal, sources)
      ensures |records| == old(|records|)
      ensures FinishHandled(old(Registry()), Registry(), id, runId, terminal, outcome)
    {
      FinishEffect(Registry(), id, runId, terminal, sources);
      Refresh(id, sources);
      if records[id].identityConflict || (records[id].runId.Some? && records[id].runId.value != runId) {
        return Refused(IdentityMismatch);
      }
      if records[id].runId.None? {
        var bound := BindAlias(id, runId, ByRunId, false, sources);
        if bound != Done { return bound; }
      }
      outcome := Terminalize(id, terminal, false, sources);
    }

    /** Objective, phase, progress source and reported progress of a run that has not ended. */
    method Inform(id: nat, request: Request, sources: Sources)
      requires id < |records| && records[id].terminal.None?
      requires request.SetObjective? || request.SetPhase? || request.AttachProgress? || request.Observe?
      modifies this
      ensures Registry() == Informing(old(Registry()), id, request, sources)
    {
      if request.Observe? {
        Observe(id, request.progress, sources);
        return;
      }
      if request.SetPhase? {
        var early := Progress(SequenceOf(records[id].progress) + 1, None);
        records := records[id := records[id].(sourced := false, progress := Some(early))];
      } else if request.AttachProgress? {
        records := records[id := records[id].(sourced := true, progress := None)];
        Refresh(id, sources);
      }
      Notify(sources);
    }

    /** Everything an owner does goes through its control, and only the holder of that control is heard. */
    method Handle(control: Control, request: Request, sources: Sources) returns (outcome: Outcome)
      modifies this
      ensures (Registry(), outcome) == Coordination.Handle(old(Registry()), control, request, sources)
      ensures RequestHandled(old(Registry()), Registry(), control, request, sources, outcome)
      ensures old(Valid(Registry())) ==> Valid(Registry()) && Evolves(old(Registry()), Registry())
    {
      ghost var before := Registry();
      HandleEffect(before, control, request, sources);
      if Valid(before) { HandleSteps(before, control, request, sources); }
      var owned := Owned(State(records, active, recent, aliases, session, minimumGeneration, subscribers), control);
      if owned.None? { return Refused(RunNotOwned); }
      var id := owned.value;
      match request {
        case BindRunName(alias) => outcome := BindAlias(id, alias, ByRunName, true, sources);
        case BindRunId(alias) => outcome := BindAlias(id, alias, ByRunId, true, sources);
        case Finish(runId, terminal) => outcome := Finish(id, runId, terminal, sources);
        case Fail(terminal) => outcome := Terminalize(id, terminal, true, sources);
        case _ =>
          if records[id].terminal.Some? { return Refused(RunTerminal); }
          Inform(id, request, sources);
          outcome := Done;
      }
    }
  }
}
