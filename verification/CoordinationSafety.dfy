/** What every sequence of coordinator calls keeps. */
module CoordinationSafety {
  import opened Wrappers
  import opened Coordination

  predicate Ascending(ids: seq<nat>) { forall i, j | 0 <= i < j < |ids| :: ids[i] < ids[j] }

  predicate Distinct(ids: seq<nat>) { forall i, j | 0 <= i < j < |ids| :: ids[i] != ids[j] }

  predicate Retained(s: State, id: nat) { id in s.active || id in s.recent }

  /** An alias points to a retained record that bears it. */
  predicate AliasOk(s: State, alias: string)
    requires alias in s.aliases
  {
    s.aliases[alias] < |s.records| && Retained(s, s.aliases[alias]) && s.records[s.aliases[alias]].Named(alias)
  }

  predicate PointsTo(s: State, alias: string, id: nat) { alias in s.aliases && s.aliases[alias] == id }

  /** A retained record owns all its names. */
  predicate NamesOk(s: State, id: nat)
    requires id < |s.records|
  {
    var r := s.records[id];
    && PointsTo(s, r.control.localId, id)
    && (r.runId.Some? ==> PointsTo(s, r.runId.value, id))
    && (r.runName.Some? ==> PointsTo(s, r.runName.value, id))
  }

  /** An active run that nobody is cancelling belongs to the current session and its generation. */
  predicate ActiveOk(s: State, id: nat)
    requires id < |s.records|
  {
    s.records[id].terminal.None? && (s.records[id].cancelRequested || s.session == Some(s.records[id].session))
  }

  /** Everything but the bound on the terminal runs kept. */
  predicate Registered(s: State) {
    && Ascending(s.active) && Distinct(s.recent) && |s.active| <= MAX_ACTIVE
    && (forall id <- s.active :: id < |s.records|)
    && (forall id <- s.recent :: id < |s.records| && s.records[id].terminal.Some?)
    && (forall id {:trigger ActiveOk(s, id)} | id in s.active :: id < |s.records| && ActiveOk(s, id))
    && (forall id {:trigger NamesOk(s, id)} | 0 <= id < |s.records| && Retained(s, id) :: NamesOk(s, id))
    && (forall alias {:trigger AliasOk(s, alias)} | alias in s.aliases :: AliasOk(s, alias))
  }

  predicate Valid(s: State) {
    && Registered(s) && |s.recent| <= MAX_RECENT
    && (s.session.Some? ==> s.session.value.generation <= s.minimumGeneration)
  }

  // ----- How the registry may evolve.

  /** A record keeps its identity; what is decided about it stays decided. */
  predicate RecordKept(before: Record, after: Record) {
    && after.control == before.control && after.session == before.session
    && (before.runId.Some? ==> after.runId == before.runId)
    && (before.runName.Some? ==> after.runName == before.runName)
    && (before.cancelRequested ==> after.cancelRequested)
    && (before.terminal.Some? ==> after.terminal == before.terminal)
  }

  /** An alias keeps its owner until the owner is evicted, and an evicted record never comes back. */
  predicate AliasKept(before: State, after: State, alias: string)
    requires alias in before.aliases
  {
    Retained(after, before.aliases[alias]) ==> PointsTo(after, alias, before.aliases[alias])
  }

  predicate Evolves(before: State, after: State) {
    && |before.records| <= |after.records|
    && (forall id {:trigger RecordKept(before.records[id], after.records[id])} | 0 <= id < |before.records| ::
          RecordKept(before.records[id], after.records[id]))
    && (forall alias {:trigger AliasKept(before, after, alias)} | alias in before.aliases ::
          AliasKept(before, after, alias))
    && (forall id {:trigger Retained(after, id)} | 0 <= id < |before.records| && Retained(after, id) :: Retained(before, id))
  }

  /** Nothing but records and aliases changed, and no record came or went. */
  predicate SameLists(before: State, after: State) {
    after == before.(records := after.records, aliases := after.aliases) && |after.records| == |before.records|
  }

  lemma EvolvesTransitive(a: State, b: State, c: State)
    requires Registered(a) && Evolves(a, b) && Evolves(b, c)
    ensures Evolves(a, c)
  {
    forall id | 0 <= id < |a.records| ensures RecordKept(a.records[id], c.records[id]) {
      assert RecordKept(a.records[id], b.records[id]) && RecordKept(b.records[id], c.records[id]);
    }
    forall alias | alias in a.aliases ensures AliasKept(a, c, alias) {
      assert AliasOk(a, alias) && AliasKept(a, b, alias);
      var owner := a.aliases[alias];
      if Retained(c, owner) {
        assert Retained(b, owner);
        assert AliasKept(b, c, alias);
      }
    }
    forall id | 0 <= id < |a.records| && Retained(c, id) ensures Retained(a, id) { assert Retained(b, id); }
  }

  // ----- Small steps.

  /** A change of one record that keeps its names and does not end or resurrect it. */
  lemma UpdateKeeps(s: State, id: nat, r: Record)
    requires Registered(s) && id < |s.records|
    requires RecordKept(s.records[id], r) && r.terminal == s.records[id].terminal
    requires r.runId == s.records[id].runId && r.runName == s.records[id].runName
    ensures Registered(Update(s, id, r)) && Evolves(s, Update(s, id, r))
  {
    var s' := Update(s, id, r);
    forall x | x in s'.active ensures ActiveOk(s', x) { assert ActiveOk(s, x); }
    forall x | 0 <= x < |s'.records| && Retained(s', x) ensures NamesOk(s', x) {
      assert Retained(s, x) && NamesOk(s, x);
    }
    forall alias | alias in s'.aliases ensures AliasOk(s', alias) && AliasKept(s, s', alias) { assert AliasOk(s, alias); }
    forall x | 0 <= x < |s.records| ensures RecordKept(s.records[x], s'.records[x]) {}
    forall x | 0 <= x < |s.records| && Retained(s', x) ensures Retained(s, x) {}
  }

  /** A free name is bound to a record that had none of its kind. */
  lemma BindKeeps(s: State, s': State, id: nat, r: Record, alias: string)
    requires Registered(s) && id < |s.records| && Retained(s, id)
    requires RecordKept(s.records[id], r) && r.terminal == s.records[id].terminal && r.Named(alias)
    requires r.runId == s.records[id].runId || (s.records[id].runId.None? && r.runId == Some(alias))
    requires r.runName == s.records[id].runName || (s.records[id].runName.None? && r.runName == Some(alias))
    requires alias in s.aliases ==> s.aliases[alias] == id
    requires s' == Update(s, id, r).(aliases := s.aliases[alias := id])
    ensures Registered(s') && Evolves(s, s')
  {
    forall x | x in s'.active ensures ActiveOk(s', x) { assert ActiveOk(s, x); }
    forall x | 0 <= x < |s'.records| && Retained(s', x) ensures NamesOk(s', x) {
      assert Retained(s, x) && NamesOk(s, x);
    }
    forall a | a in s'.aliases ensures AliasOk(s', a) { if a in s.aliases { assert AliasOk(s, a); } }
    forall a | a in s.aliases ensures AliasKept(s, s', a) { assert AliasOk(s, a); }
    forall x | 0 <= x < |s.records| ensures RecordKept(s.records[x], s'.records[x]) {}
    forall x | 0 <= x < |s.records| && Retained(s', x) ensures Retained(s, x) {}
  }

  lemma RefreshKeeps(s: State, id: nat, sources: Sources)
    requires Registered(s) && Retained(s, id)
    ensures Registered(Refresh(s, id, sources)) && Evolves(s, Refresh(s, id, sources))
    ensures SameLists(s, Refresh(s, id, sources))
  {
    var s' := Refresh(s, id, sources);
    if s' != s {
      var r := s'.records[id];
      if s'.aliases == s.aliases && r.runId == s.records[id].runId {
        UpdateKeeps(s, id, r);
      } else {
        BindKeeps(s, s', id, r, r.runId.value);
      }
    } else {
      Unchanged(s);
    }
  }

  lemma Unchanged(s: State)
    ensures Evolves(s, s)
  {
    forall x | 0 <= x < |s.records| ensures RecordKept(s.records[x], s.records[x]) {}
    forall alias | alias in s.aliases ensures AliasKept(s, s, alias) {}
  }

  lemma {:induction false} RefreshAllKeeps(s: State, ids: seq<nat>, sources: Sources)
    requires Registered(s) && forall id <- ids :: Retained(s, id)
    ensures var s' := RefreshAll(s, ids, sources); Registered(s') && Evolves(s, s') && SameLists(s, s')
  {
    if ids == [] {
      Unchanged(s);
    } else {
      var front, last := ids[..|ids| - 1], ids[|ids| - 1];
      RefreshAllKeeps(s, front, sources);
      var middle := RefreshAll(s, front, sources);
      assert last in ids && Retained(s, last) && Retained(middle, last);
      RefreshKeeps(middle, last, sources);
      EvolvesTransitive(s, middle, Refresh(middle, last, sources));
    }
  }

  lemma NotifyKeeps(s: State, sources: Sources)
    requires Registered(s)
    ensures var s' := Notify(s, sources); Registered(s') && Evolves(s, s') && SameLists(s, s')
  {
    Unchanged(s);
    RefreshAllKeeps(s, s.active + s.recent, sources);
  }

  // ----- Ending and evicting.

  lemma {:induction false} WithoutAscending(ids: seq<nat>, id: nat)
    requires Ascending(ids)
    ensures Ascending(Without(ids, id))
  {
    if ids != [] {
      var front, last := ids[..|ids| - 1], ids[|ids| - 1];
      WithoutAscending(front, id);
      var r := Without(front, id);
      forall i | 0 <= i < |r| ensures r[i] < last {
        assert r[i] in r;
        assert r[i] in front;
      }
    }
  }

  lemma RetireKeeps(s: State, id: nat, terminal: Terminal)
    requires Registered(s) && id in s.active && |s.recent| <= MAX_RECENT
    ensures var s' := Retire(s, id, terminal);
            && Registered(s') && Evolves(s, s') && |s'.recent| == |s.recent| + 1 && s'.session == s.session
            && s'.minimumGeneration == s.minimumGeneration
  {
    var s' := Retire(s, id, terminal);
    WithoutAscending(s.active, id);
    assert ActiveOk(s, id);
    forall x | x in s'.active ensures x < |s'.records| && ActiveOk(s', x) { assert ActiveOk(s, x); }
    forall x | 0 <= x < |s'.records| && Retained(s', x) ensures NamesOk(s', x) {
      assert Retained(s, x) && NamesOk(s, x);
    }
    forall alias | alias in s'.aliases ensures AliasOk(s', alias) && AliasKept(s, s', alias) { assert AliasOk(s, alias); }
    forall x | 0 <= x < |s.records| ensures RecordKept(s.records[x], s'.records[x]) {}
    forall x | 0 <= x < |s.records| && Retained(s', x) ensures Retained(s, x) {}
  }

  /** Evicting the oldest terminal run frees exactly its names. */
  lemma EvictKeeps(s: State)
    requires Registered(s) && |s.recent| == MAX_RECENT + 1
    ensures var s' := EvictExcess(s);
            && Registered(s') && Evolves(s, s') && |s'.recent| == MAX_RECENT && s'.session == s.session
            && s'.minimumGeneration == s.minimumGeneration
  {
    var last := s.recent[|s.recent| - 1];
    var shorter := s.(recent := s.recent[..|s.recent| - 1]);
    assert last in s.recent;
    var s' := Unbind(shorter, last);
    assert EvictExcess(s) == s' by { assert EvictExcess(s') == s'; }
    assert last in s.active ==> ActiveOk(s, last);
    assert !Retained(s', last);
    forall x | x in s'.active ensures x < |s'.records| && ActiveOk(s', x) { assert ActiveOk(s, x); }
    forall x | 0 <= x < |s'.records| && Retained(s', x) ensures NamesOk(s', x) {
      assert Retained(s, x) && NamesOk(s, x);
    }
    forall alias | alias in s'.aliases ensures AliasOk(s', alias) { assert AliasOk(s, alias); }
    forall alias | alias in s.aliases ensures AliasKept(s, s', alias) { assert AliasOk(s, alias); }
    forall x | 0 <= x < |s.records| ensures RecordKept(s.records[x], s'.records[x]) {}
    forall x | 0 <= x < |s.records| && Retained(s', x) ensures Retained(s, x) {}
  }

  // ----- Operations.

  ghost predicate Steps(s: State, s': State) { Valid(s') && Evolves(s, s') }

  lemma NotifySteps(s: State, middle: State, sources: Sources)
    requires Valid(s) && Steps(s, middle)
    ensures Steps(s, Notify(middle, sources))
  {
    NotifyKeeps(middle, sources);
    EvolvesTransitive(s, middle, Notify(middle, sources));
  }

  lemma TerminalizeSteps(s: State, id: nat, terminal: Terminal, refresh: bool, sources: Sources)
    requires Valid(s) && id < |s.records| && Retained(s, id)
    ensures Steps(s, Terminalize(s, id, terminal, refresh, sources).0)
  {
    Unchanged(s);
    if s.records[id].terminal.None? {
      assert id in s.active;
      RefreshKeeps(s, id, sources);
      var current := if refresh then Refresh(s, id, sources) else s;
      RetireKeeps(current, id, terminal);
      var retired := Retire(current, id, terminal);
      EvolvesTransitive(s, current, retired);
      var evicted := EvictExcess(retired);
      if |retired.recent| > MAX_RECENT {
        EvictKeeps(retired);
        EvolvesTransitive(s, retired, evicted);
      }
      NotifySteps(s, evicted, sources);
    }
  }

  lemma BindAliasSteps(s: State, id: nat, alias: string, kind: AliasKind, publish: bool, sources: Sources)
    requires Valid(s) && id < |s.records| && Retained(s, id)
    ensures Steps(s, BindAlias(s, id, alias, kind, publish, sources).0)
  {
    Unchanged(s);
    var r := s.records[id];
    var named := if kind.ByRunId? then r.(runId := Some(alias)) else r.(runName := Some(alias));
    var bound := Update(s, id, named).(aliases := s.aliases[alias := id]);
    if BindAlias(s, id, alias, kind, false, sources).0 != s {
      BindKeeps(s, bound, id, named, alias);
      NotifySteps(s, bound, sources);
    } else if BindAlias(s, id, alias, kind, publish, sources).0 != s {
      NotifySteps(s, s, sources);
    }
  }

  lemma CancelSteps(s: State, control: Control, sources: Sources)
    requires Valid(s)
    ensures Steps(s, Cancel(s, control, sources).0)
    ensures SameLists(s, Cancel(s, control, sources).0)
  {
    Unchanged(s);
    if Owned(s, control).Some? {
      var id := Owned(s, control).value;
      var requested := Update(s, id, s.records[id].(cancelRequested := true));
      UpdateKeeps(s, id, s.records[id].(cancelRequested := true));
      NotifySteps(s, requested, sources);
      NotifyKeeps(requested, sources);
    }
  }

  /** Cancelling runs by their own control reaches every one of them. */
  lemma {:induction false} CancelEachSteps(s: State, ids: seq<nat>, sources: Sources)
    requires Valid(s) && forall id <- ids :: id in s.active
    ensures var s' := CancelEach(s, ids, sources);
            Steps(s, s') && SameLists(s, s') && forall id <- ids :: id < |s'.records| && s'.records[id].cancelRequested
  {
    if ids == [] {
      Unchanged(s);
    } else {
      var front, id := ids[..|ids| - 1], ids[|ids| - 1];
      assert ids == front + [id];
      CancelEachSteps(s, front, sources);
      var before := CancelEach(s, front, sources);
      assert id in ids && ActiveOk(s, id);
      var control := before.records[id].control;
      var after := Cancel(before, control, sources).0;
      CancelSteps(before, control, sources);
      EvolvesTransitive(s, before, after);
      assert ActiveOk(before, id) && NamesOk(before, id);
      assert Owned(before, control) == Some(id);
      CancelRequests(before, id, sources);
      forall x | x in front ensures x < |after.records| && after.records[x].cancelRequested {
        assert RecordKept(before.records[x], after.records[x]);
      }
    }
  }

  lemma CancelRequests(s: State, id: nat, sources: Sources)
    requires Valid(s) && id < |s.records| && Owned(s, s.records[id].control) == Some(id) && s.records[id].terminal.None?
    ensures var s' := Cancel(s, s.records[id].control, sources).0;
            id < |s'.records| && s'.records[id].cancelRequested
  {
    var requested := Update(s, id, s.records[id].(cancelRequested := true));
    UpdateKeeps(s, id, s.records[id].(cancelRequested := true));
    NotifyKeeps(requested, sources);
    assert RecordKept(requested.records[id], Notify(requested, sources).records[id]);
  }

  /** Once every active run is being cancelled, the session may change. */
  lemma SessionSteps(s: State, s': State)
    requires Valid(s) && s' == s.(session := s'.session, minimumGeneration := s'.minimumGeneration)
    requires s'.session.Some? ==> s'.session.value.generation <= s'.minimumGeneration
    requires s'.session == s.session || forall id <- s.active :: s.records[id].cancelRequested
    ensures Steps(s, s')
  {
    forall x | x in s'.active ensures ActiveOk(s', x) { assert ActiveOk(s, x); }
    forall x | 0 <= x < |s'.records| && Retained(s', x) ensures NamesOk(s', x) {
      assert Retained(s, x) && NamesOk(s, x);
    }
    forall alias | alias in s'.aliases ensures AliasOk(s', alias) && AliasKept(s, s', alias) { assert AliasOk(s, alias); }
    forall x | 0 <= x < |s.records| ensures RecordKept(s.records[x], s'.records[x]) {}
    forall x | 0 <= x < |s.records| && Retained(s', x) ensures Retained(s, x) {}
  }

  lemma SetSessionSteps(s: State, session: Session, valid: bool, sources: Sources)
    requires Valid(s)
    ensures Steps(s, SetSession(s, session, valid, sources).0)
  {
    Unchanged(s);
    var s' := SetSession(s, session, valid, sources).0;
    if SetSession(s, session, valid, sources).1 == Done {
      var changes := s.session.Some? && s.session.value.generation != session.generation;
      var quiet := if changes then CancelEach(s, s.active, sources) else s;
      if changes { CancelEachSteps(s, s.active, sources); }
      if s.session.None? {
        forall id | id in s.active ensures s.records[id].cancelRequested { assert ActiveOk(s, id); }
      }
      SessionSteps(quiet, s');
      EvolvesTransitive(s, quiet, s');
    }
  }

  lemma InvalidateSessionSteps(s: State, sources: Sources)
    requires Valid(s)
    ensures Steps(s, InvalidateSession(s, sources))
  {
    CancelEachSteps(s, s.active, sources);
    var quiet := CancelEach(s, s.active, sources);
    SessionSteps(quiet, InvalidateSession(s, sources));
    EvolvesTransitive(s, quiet, InvalidateSession(s, sources));
  }

  lemma AddSteps(s: State, control: Control, session: Session)
    requires Valid(s) && s.session == Some(session) && |s.active| < MAX_ACTIVE && control.localId !in s.aliases
    ensures Steps(s, Add(s, control, session))
  {
    var s' := Add(s, control, session);
    forall i | 0 <= i < |s.active| ensures s.active[i] < |s.records| { assert s.active[i] in s.active; }
    forall x | x in s'.active ensures x < |s'.records| && ActiveOk(s', x) {
      if x in s.active { assert ActiveOk(s, x); }
    }
    forall x | 0 <= x < |s'.records| && Retained(s', x) ensures NamesOk(s', x) {
      if x < |s.records| { assert Retained(s, x) && NamesOk(s, x); }
    }
    forall alias | alias in s'.aliases ensures AliasOk(s', alias) { if alias in s.aliases { assert AliasOk(s, alias); } }
    forall alias | alias in s.aliases ensures AliasKept(s, s', alias) { assert AliasOk(s, alias); }
    forall x | 0 <= x < |s.records| ensures RecordKept(s.records[x], s'.records[x]) {}
    forall x | 0 <= x < |s.records| && Retained(s', x) ensures Retained(s, x) {}
  }

  lemma {:induction false} FreeIdIsFree(s: State, candidates: seq<string>)
    ensures FreeId(s, candidates).Some? ==>
              SafeAlias(FreeId(s, candidates).value) && FreeId(s, candidates).value !in s.aliases
  {
    if candidates != [] { FreeIdIsFree(s, candidates[1..]); }
  }

  lemma CreateSteps(s: State, session: Session, candidates: seq<string>, token: string, ownerAborted: bool, sources: Sources)
    requires Valid(s) && |candidates| == ID_ATTEMPTS
    ensures Steps(s, Create(s, session, candidates, token, ownerAborted, sources).0)
  {
    Unchanged(s);
    FreeIdIsFree(s, candidates);
    if Create(s, session, candidates, token, ownerAborted, sources).1.Ok? {
      var control := Create(s, session, candidates, token, ownerAborted, sources).1.value;
      var added := Add(s, control, session);
      AddSteps(s, control, session);
      CancelSteps(added, control, sources);
      var owned := if ownerAborted then Cancel(added, control, sources).0 else added;
      EvolvesTransitive(s, added, Cancel(added, control, sources).0);
      NotifySteps(s, owned, sources);
    }
  }

  lemma ObserveSteps(s: State, id: nat, p: Progress, sources: Sources)
    requires Valid(s) && id < |s.records| && Retained(s, id)
    ensures Steps(s, DoObserve(s, id, p, sources))
  {
    Unchanged(s);
    var r := s.records[id];
    var seen := Update(s, id, r.(progress := Some(p)));
    var conflicting := Update(s, id, r.(progress := Some(p), identityConflict := true));
    UpdateKeeps(s, id, r.(progress := Some(p)));
    UpdateKeeps(s, id, r.(progress := Some(p), identityConflict := true));
    NotifySteps(s, seen, sources);
    NotifySteps(s, conflicting, sources);
    if p.runId.Some? {
      var bound := BindAlias(seen, id, p.runId.value, ByRunId, false, sources).0;
      BindAliasSteps(seen, id, p.runId.value, ByRunId, false, sources);
      EvolvesTransitive(s, seen, bound);
      NotifySteps(s, bound, sources);
    }
  }

  lemma FinishSteps(s: State, id: nat, runId: string, terminal: Terminal, sources: Sources)
    requires Valid(s) && id < |s.records| && Retained(s, id)
    ensures Steps(s, DoFinish(s, id, runId, terminal, sources).0)
  {
    RefreshKeeps(s, id, sources);
    var current := Refresh(s, id, sources);
    BindAliasSteps(current, id, runId, ByRunId, false, sources);
    var bound := BindAlias(current, id, runId, ByRunId, false, sources).0;
    EvolvesTransitive(s, current, bound);
    TerminalizeSteps(current, id, terminal, false, sources);
    EvolvesTransitive(s, current, Terminalize(current, id, terminal, false, sources).0);
    BindKeepsLists(current, id, runId, sources);
    TerminalizeSteps(bound, id, terminal, false, sources);
    EvolvesTransitive(s, bound, Terminalize(bound, id, terminal, false, sources).0);
  }

  lemma BindKeepsLists(s: State, id: nat, alias: string, sources: Sources)
    requires id < |s.records|
    ensures SameLists(s, BindAlias(s, id, alias, ByRunId, false, sources).0)
  {
  }

  lemma HandleSteps(s: State, control: Control, request: Request, sources: Sources)
    requires Valid(s)
    ensures Steps(s, Handle(s, control, request, sources).0)
  {
    Unchanged(s);
    if Owned(s, control).Some? {
      var id := Owned(s, control).value;
      var r := s.records[id];
      assert AliasOk(s, control.localId);
      match request {
        case BindRunName(alias) => BindAliasSteps(s, id, alias, ByRunName, true, sources);
        case BindRunId(alias) => BindAliasSteps(s, id, alias, ByRunId, true, sources);
        case Finish(runId, terminal) => FinishSteps(s, id, runId, terminal, sources);
        case Fail(terminal) => TerminalizeSteps(s, id, terminal, true, sources);
        case SetObjective => NotifySteps(s, s, sources);
        case SetPhase =>
          var early := r.(sourced := false, progress := Some(Progress(SequenceOf(r.progress) + 1, None)));
          UpdateKeeps(s, id, early);
          NotifySteps(s, Update(s, id, early), sources);
        case AttachProgress =>
          var attached := Update(s, id, r.(sourced := true, progress := None));
          UpdateKeeps(s, id, r.(sourced := true, progress := None));
          RefreshKeeps(attached, id, sources);
          EvolvesTransitive(s, attached, Refresh(attached, id, sources));
          NotifySteps(s, Refresh(attached, id, sources), sources);
        case Observe(p) => ObserveSteps(s, id, p, sources);
      }
    }
  }

  lemma ApplySteps(s: State, call: Call, sources: Sources)
    requires Valid(s)
    ensures Steps(s, Apply(s, call, sources))
  {
    Unchanged(s);
    match call {
      case CallSetSession(session, valid) => SetSessionSteps(s, session, valid, sources);
      case CallInvalidateSession => InvalidateSessionSteps(s, sources);
      case CallCreate(session, candidates, token, ownerAborted) =>
        if |candidates| == ID_ATTEMPTS { CreateSteps(s, session, candidates, token, ownerAborted, sources); }
      case CallHandle(control, request) => HandleSteps(s, control, request, sources);
      case CallCancel(control) => CancelSteps(s, control, sources);
      case CallCancelLocalAlias(alias) =>
        if alias in s.aliases && s.aliases[alias] < |s.records| {
          CancelSteps(s, s.records[s.aliases[alias]].control, sources);
        }
      case CallResolve(alias) =>
        if alias in s.aliases {
          assert AliasOk(s, alias);
          RefreshKeeps(s, s.aliases[alias], sources);
        }
      case CallList => RefreshAllKeeps(s, s.active + s.recent, sources);
      case CallSubscribe => SubscribersStep(s, s.subscribers + 1);
      case CallUnsubscribe => if s.subscribers > 0 { SubscribersStep(s, s.subscribers - 1); }
    }
  }

  lemma SubscribersStep(s: State, subscribers: nat)
    requires Valid(s)
    ensures Steps(s, s.(subscribers := subscribers))
  {
    var s' := s.(subscribers := subscribers);
    Unchanged(s);
    forall x | x in s'.active ensures ActiveOk(s', x) { assert ActiveOk(s, x); }
    forall x | 0 <= x < |s'.records| && Retained(s', x) ensures NamesOk(s', x) {
      assert Retained(s, x) && NamesOk(s, x);
    }
    forall alias | alias in s'.aliases ensures AliasOk(s', alias) && AliasKept(s, s', alias) { assert AliasOk(s, alias); }
    forall x | 0 <= x < |s.records| ensures RecordKept(s.records[x], s'.records[x]) {}
  }

  // ----- Whole runs.

  lemma {:induction false} CallsKeepValid(calls: seq<(Call, Sources)>)
    ensures Valid(ApplyAll(calls))
  {
    if calls != [] {
      CallsKeepValid(calls[..|calls| - 1]);
      ApplySteps(ApplyAll(calls[..|calls| - 1]), calls[|calls| - 1].0, calls[|calls| - 1].1);
    }
  }

  /** From any earlier moment to any later one. */
  lemma {:induction false} CallsEvolve(calls: seq<(Call, Sources)>, k: nat)
    requires k <= |calls|
    ensures Evolves(ApplyAll(calls[..k]), ApplyAll(calls))
    decreases |calls|
  {
    if k == |calls| {
      assert calls[..k] == calls;
      Unchanged(ApplyAll(calls));
    } else {
      var front := calls[..|calls| - 1];
      assert front[..k] == calls[..k];
      CallsEvolve(front, k);
      CallsKeepValid(front);
      CallsKeepValid(calls[..k]);
      ApplySteps(ApplyAll(front), calls[|calls| - 1].0, calls[|calls| - 1].1);
      EvolvesTransitive(ApplyAll(calls[..k]), ApplyAll(front), ApplyAll(calls));
    }
  }

  /**
   * After any calls every alias leads to a retained run that bears it, no run is both active and recent, at most 16
   * are active and 32 recent, and an active run that nobody cancels belongs to the current session and generation.
   */
  lemma RegistryInvariant(calls: seq<(Call, Sources)>, alias: string, id: nat)
    ensures var s := ApplyAll(calls);
            && |s.active| <= MAX_ACTIVE && |s.recent| <= MAX_RECENT
            && !(id in s.active && id in s.recent)
            && (id in s.active ==>
                  && id < |s.records| && s.records[id].terminal.None?
                  && (!s.records[id].cancelRequested ==> s.session == Some(s.records[id].session)))
            && (alias in s.aliases ==>
                  && s.aliases[alias] < |s.records| && Retained(s, s.aliases[alias])
                  && s.records[s.aliases[alias]].Named(alias))
  {
    CallsKeepValid(calls);
    var s := ApplyAll(calls);
    if id in s.active { assert ActiveOk(s, id); }
    if alias in s.aliases { assert AliasOk(s, alias); }
  }

  /** An alias never changes its owner until the owner is evicted. */
  lemma AliasOwnerStable(calls: seq<(Call, Sources)>, k: nat, alias: string)
    requires k <= |calls| && alias in ApplyAll(calls[..k]).aliases
    ensures var owner, later := ApplyAll(calls[..k]).aliases[alias], ApplyAll(calls);
            Retained(later, owner) ==> alias in later.aliases && later.aliases[alias] == owner
  {
    CallsEvolve(calls, k);
    assert AliasKept(ApplyAll(calls[..k]), ApplyAll(calls), alias);
  }

  /** A terminal projection never changes, and neither does a requested cancellation or a bound identity. */
  lemma TerminalNeverChanges(calls: seq<(Call, Sources)>, k: nat, id: nat)
    requires k <= |calls| && id < |ApplyAll(calls[..k]).records|
    ensures var earlier, later := ApplyAll(calls[..k]).records[id], ApplyAll(calls).records;
            && id < |later|
            && (earlier.terminal.Some? ==> later[id].terminal == earlier.terminal)
            && (earlier.cancelRequested ==> later[id].cancelRequested)
            && (earlier.runId.Some? ==> later[id].runId == earlier.runId)
  {
    CallsEvolve(calls, k);
    assert RecordKept(ApplyAll(calls[..k]).records[id], ApplyAll(calls).records[id]);
  }
}
