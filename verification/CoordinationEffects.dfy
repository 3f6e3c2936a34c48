/** What single coordinator calls change, and what they leave alone, in any state of the registry. */
module CoordinationEffects {
  import opened Wrappers
  import opened Coordination
  import opened CoordinationSafety

  // ----- Reports of progress sources.

  /** A run differs at most in what its source reports; it keeps its run id, and an ended run does not change at all. */
  predicate OnlyReported(before: Record, after: Record) {
    && after == before.(runId := after.runId, progress := after.progress, identityConflict := after.identityConflict)
    && (before.runId.Some? ==> after.runId == before.runId)
    && (before.identityConflict ==> after.identityConflict)
    && SequenceOf(before.progress) <= SequenceOf(after.progress)
    && (before.terminal.Some? ==> after == before)
  }

  predicate OthersReported(before: State, after: State, id: nat) {
    && |after.records| == |before.records|
    && forall x | 0 <= x < |before.records| && x != id :: OnlyReported(before.records[x], after.records[x])
  }

  /** Every alias of the first state leads to the same run in the second. */
  predicate AliasesKept(before: State, after: State) {
    forall alias <- before.aliases :: PointsTo(after, alias, before.aliases[alias])
  }

  /** Nothing happened but reports; an alias that came with them is the run id that its owner reported first. */
  predicate Reported(before: State, after: State) {
    && SameLists(before, after) && AliasesKept(before, after)
    && (forall x | 0 <= x < |before.records| :: OnlyReported(before.records[x], after.records[x]))
    && forall alias <- after.aliases | alias !in before.aliases ::
         && after.aliases[alias] < |before.records| && before.records[after.aliases[alias]].runId.None?
         && after.records[after.aliases[alias]].runId == Some(alias)
  }

  lemma NothingReported(s: State)
    ensures Reported(s, s)
  {
  }

  lemma ReportedTransitive(a: State, b: State, c: State)
    requires Reported(a, b) && Reported(b, c)
    ensures Reported(a, c)
  {
    forall x | 0 <= x < |a.records| ensures OnlyReported(a.records[x], c.records[x]) {
      assert OnlyReported(a.records[x], b.records[x]) && OnlyReported(b.records[x], c.records[x]);
    }
    forall alias | alias in a.aliases ensures PointsTo(c, alias, a.aliases[alias]) {
      assert PointsTo(b, alias, a.aliases[alias]);
    }
    forall alias | alias in c.aliases && alias !in a.aliases
      ensures c.aliases[alias] < |a.records| && a.records[c.aliases[alias]].runId.None?
              && c.records[c.aliases[alias]].runId == Some(alias)
    {
      if alias in b.aliases {
        assert PointsTo(c, alias, b.aliases[alias]);
        assert OnlyReported(b.records[b.aliases[alias]], c.records[b.aliases[alias]]);
      } else {
        assert OnlyReported(a.records[c.aliases[alias]], b.records[c.aliases[alias]]);
      }
    }
  }

  /** The source of the run may be heard: it has one that answers, and it has not ended. */
  predicate Heard(s: State, id: nat, sources: Sources) {
    id < |s.records| && s.records[id].sourced && s.records[id].terminal.None? && id in sources
  }

  /** A run in conflict with its source: the id it reports is malformed or not the one the run has. */
  predicate Contradicts(p: Progress, r: Record) {
    p.runId.Some? && (!ValidRunId(p.runId.value) || r.runId != p.runId)
  }

  lemma RefreshReports(s: State, id: nat, sources: Sources)
    ensures var s' := Refresh(s, id, sources);
            Reported(s, s') && (forall x | 0 <= x < |s.records| && x != id :: s'.records[x] == s.records[x])
  {
    NothingReported(s);
    if Heard(s, id, sources) {
      var s' := Refresh(s, id, sources);
      forall x | 0 <= x < |s.records| ensures OnlyReported(s.records[x], s'.records[x]) {
        if x != id { assert s'.records[x] == s.records[x]; }
      }
    }
  }

  /** A refresh takes over the newer progress, and marks a run exactly when its source contradicts it even then. */
  predicate Refreshed(before: State, after: State, id: nat, sources: Sources) {
    && Reported(before, after)
    && (forall x | 0 <= x < |before.records| && x != id :: after.records[x] == before.records[x])
    && (!Heard(before, id, sources) ==> after == before)
    && (Heard(before, id, sources) ==>
          var r, r', p := before.records[id], after.records[id], sources[id];
          && r'.progress == (if p.sequence >= SequenceOf(r.progress) then Some(p) else r.progress)
          && (r'.identityConflict <==> r.identityConflict || Contradicts(p, r'))
          && (r'.runId != r.runId ==> r'.runId == p.runId && PointsTo(after, p.runId.value, id)))
  }

  lemma RefreshEffect(s: State, id: nat, sources: Sources)
    ensures Refreshed(s, Refresh(s, id, sources), id, sources)
  {
    RefreshReports(s, id, sources);
  }

  lemma {:induction false} RefreshAllReports(s: State, ids: seq<nat>, sources: Sources)
    ensures Reported(s, RefreshAll(s, ids, sources))
  {
    NothingReported(s);
    if ids != [] {
      var before := RefreshAll(s, ids[..|ids| - 1], sources);
      RefreshAllReports(s, ids[..|ids| - 1], sources);
      RefreshEffect(before, ids[|ids| - 1], sources);
      ReportedTransitive(s, before, RefreshAll(s, ids, sources));
    }
  }

  lemma NotifyReports(s: State, sources: Sources)
    ensures Reported(s, Notify(s, sources))
    ensures s.subscribers == 0 ==> Notify(s, sources) == s
  {
    NothingReported(s);
    RefreshAllReports(s, s.active + s.recent, sources);
  }

  // ----- Hearing the same reports again changes nothing.

  ghost predicate Settled(s: State, id: nat, sources: Sources) { Refresh(s, id, sources) == s }

  lemma RefreshSettles(s: State, id: nat, sources: Sources)
    ensures Settled(Refresh(s, id, sources), id, sources)
  {
    var s' := Refresh(s, id, sources);
    if Heard(s, id, sources) { assert s'.records[id := s'.records[id]] == s'.records; }
  }

  lemma SettledKept(s: State, id: nat, other: nat, sources: Sources)
    requires Settled(s, id, sources)
    ensures Settled(Refresh(s, other, sources), id, sources)
  {
    var s' := Refresh(s, other, sources);
    if id == other {
    } else if Heard(s, id, sources) {
      assert s'.records[id] == s.records[id] && s.records[id := s.records[id]] == s.records;
      RefreshedRecord(s, id, sources);
      RefreshEffect(s, other, sources);
      assert s'.records[id := s'.records[id]] == s'.records;
    }
  }

  lemma RefreshedRecord(s: State, id: nat, sources: Sources)
    requires Settled(s, id, sources) && Heard(s, id, sources)
    ensures var r, p := s.records[id], sources[id];
            && (p.sequence >= SequenceOf(r.progress) ==> r.progress == Some(p))
            && (p.runId.Some? ==>
                  if !ValidRunId(p.runId.value) || (r.runId.Some? && r.runId != p.runId) then r.identityConflict
                  else if r.runId.Some? then true
                  else r.identityConflict && p.runId.value in s.aliases && s.aliases[p.runId.value] != id)
  {
    var s' := Refresh(s, id, sources);
    assert s'.records[id] == s.records[id];
  }

  lemma {:induction false} AllSettle(s: State, ids: seq<nat>, sources: Sources)
    ensures forall id <- ids :: Settled(RefreshAll(s, ids, sources), id, sources)
  {
    if ids != [] {
      var front, last := ids[..|ids| - 1], ids[|ids| - 1];
      assert ids == front + [last];
      AllSettle(s, front, sources);
      var before := RefreshAll(s, front, sources);
      forall id | id in front ensures Settled(Refresh(before, last, sources), id, sources) {
        SettledKept(before, id, last, sources);
      }
      RefreshSettles(before, last, sources);
    }
  }

  lemma {:induction false} SettledStays(s: State, ids: seq<nat>, sources: Sources)
    requires forall id <- ids :: Settled(s, id, sources)
    ensures RefreshAll(s, ids, sources) == s
  {
    if ids != [] {
      assert ids == ids[..|ids| - 1] + [ids[|ids| - 1]];
      SettledStays(s, ids[..|ids| - 1], sources);
      assert Settled(s, ids[|ids| - 1], sources);
    }
  }

  /** Notifying subscribers twice of the same reports is notifying them once. */
  lemma NotifyIdempotent(s: State, sources: Sources)
    ensures Notify(Notify(s, sources), sources) == Notify(s, sources)
  {
    NotifyReports(s, sources);
    if s.subscribers > 0 {
      AllSettle(s, s.active + s.recent, sources);
      SettledStays(Notify(s, sources), s.active + s.recent, sources);
    }
  }

  // ----- Binding a name.

  function NameOf(r: Record, kind: AliasKind): Option<string> { if kind.ByRunId? then r.runId else r.runName }

  predicate ValidName(alias: string, kind: AliasKind) {
    if kind.ByRunId? then ValidRunId(alias) else ValidRunName(alias)
  }

  /** The run bears another name of this kind already, or another run bears this one. */
  predicate Collides(s: State, id: nat, alias: string, kind: AliasKind)
    requires id < |s.records|
  {
    NameOf(s.records[id], kind) != Some(alias)
    && (NameOf(s.records[id], kind).Some? || (alias in s.aliases && s.aliases[alias] != id))
  }

  /** A name is bound, or refused for the one reason there is; whatever was decided or bound before stays. */
  predicate NameBound(before: State, after: State, id: nat, alias: string, kind: AliasKind, outcome: Outcome)
    requires id < |before.records|
  {
    var ended, valid := before.records[id].terminal.Some?, ValidName(alias, kind);
    && (outcome == Refused(RunTerminal) <==> ended)
    && (outcome == Refused(InvalidAlias) <==> !ended && !valid)
    && (outcome == Refused(AliasCollision) <==> !ended && valid && Collides(before, id, alias, kind))
    && (outcome == Done <==> !ended && valid && !Collides(before, id, alias, kind))
    && (outcome != Done ==> after == before)
    && SameLists(before, after) && AliasesKept(before, after) && OthersReported(before, after, id)
    && after.records[id].terminal == before.records[id].terminal
    && after.records[id].cancelRequested == before.records[id].cancelRequested
    && (outcome == Done ==>
          && NameOf(after.records[id], kind) == Some(alias)
          && (NameOf(before.records[id], kind).None? ==> PointsTo(after, alias, id)))
  }

  lemma NamedThenNotified(s: State, id: nat, named: Record, alias: string, publish: bool, sources: Sources)
    requires id < |s.records| && (alias in s.aliases ==> s.aliases[alias] == id)
    requires named.terminal == s.records[id].terminal && named.cancelRequested == s.records[id].cancelRequested
    ensures var bound := Update(s, id, named).(aliases := s.aliases[alias := id]);
            var after := if publish then Notify(bound, sources) else bound;
            && SameLists(s, after) && AliasesKept(s, after) && OthersReported(s, after, id)
            && OnlyReported(named, after.records[id]) && PointsTo(after, alias, id)
  {
    var bound := Update(s, id, named).(aliases := s.aliases[alias := id]);
    NothingReported(bound);
    NotifyReports(bound, sources);
    var after := if publish then Notify(bound, sources) else bound;
    assert OnlyReported(bound.records[id], after.records[id]);
    forall x | 0 <= x < |s.records| && x != id ensures OnlyReported(s.records[x], after.records[x]) {
      assert OnlyReported(bound.records[x], after.records[x]);
    }
    forall a | a in s.aliases ensures PointsTo(after, a, s.aliases[a]) {
      assert a in bound.aliases && PointsTo(after, a, bound.aliases[a]);
    }
    assert alias in bound.aliases && PointsTo(after, alias, bound.aliases[alias]);
  }

  lemma BindEffect(s: State, id: nat, alias: string, kind: AliasKind, publish: bool, sources: Sources)
    requires id < |s.records|
    ensures var (s', outcome) := BindAlias(s, id, alias, kind, publish, sources);
            NameBound(s, s', id, alias, kind, outcome)
  {
    var r := s.records[id];
    NothingReported(s);
    if BindAlias(s, id, alias, kind, publish, sources).1 == Done && NameOf(r, kind).None? {
      var named := if kind.ByRunId? then r.(runId := Some(alias)) else r.(runName := Some(alias));
      NamedThenNotified(s, id, named, alias, publish, sources);
    }
  }

  // ----- Requesting cancellation.

  /** The holder of a live run's control gets it cancelled, once; everybody else is told why not. */
  predicate CancelHandled(before: State, after: State, control: Control, outcome: Outcome) {
    var owned := Owned(before, control);
    && (outcome == Refused(RunNotFound) <==> control.localId !in before.aliases)
    && (outcome == Refused(RunNotOwned) <==> control.localId in before.aliases && owned.None?)
    && (outcome == Refused(RunTerminal) <==> owned.Some? && before.records[owned.value].terminal.Some?)
    && (outcome == AlreadyRequested <==>
          && owned.Some? && before.records[owned.value].terminal.None?
          && before.records[owned.value].cancelRequested)
    && (outcome != Done ==> after == before)
    && SameLists(before, after) && AliasesKept(before, after)
    && (outcome == Done ==>
          && OthersReported(before, after, owned.value)
          && OnlyReported(before.records[owned.value].(cancelRequested := true), after.records[owned.value]))
  }

  lemma CancelEffect(s: State, control: Control, sources: Sources)
    ensures var (s', outcome) := Cancel(s, control, sources); CancelHandled(s, s', control, outcome)
  {
    if Owned(s, control).Some? {
      var id := Owned(s, control).value;
      var requested := Update(s, id, s.records[id].(cancelRequested := true));
      NotifyReports(requested, sources);
      forall x | 0 <= x < |s.records| && x != id
        ensures OnlyReported(s.records[x], Notify(requested, sources).records[x])
      {
        assert OnlyReported(requested.records[x], Notify(requested, sources).records[x]);
      }
    }
  }

  // ----- Ending a run.

  /** The latest ended runs, and those that no longer fit. */
  function Newest(ids: seq<nat>): seq<nat> { if |ids| <= MAX_RECENT then ids else ids[..MAX_RECENT] }

  function Excess(ids: seq<nat>): seq<nat> { if |ids| <= MAX_RECENT then [] else ids[MAX_RECENT..] }

  /** Only names of runs that no longer fit are forgotten. */
  lemma {:induction false} EvictEffect(s: State)
    ensures var s' := EvictExcess(s);
            && s' == s.(recent := Newest(s.recent), aliases := s'.aliases)
            && forall alias <- s.aliases | s.aliases[alias] !in Excess(s.recent) :: PointsTo(s', alias, s.aliases[alias])
    decreases |s.recent|
  {
    if |s.recent| > MAX_RECENT {
      var last := s.recent[|s.recent| - 1];
      var shorter := s.(recent := s.recent[..|s.recent| - 1]);
      var next := if last < |s.records| then Unbind(shorter, last) else shorter;
      EvictEffect(next);
      assert Excess(s.recent) == Excess(next.recent) + [last];
      forall alias | alias in s.aliases && s.aliases[alias] !in Excess(s.recent)
        ensures PointsTo(EvictExcess(s), alias, s.aliases[alias])
      {
        assert last in Excess(s.recent);
        assert alias in next.aliases;
      }
    }
  }

  /** The run moves from the active to the latest ended ones with this terminal; nobody else is ended or revived. */
  ghost predicate Ended(before: State, after: State, id: nat, terminal: Terminal)
    requires id < |before.records|
  {
    && OthersReported(before, after, id)
    && after.records[id].terminal == Some(terminal) && !after.records[id].sourced
    && (forall x :: x in after.active <==> x in before.active && x != id)
    && after.recent == Newest([id] + before.recent)
    && (forall alias <- before.aliases | before.aliases[alias] !in Excess([id] + before.recent) ::
          PointsTo(after, alias, before.aliases[alias]))
    && after.session == before.session && after.minimumGeneration == before.minimumGeneration
  }

  lemma RetireEffect(s: State, id: nat, terminal: Terminal, sources: Sources)
    requires id < |s.records|
    ensures Ended(s, Notify(EvictExcess(Retire(s, id, terminal)), sources), id, terminal)
    ensures var r := Notify(EvictExcess(Retire(s, id, terminal)), sources).records[id];
            r.runId == s.records[id].runId && r.identityConflict == s.records[id].identityConflict
  {
    var retired := Retire(s, id, terminal);
    EvictEffect(retired);
    var evicted := EvictExcess(retired);
    NotifyReports(evicted, sources);
    var after := Notify(evicted, sources);
    assert OnlyReported(evicted.records[id], after.records[id]);
    forall x | 0 <= x < |s.records| && x != id ensures OnlyReported(s.records[x], after.records[x]) {
      assert OnlyReported(evicted.records[x], after.records[x]);
    }
    forall alias | alias in s.aliases && s.aliases[alias] !in Excess([id] + s.recent)
      ensures PointsTo(after, alias, s.aliases[alias])
    {
      assert PointsTo(evicted, alias, s.aliases[alias]);
    }
  }

  /** What ends after reports came in has ended all the same. */
  lemma EndedAfterReports(before: State, heard: State, after: State, id: nat, terminal: Terminal)
    requires id < |before.records| && Reported(before, heard) && Ended(heard, after, id, terminal)
    ensures Ended(before, after, id, terminal)
  {
    forall x | 0 <= x < |before.records| && x != id ensures OnlyReported(before.records[x], after.records[x]) {
      assert OnlyReported(before.records[x], heard.records[x]) && OnlyReported(heard.records[x], after.records[x]);
    }
    forall alias | alias in before.aliases && before.aliases[alias] !in Excess([id] + before.recent)
      ensures PointsTo(after, alias, before.aliases[alias])
    {
      assert PointsTo(heard, alias, before.aliases[alias]);
    }
  }

  lemma TerminalizeEffect(s: State, id: nat, terminal: Terminal, refresh: bool, sources: Sources)
    requires id < |s.records|
    ensures var (s', outcome) := Terminalize(s, id, terminal, refresh, sources);
            if s.records[id].terminal.Some? then outcome == Refused(RunTerminal) && s' == s
            else outcome == Done && Ended(s, s', id, terminal)
  {
    NothingReported(s);
    RefreshReports(s, id, sources);
    var current := if refresh then Refresh(s, id, sources) else s;
    RetireEffect(current, id, terminal, sources);
    EndedAfterReports(s, current, Notify(EvictExcess(Retire(current, id, terminal)), sources), id, terminal);
  }

  // ----- Observing progress and finishing.

  /** A stale report is ignored; of any other the run has at least its progress, and its run id or a conflict. */
  predicate Observed(before: State, after: State, id: nat, p: Progress)
    requires id < |before.records|
  {
    var r := before.records[id];
    && SameLists(before, after) && AliasesKept(before, after) && OthersReported(before, after, id)
    && (p.sequence < SequenceOf(r.progress) ==> after == before)
    && (p.sequence >= SequenceOf(r.progress) ==>
          var r' := after.records[id];
          && SequenceOf(r'.progress) >= p.sequence && r'.terminal == r.terminal
          && (r.runId.Some? ==> r'.runId == r.runId) && (r.identityConflict ==> r'.identityConflict)
          && (p.runId.Some? ==> r'.identityConflict || r'.runId == p.runId)
          && (before.subscribers == 0 ==>
                r'.progress == Some(p)
                && (r'.identityConflict <==> r.identityConflict || (p.runId.Some? && r'.runId != p.runId))))
  }

  lemma ToldLeaves(s: State, id: nat, p: Progress, sources: Sources)
    requires id < |s.records| && p.sequence >= SequenceOf(s.records[id].progress)
    ensures var s' := Told(s, id, p, sources);
            && SameLists(s, s') && AliasesKept(s, s')
            && (forall x | 0 <= x < |s.records| && x != id :: s'.records[x] == s.records[x])
  {
  }

  lemma ToldEffect(s: State, id: nat, p: Progress, sources: Sources)
    requires id < |s.records| && p.sequence >= SequenceOf(s.records[id].progress)
    ensures |Told(s, id, p, sources).records| == |s.records|
    ensures var r, r' := s.records[id], Told(s, id, p, sources).records[id];
            && r'.progress == Some(p) && r'.terminal == r.terminal && (r.runId.Some? ==> r'.runId == r.runId)
            && (r'.identityConflict <==> r.identityConflict || (p.runId.Some? && r'.runId != p.runId))
  {
  }

  lemma ObserveEffect(s: State, id: nat, p: Progress, sources: Sources)
    requires id < |s.records|
    ensures Observed(s, DoObserve(s, id, p, sources), id, p)
  {
    if p.sequence >= SequenceOf(s.records[id].progress) {
      ToldLeaves(s, id, p, sources);
      ToldEffect(s, id, p, sources);
      var told := Told(s, id, p, sources);
      var after := Notify(told, sources);
      NotifyReports(told, sources);
      assert OnlyReported(told.records[id], after.records[id]);
      forall x | 0 <= x < |s.records| && x != id ensures OnlyReported(s.records[x], after.records[x]) {
        assert OnlyReported(told.records[x], after.records[x]);
      }
    }
  }

  /** A run ends as finished only under its own run id and without any conflict; otherwise it does not end. */
  ghost predicate FinishHandled(before: State, after: State, id: nat, runId: string, terminal: Terminal, outcome: Outcome)
    requires id < |before.records| == |after.records|
  {
    var r' := after.records[id];
    && (outcome == Refused(IdentityMismatch) <==> r'.identityConflict || (r'.runId.Some? && r'.runId != Some(runId)))
    && (outcome == Done ==> before.records[id].terminal.None? && r'.runId == Some(runId) && Ended(before, after, id, terminal))
    && (outcome != Done ==> outcome.Refused? && Reported(before, after))
    && (outcome != Done && outcome != Refused(IdentityMismatch) ==>
          || before.records[id].terminal.Some? || !ValidRunId(runId)
          || (runId in after.aliases && after.aliases[runId] != id))
  }

  lemma BoundThenEnded(s: State, bound: State, after: State, id: nat, alias: string, terminal: Terminal)
    requires id < |s.records| && NameBound(s, bound, id, alias, ByRunId, Done) && Ended(bound, after, id, terminal)
    ensures Ended(s, after, id, terminal)
  {
    forall x | 0 <= x < |s.records| && x != id ensures OnlyReported(s.records[x], after.records[x]) {
      assert OnlyReported(s.records[x], bound.records[x]) && OnlyReported(bound.records[x], after.records[x]);
    }
    forall a | a in s.aliases && s.aliases[a] !in Excess([id] + s.recent) ensures PointsTo(after, a, s.aliases[a]) {
      assert PointsTo(bound, a, s.aliases[a]);
    }
  }

  lemma FinishEffect(s: State, id: nat, runId: string, terminal: Terminal, sources: Sources)
    requires id < |s.records|
    ensures var (s', outcome) := DoFinish(s, id, runId, terminal, sources);
            |s'.records| == |s.records| && FinishHandled(s, s', id, runId, terminal, outcome)
  {
    var current := Refresh(s, id, sources);
    RefreshReports(s, id, sources);
    assert OnlyReported(s.records[id], current.records[id]);
    BindEffect(current, id, runId, ByRunId, false, sources);
    var bound := if current.records[id].runId.None? then BindAlias(current, id, runId, ByRunId, false, sources).0 else current;
    RetireEffect(bound, id, terminal, sources);
    TerminalizeEffect(bound, id, terminal, false, sources);
    var after := Terminalize(bound, id, terminal, false, sources).0;
    if DoFinish(s, id, runId, terminal, sources).1 == Done {
      if current.records[id].runId.None? { BoundThenEnded(current, bound, after, id, runId, terminal); }
      EndedAfterReports(s, current, after, id, terminal);
    }
  }
}
