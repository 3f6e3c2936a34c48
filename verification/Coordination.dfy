/**
 * What the run coordinator's operations do to its registry (src/extension/run-coordinator.ts), as functions on values.
 *
 * Records are numbered in creation order. `Sources` gives what each record's progress source currently reports; a
 * missing entry is a source that throws.
 */
module Coordination {
  import opened Wrappers

  const MAX_ACTIVE := 16
  const MAX_RECENT := 32
  const MAX_SUBSCRIBERS := 32
  const ID_ATTEMPTS := 8

  datatype Status = Completed | Failed | Cancelled

  datatype Terminal = Terminal(status: Status, errorCode: Option<string>, warningCodes: seq<string>)

  datatype Progress = Progress(sequence: int, runId: Option<string>)

  type Sources = map<nat, Progress>

  datatype Control = Control(localId: string, token: string)

  datatype Session = Session(sessionId: string, generation: nat)

  datatype Record = Record(
    control: Control, session: Session, runId: Option<string>, runName: Option<string>, progress: Option<Progress>,
    sourced: bool, identityConflict: bool, cancelRequested: bool, terminal: Option<Terminal>)
  {
    predicate Named(alias: string) {
      alias == control.localId || runId == Some(alias) || runName == Some(alias)
    }
  }

  /** `active` is in creation order, `recent` has the latest terminal run first. */
  datatype State = State(
    records: seq<Record>, active: seq<nat>, recent: seq<nat>, aliases: map<string, nat>,
    session: Option<Session>, minimumGeneration: nat, subscribers: nat)

  datatype Code =
    | RunNotFound | RunNotOwned | RunTerminal | AliasCollision | InvalidAlias | IdentityMismatch
    | SessionInvalid | StaleGeneration | ActiveLimit | IdCollision | TokenInvalid | SubscriberLimit

  datatype Outcome = Done | AlreadyRequested | Refused(code: Code)

  // ----- Identifiers.

  predicate LowerHex(c: char) { '0' <= c <= '9' || 'a' <= c <= 'f' }

  predicate HexAfter(text: string, prefix: string, digits: nat) {
    |text| == |prefix| + digits && text[..|prefix|] == prefix && forall c <- text[|prefix|..] :: LowerHex(c)
  }

  predicate ValidRunId(text: string) { HexAfter(text, "run_", 64) }

  predicate ValidRunName(text: string) { HexAfter(text, "run-", 32) }

  predicate Alphanumeric(c: char) { '0' <= c <= '9' || 'a' <= c <= 'z' || 'A' <= c <= 'Z' }

  predicate SafeAlias(text: string) {
    1 <= |text| <= 128 && forall c <- text :: Alphanumeric(c) || c in "_.:-"
  }

  predicate ValidToken(text: string) {
    32 <= |text| <= 256 && forall c <- text :: Alphanumeric(c) || c in "_-"
  }

  // ----- Small steps.

  function Update(s: State, id: nat, r: Record): State
    requires id < |s.records|
  {
    s.(records := s.records[id := r])
  }

  function SequenceOf(p: Option<Progress>): int { if p.Some? then p.value.sequence else -1 }

  /** Take over a source's report; a run id is adopted once, unless it contradicts what is known. */
  function Refresh(s: State, id: nat, sources: Sources): State {
    if id >= |s.records| || !s.records[id].sourced || s.records[id].terminal.Some? || id !in sources then s
    else
      var p, r := sources[id], s.records[id];
      var seen := if p.sequence >= SequenceOf(r.progress) then r.(progress := Some(p)) else r;
      match p.runId
      case None => Update(s, id, seen)
      case Some(runId) =>
        if !ValidRunId(runId) || (r.runId.Some? && r.runId.value != runId) then
          Update(s, id, seen.(identityConflict := true))
        else if r.runId.Some? then Update(s, id, seen)
        else if runId in s.aliases && s.aliases[runId] != id then Update(s, id, seen.(identityConflict := true))
        else Update(s, id, seen.(runId := Some(runId))).(aliases := s.aliases[runId := id])
  }

  function RefreshAll(s: State, ids: seq<nat>, sources: Sources): State {
    if ids == [] then s else Refresh(RefreshAll(s, ids[..|ids| - 1], sources), ids[|ids| - 1], sources)
  }

  /** Subscribers are handed a fresh listing of all runs. */
  function Notify(s: State, sources: Sources): State {
    if s.subscribers == 0 then s else RefreshAll(s, s.active + s.recent, sources)
  }

  function Without(ids: seq<nat>, id: nat): (r: seq<nat>)
    ensures |r| <= |ids| && forall x :: x in r <==> x in ids && x != id
  {
    if ids == [] then []
    else
      var front, last := ids[..|ids| - 1], ids[|ids| - 1];
      assert ids == front + [last];
      if last == id then Without(front, id) else Without(front, id) + [last]
  }

  /** Forget every alias of a record that still points to it. */
  function Unbind(s: State, id: nat): State
    requires id < |s.records|
  {
    s.(aliases := map alias <- s.aliases | !(s.records[id].Named(alias) && s.aliases[alias] == id) :: s.aliases[alias])
  }

  function EvictExcess(s: State): State
    decreases |s.recent|
  {
    if |s.recent| <= MAX_RECENT then s
    else
      var last := s.recent[|s.recent| - 1];
      var shorter := s.(recent := s.recent[..|s.recent| - 1]);
      EvictExcess(if last < |s.records| then Unbind(shorter, last) else shorter)
  }

  /** An active run becomes terminal, once and for all. */
  function Retire(s: State, id: nat, terminal: Terminal): State
    requires id < |s.records|
  {
    Update(s, id, s.records[id].(sourced := false, terminal := Some(terminal)))
      .(active := Without(s.active, id), recent := [id] + s.recent)
  }

  function Terminalize(s: State, id: nat, terminal: Terminal, refresh: bool, sources: Sources): (State, Outcome)
    requires id < |s.records|
  {
    if s.records[id].terminal.Some? then (s, Refused(RunTerminal))
    else
      var current := if refresh then Refresh(s, id, sources) else s;
      (if id < |current.records| then Notify(EvictExcess(Retire(current, id, terminal)), sources) else current, Done)
  }

  datatype AliasKind = ByRunId | ByRunName

  function BindAlias(s: State, id: nat, alias: string, kind: AliasKind, publish: bool, sources: Sources): (State, Outcome)
    requires id < |s.records|
  {
    var r := s.records[id];
    var prior := if kind.ByRunId? then r.runId else r.runName;
    if r.terminal.Some? then (s, Refused(RunTerminal))
    else if !(if kind.ByRunId? then ValidRunId(alias) else ValidRunName(alias)) then (s, Refused(InvalidAlias))
    else if prior == Some(alias) then (s, Done)
    else if prior.Some? || (alias in s.aliases && s.aliases[alias] != id) then (s, Refused(AliasCollision))
    else
      var named := if kind.ByRunId? then r.(runId := Some(alias)) else r.(runName := Some(alias));
      var bound := Update(s, id, named).(aliases := s.aliases[alias := id]);
      (if publish then Notify(bound, sources) else bound, Done)
  }

  function Owned(s: State, control: Control): Option<nat> {
    if control.localId in s.aliases && s.aliases[control.localId] < |s.records|
       && s.records[s.aliases[control.localId]].control == control
    then Some(s.aliases[control.localId])
    else None
  }

  function Cancel(s: State, control: Control, sources: Sources): (State, Outcome) {
    match Owned(s, control)
    case None => (s, Refused(if control.localId in s.aliases then RunNotOwned else RunNotFound))
    case Some(id) =>
      var r := s.records[id];
      if r.terminal.Some? then (s, Refused(RunTerminal))
      else if r.cancelRequested then (s, AlreadyRequested)
      else (Notify(Update(s, id, r.(cancelRequested := true)), sources), Done)
  }

  /** Cancel runs one after the other, by their own control. */
  function CancelEach(s: State, ids: seq<nat>, sources: Sources): State {
    if ids == [] then s
    else
      var before := CancelEach(s, ids[..|ids| - 1], sources);
      var id := ids[|ids| - 1];
      if id < |before.records| then Cancel(before, before.records[id].control, sources).0 else before
  }

  // ----- The coordinator's operations.

  function SetSession(s: State, session: Session, valid: bool, sources: Sources): (State, Outcome) {
    if !valid then (s, Refused(SessionInvalid))
    else if session.generation < s.minimumGeneration
            || (s.session.Some? && session.generation < s.session.value.generation)
            || (s.session.Some? && session.generation == s.session.value.generation
                && s.session.value.sessionId != session.sessionId) then (s, Refused(StaleGeneration))
    else
      var quiet :=
        if s.session.Some? && s.session.value.generation != session.generation then CancelEach(s, s.active, sources)
        else s;
      (quiet.(session := Some(session),
              minimumGeneration :=
                if quiet.minimumGeneration < session.generation then session.generation else quiet.minimumGeneration),
       Done)
  }

  function InvalidateSession(s: State, sources: Sources): State {
    var quiet := CancelEach(s, s.active, sources);
    quiet.(
      session := None,
      minimumGeneration :=
        if quiet.session.Some? && quiet.minimumGeneration < quiet.session.value.generation + 1
        then quiet.session.value.generation + 1 else quiet.minimumGeneration)
  }

  /** The first safe and unused one of the candidates. */
  function FreeId(s: State, candidates: seq<string>): Option<string> {
    if candidates == [] then None
    else if SafeAlias(candidates[0]) && candidates[0] !in s.aliases then Some(candidates[0])
    else FreeId(s, candidates[1..])
  }

  function Add(s: State, control: Control, session: Session): State {
    var id := |s.records|;
    s.(records := s.records + [Record(control, session, None, None, None, false, false, false, None)],
       active := s.active + [id], aliases := s.aliases[control.localId := id])
  }

  function Create(s: State, session: Session, candidates: seq<string>, token: string, ownerAborted: bool, sources: Sources)
    : (State, Result<Control, Code>)
    requires |candidates| == ID_ATTEMPTS
  {
    if s.session != Some(session) then (s, Err(StaleGeneration))
    else if |s.active| >= MAX_ACTIVE then (s, Err(ActiveLimit))
    else
      match FreeId(s, candidates)
      case None => (s, Err(IdCollision))
      case Some(localId) =>
        if !ValidToken(token) then (s, Err(TokenInvalid))
        else
          var control := Control(localId, token);
          var added := Add(s, control, session);
          var owned := if ownerAborted then Cancel(added, control, sources).0 else added;
          (Notify(owned, sources), Ok(control))
  }

  /** What the owner of a run can do through its handle. */
  datatype Request =
    | SetObjective
    | SetPhase
    | BindRunName(alias: string)
    | BindRunId(alias: string)
    | AttachProgress
    | Observe(progress: Progress)
    | Finish(runId: string, terminal: Terminal)
    | Fail(terminal: Terminal)

  /** What the run is told, before its subscribers hear of it. */
  function Told(s: State, id: nat, p: Progress, sources: Sources): State
    requires id < |s.records|
  {
    var r := s.records[id];
    var seen := Update(s, id, r.(progress := Some(p)));
    if p.runId.None? then seen
    else if r.runId.Some? then
      (if r.runId != p.runId then Update(s, id, r.(progress := Some(p), identityConflict := true)) else seen)
    else
      var (bound, outcome) := BindAlias(seen, id, p.runId.value, ByRunId, false, sources);
      if outcome == Done then bound else Update(s, id, r.(progress := Some(p), identityConflict := true))
  }

  function DoObserve(s: State, id: nat, p: Progress, sources: Sources): State
    requires id < |s.records|
  {
    if p.sequence < SequenceOf(s.records[id].progress) then s else Notify(Told(s, id, p, sources), sources)
  }

  function DoFinish(s: State, id: nat, runId: string, terminal: Terminal, sources: Sources): (State, Outcome)
    requires id < |s.records|
  {
    var current := Refresh(s, id, sources);
    if id >= |current.records| then (current, Done)
    else if current.records[id].identityConflict
            || (current.records[id].runId.Some? && current.records[id].runId.value != runId) then
      (current, Refused(IdentityMismatch))
    else
      var (bound, outcome) :=
        if current.records[id].runId.None? then BindAlias(current, id, runId, ByRunId, false, sources) else (current, Done);
      if outcome != Done || id >= |bound.records| then (bound, outcome)
      else Terminalize(bound, id, terminal, false, sources)
  }

  /** What the owner tells of a run that has not ended. */
  function Informing(s: State, id: nat, request: Request, sources: Sources): State
    requires id < |s.records|
    requires request.SetObjective? || request.SetPhase? || request.AttachProgress? || request.Observe?
  {
    var r := s.records[id];
    match request
    case SetObjective => Notify(s, sources)
    case SetPhase =>
      var early := Progress(SequenceOf(r.progress) + 1, None);
      Notify(Update(s, id, r.(sourced := false, progress := Some(early))), sources)
    case AttachProgress => Notify(Refresh(Update(s, id, r.(sourced := true, progress := None)), id, sources), sources)
    case Observe(p) => DoObserve(s, id, p, sources)
  }

  function Handle(s: State, control: Control, request: Request, sources: Sources): (State, Outcome) {
    match Owned(s, control)
    case None => (s, Refused(RunNotOwned))
    case Some(id) =>
      var r := s.records[id];
      match request
      case BindRunName(alias) => BindAlias(s, id, alias, ByRunName, true, sources)
      case BindRunId(alias) => BindAlias(s, id, alias, ByRunId, true, sources)
      case Finish(runId, terminal) => DoFinish(s, id, runId, terminal, sources)
      case Fail(terminal) => Terminalize(s, id, terminal, true, sources)
      case _ => if r.terminal.Some? then (s, Refused(RunTerminal)) else (Informing(s, id, request, sources), Done)
  }

  function CancelLocalAlias(s: State, alias: string, sources: Sources): (State, Outcome) {
    if !SafeAlias(alias) || alias !in s.aliases || s.aliases[alias] >= |s.records|
       || s.records[s.aliases[alias]].control.localId != alias then (s, Refused(RunNotFound))
    else Cancel(s, s.records[s.aliases[alias]].control, sources)
  }

  /** One public call, or the owner's abort signal. */
  datatype Call =
    | CallSetSession(session: Session, valid: bool)
    | CallInvalidateSession
    | CallCreate(creation: Session, candidates: seq<string>, token: string, ownerAborted: bool)
    | CallHandle(owner: Control, request: Request)
    | CallCancel(control: Control)
    | CallCancelLocalAlias(alias: string)
    | CallResolve(name: string)
    | CallList
    | CallSubscribe
    | CallUnsubscribe

  function Apply(s: State, call: Call, sources: Sources): State {
    match call
    case CallSetSession(session, valid) => SetSession(s, session, valid, sources).0
    case CallInvalidateSession => InvalidateSession(s, sources)
    case CallCreate(session, candidates, token, ownerAborted) =>
      if |candidates| == ID_ATTEMPTS then Create(s, session, candidates, token, ownerAborted, sources).0 else s
    case CallHandle(control, request) => Handle(s, control, request, sources).0
    case CallCancel(control) => Cancel(s, control, sources).0
    case CallCancelLocalAlias(alias) => CancelLocalAlias(s, alias, sources).0
    case CallResolve(alias) => if SafeAlias(alias) && alias in s.aliases then Refresh(s, s.aliases[alias], sources) else s
    case CallList => RefreshAll(s, s.active + s.recent, sources)
    case CallSubscribe => if s.subscribers >= MAX_SUBSCRIBERS then s else s.(subscribers := s.subscribers + 1)
    case CallUnsubscribe => if s.subscribers == 0 then s else s.(subscribers := s.subscribers - 1)
  }

  function Start(): State { State([], [], [], map[], None, 0, 0) }

  function ApplyAll(calls: seq<(Call, Sources)>): State {
    if calls == [] then Start() else Apply(ApplyAll(calls[..|calls| - 1]), calls[|calls| - 1].0, calls[|calls| - 1].1)
  }
}
