/**
 * Binding stable call keys (src/runtime/broker.ts): any number of calls bind keys concurrently, and each append to the
 * journal may succeed, fail without a durable event, or fail after the event became durable.
 *
 * An action is one uninterrupted stretch between two awaits. Hashes are injective, so a claim carries its identity.
 */
module KeyBindingProtocol {
  import opened Wrappers
  import Journal

  datatype Claim = Claim(id: Journal.RegistryId, identity: string)

  datatype BindingState = Pending | Durable | DurableFailed

  /** The binding object that one call installed in one of its slots. */
  datatype Binding = Binding(identity: string, state: BindingState, call: nat, slot: nat)

  datatype BindError = KeyIdentityChanged | AppendFailed(eventDurable: bool)

  datatype Phase =
    | Checking
    | Waiting(pending: set<(nat, nat)>)
    | Appending(written: bool)
    | Returned
    | Failed(error: BindError)

  /** One `bindKeys` call. Its first `resolved` installed bindings are durable. */
  datatype Call = Call(requested: seq<Claim>, installed: seq<Claim>, resolved: nat, phase: Phase)

  datatype State = State(registry: map<Journal.RegistryId, Binding>, journal: seq<Claim>, calls: seq<Call>)

  datatype AppendOutcome = Appended | NotDurable | DurableButFailed

  datatype Action =
    | Begin(claims: seq<Claim>)
    | Check(call: nat)
    | Wake(call: nat, rejection: Option<(nat, nat)>)
    | Write(call: nat)
    | Resolve(call: nat, outcome: AppendOutcome)

  function Find(claims: seq<Claim>, id: Journal.RegistryId): (r: Option<Claim>)
    ensures r.Some? ==> r.value in claims && r.value.id == id
    ensures r.None? ==> forall c <- claims :: c.id != id
  {
    if claims == [] then None
    else
      match Find(claims[..|claims| - 1], id)
      case Some(c) => Some(c)
      case None => if claims[|claims| - 1].id == id then Some(claims[|claims| - 1]) else None
  }

  predicate Distinct(claims: seq<Claim>) {
    forall i, j | 0 <= i < j < |claims| :: claims[i].id != claims[j].id
  }

  /** Repeated claims collapse; a repetition with another identity is refused. */
  function Requests(claims: seq<Claim>): (r: Result<seq<Claim>, BindError>)
    ensures r.Ok? ==> Distinct(r.value) && forall c :: c in claims <==> c in r.value
    ensures r.Err? <==> exists a <- claims, b <- claims :: a.id == b.id && a.identity != b.identity
  {
    if claims == [] then Ok([])
    else
      var front, last := claims[..|claims| - 1], claims[|claims| - 1];
      assert claims == front + [last];
      match Requests(front)
      case Err(e) => Err(e)
      case Ok(requested) =>
        match Find(requested, last.id)
        case None => Ok(requested + [last])
        case Some(prior) => if prior.identity != last.identity then Err(KeyIdentityChanged) else Ok(requested)
  }

  /** The first claim that cannot be bound, if any. */
  function Refusal(registry: map<Journal.RegistryId, Binding>, requested: seq<Claim>): (r: Option<BindError>)
    ensures r.None? <==>
            forall c <- requested | c.id in registry ::
              registry[c.id].identity == c.identity && !registry[c.id].state.DurableFailed?
  {
    if requested == [] then None
    else
      var front, c := requested[..|requested| - 1], requested[|requested| - 1];
      assert requested == front + [c];
      match Refusal(registry, front)
      case Some(e) => Some(e)
      case None =>
        if c.id in registry && registry[c.id].identity != c.identity then Some(KeyIdentityChanged)
        else if c.id in registry && registry[c.id].state.DurableFailed? then Some(AppendFailed(true))
        else None
  }

  function Additions(registry: map<Journal.RegistryId, Binding>, requested: seq<Claim>): (r: seq<Claim>)
    ensures forall c :: c in r <==> c in requested && c.id !in registry
    ensures Distinct(requested) ==> Distinct(r)
  {
    if requested == [] then []
    else
      var front, c := requested[..|requested| - 1], requested[|requested| - 1];
      assert requested == front + [c];
      var rest := Additions(registry, front);
      if c.id in registry then rest else rest + [c]
  }

  function PendingOf(registry: map<Journal.RegistryId, Binding>, requested: seq<Claim>): set<(nat, nat)> {
    set c <- requested | c.id in registry && registry[c.id].state.Pending? :: (registry[c.id].call, registry[c.id].slot)
  }

  /** Every addition becomes a pending binding owned by the call. */
  function Install(registry: map<Journal.RegistryId, Binding>, additions: seq<Claim>, call: nat): map<Journal.RegistryId, Binding> {
    if additions == [] then registry
    else
      var last := |additions| - 1;
      Install(registry, additions[..last], call)[additions[last].id :=
        Binding(additions[last].identity, Pending, call, last)]
  }

  function DoBegin(s: State, claims: seq<Claim>): State {
    match Requests(claims)
    case Err(e) => s.(calls := s.calls + [Call([], [], 0, Failed(e))])
    case Ok(requested) => s.(calls := s.calls + [Call(requested, [], 0, Checking)])
  }

  function DoCheck(s: State, k: nat): State
    requires k < |s.calls| && s.calls[k].phase.Checking?
  {
    var call := s.calls[k];
    match Refusal(s.registry, call.requested)
    case Some(e) => s.(calls := s.calls[k := call.(phase := Failed(e))])
    case None =>
      var pending, additions := PendingOf(s.registry, call.requested), Additions(s.registry, call.requested);
      if pending != {} then s.(calls := s.calls[k := call.(phase := Waiting(pending))])
      else if additions == [] then s.(calls := s.calls[k := call.(phase := Returned)])
      else s.(
        registry := Install(s.registry, additions, k),
        calls := s.calls[k := call.(installed := additions, phase := Appending(false))])
  }

  datatype Promise = Unsettled | Resolved | Rejected

  function Ready(calls: seq<Call>, binding: (nat, nat)): (r: Promise)
    ensures r.Rejected? ==> binding.0 < |calls| && calls[binding.0].phase.Failed?
  {
    if binding.0 >= |calls| then Unsettled
    else if binding.1 < calls[binding.0].resolved then Resolved
    else if calls[binding.0].phase.Failed? then Rejected
    else Unsettled
  }

  /** All awaited promises together: one rejection fails the call, all resolutions let it check again. */
  function DoWake(s: State, k: nat, rejection: Option<(nat, nat)>): State
    requires k < |s.calls| && s.calls[k].phase.Waiting?
  {
    var call := s.calls[k];
    match rejection
    case Some(b) =>
      if b in call.phase.pending && Ready(s.calls, b).Rejected? then
        s.(calls := s.calls[k := call.(phase := Failed(s.calls[b.0].phase.error))])
      else s
    case None =>
      if forall b <- call.phase.pending :: Ready(s.calls, b).Resolved? then
        s.(calls := s.calls[k := call.(phase := Checking)])
      else s
  }

  /** The journal makes the event durable; the call learns of it later. */
  function DoWrite(s: State, k: nat): State
    requires k < |s.calls| && s.calls[k].phase.Appending?
  {
    var call := s.calls[k];
    if call.phase.written || call.resolved >= |call.installed| then s
    else s.(journal := s.journal + [call.installed[call.resolved]], calls := s.calls[k := call.(phase := Appending(true))])
  }

  predicate Owns(registry: map<Journal.RegistryId, Binding>, id: Journal.RegistryId, call: nat, slot: nat) {
    id in registry && registry[id].call == call && registry[id].slot == slot
  }

  /** Withdraw the bindings from slot `from` on, each only if it is still the call's own. */
  function Withdraw(registry: map<Journal.RegistryId, Binding>, installed: seq<Claim>, call: nat, from: nat): map<Journal.RegistryId, Binding>
    requires from <= |installed|
    decreases |installed| - from
  {
    if from == |installed| then registry
    else
      var id := installed[from].id;
      Withdraw(if Owns(registry, id, call, from) then registry - {id} else registry, installed, call, from + 1)
  }

  function SetState(registry: map<Journal.RegistryId, Binding>, id: Journal.RegistryId, call: nat, slot: nat, state: BindingState)
    : map<Journal.RegistryId, Binding>
  {
    if Owns(registry, id, call, slot) then registry[id := registry[id].(state := state)] else registry
  }

  function DoResolve(s: State, k: nat, outcome: AppendOutcome): State
    requires k < |s.calls| && s.calls[k].phase.Appending?
  {
    var call := s.calls[k];
    if call.resolved >= |call.installed| || call.phase.written == outcome.NotDurable? then s
    else
      var slot := call.resolved;
      var id := call.installed[slot].id;
      match outcome
      case Appended =>
        s.(registry := SetState(s.registry, id, k, slot, Durable),
           calls := s.calls[k := call.(
             resolved := slot + 1, phase := if slot + 1 == |call.installed| then Returned else Appending(false))])
      case NotDurable =>
        s.(registry := Withdraw(s.registry, call.installed, k, slot),
           calls := s.calls[k := call.(phase := Failed(AppendFailed(false)))])
      case DurableButFailed =>
        s.(registry := Withdraw(SetState(s.registry, id, k, slot, DurableFailed), call.installed, k, slot + 1),
           calls := s.calls[k := call.(phase := Failed(AppendFailed(true)))])
  }

  function Apply(s: State, a: Action): State {
    match a
    case Begin(claims) => DoBegin(s, claims)
    case Check(k) => if k < |s.calls| && s.calls[k].phase.Checking? then DoCheck(s, k) else s
    case Wake(k, rejection) => if k < |s.calls| && s.calls[k].phase.Waiting? then DoWake(s, k, rejection) else s
    case Write(k) => if k < |s.calls| && s.calls[k].phase.Appending? then DoWrite(s, k) else s
    case Resolve(k, outcome) => if k < |s.calls| && s.calls[k].phase.Appending? then DoResolve(s, k, outcome) else s
  }

  function ApplyAll(s: State, actions: seq<Action>): State {
    if actions == [] then s else Apply(ApplyAll(s, actions[..|actions| - 1]), actions[|actions| - 1])
  }

  // ----- The invariant.

  /** Slot of the call that a binding stands for while its append is outstanding. */
  predicate Outstanding(s: State, id: Journal.RegistryId, b: Binding) {
    && b.call < |s.calls|
    && var call := s.calls[b.call];
    && call.phase.Appending? && call.resolved <= b.slot < |call.installed|
    && call.installed[b.slot] == Claim(id, b.identity)
  }

  predicate Unbound(journal: seq<Claim>, id: Journal.RegistryId) { forall c <- journal :: c.id != id }

  /** The journal holds a binding's event exactly when the binding is durable or its append has just written it. */
  predicate BindingOk(s: State, id: Journal.RegistryId)
    requires id in s.registry
  {
    var b := s.registry[id];
    if b.state.Pending? then
      && Outstanding(s, id, b)
      && (if b.slot == s.calls[b.call].resolved && s.calls[b.call].phase.written then Claim(id, b.identity) in s.journal
          else Unbound(s.journal, id))
    else Claim(id, b.identity) in s.journal
  }

  predicate DurableClaim(s: State, c: Claim) {
    c.id in s.registry && s.registry[c.id].identity == c.identity && s.registry[c.id].state.Durable?
  }

  /** A slot of an appending call is durable below `resolved` and the call's own pending binding from there on. */
  predicate SlotOk(s: State, k: nat, slot: nat)
    requires k < |s.calls| && slot < |s.calls[k].installed|
  {
    var c := s.calls[k].installed[slot];
    if slot < s.calls[k].resolved then DurableClaim(s, c)
    else c.id in s.registry && s.registry[c.id] == Binding(c.identity, Pending, k, slot)
  }

  /** Only calls past their checks own bindings, and they never wait again. */
  predicate AwaitedOk(calls: seq<Call>, b: (nat, nat)) {
    b.0 < |calls| && b.1 < |calls[b.0].installed| && !calls[b.0].phase.Checking? && !calls[b.0].phase.Waiting?
  }

  predicate CallOk(s: State, k: nat)
    requires k < |s.calls|
  {
    var call := s.calls[k];
    && Distinct(call.requested) && Distinct(call.installed) && call.resolved <= |call.installed|
    && (call.phase.Checking? || call.phase.Waiting? ==> call.installed == [])
    && (call.phase.Waiting? ==>
          forall b {:trigger AwaitedOk(s.calls, b)} | b in call.phase.pending :: AwaitedOk(s.calls, b))
    && (call.phase.Appending? ==>
          && call.resolved < |call.installed|
          && (forall slot {:trigger SlotOk(s, k, slot)} | 0 <= slot < |call.installed| :: SlotOk(s, k, slot))
          && (forall c <- call.requested :: c in call.installed || DurableClaim(s, c)))
    && (call.phase.Returned? ==>
          call.resolved == |call.installed| && forall c <- call.requested :: DurableClaim(s, c))
  }

  predicate Valid(s: State) {
    && Distinct(s.journal)
    && (forall c <- s.journal :: c.id in s.registry && s.registry[c.id].identity == c.identity)
    && (forall id {:trigger BindingOk(s, id)} | id in s.registry :: BindingOk(s, id))
    && (forall k {:trigger CallOk(s, k)} | 0 <= k < |s.calls| :: CallOk(s, k))
  }

  // ----- Installing and withdrawing.

  lemma {:induction false} InstallAt(registry: map<Journal.RegistryId, Binding>, additions: seq<Claim>, k: nat)
    requires Distinct(additions)
    ensures var r := Install(registry, additions, k);
            && (forall slot | 0 <= slot < |additions| ::
                  && additions[slot].id in r
                  && r[additions[slot].id] == Binding(additions[slot].identity, Pending, k, slot))
            && (forall id {:trigger id in r} | Unbound(additions, id) ::
                  (id in r <==> id in registry) && (id in r ==> r[id] == registry[id]))
  {
    if additions != [] {
      var front, last := additions[..|additions| - 1], additions[|additions| - 1];
      assert additions == front + [last];
      InstallAt(registry, front, k);
      forall id | Unbound(additions, id) ensures Unbound(front, id) && id != last.id {
        assert last in additions;
        forall c | c in front ensures c.id != id { assert c in additions; }
      }
    }
  }

  function IdsFrom(installed: seq<Claim>, from: nat): set<Journal.RegistryId> {
    set slot | from <= slot < |installed| :: installed[slot].id
  }

  /** Every withdrawn slot is still the call's own, so the identity test never spares one. */
  lemma {:induction false} WithdrawAt(registry: map<Journal.RegistryId, Binding>, installed: seq<Claim>, k: nat, from: nat)
    requires from <= |installed| && Distinct(installed)
    requires forall slot | from <= slot < |installed| :: Owns(registry, installed[slot].id, k, slot)
    ensures Withdraw(registry, installed, k, from) == registry - IdsFrom(installed, from)
    decreases |installed| - from
  {
    if from < |installed| {
      WithdrawAt(registry - {installed[from].id}, installed, k, from + 1);
      assert IdsFrom(installed, from) == {installed[from].id} + IdsFrom(installed, from + 1);
    }
  }

  // ----- Every action keeps the invariant.

  /** Calls past their checks keep their installed bindings and never check or wait again. */
  predicate Past(calls: seq<Call>, calls': seq<Call>, j: nat)
    requires j < |calls| <= |calls'|
  {
    !calls[j].phase.Checking? && !calls[j].phase.Waiting? ==>
      calls'[j].installed == calls[j].installed && !calls'[j].phase.Checking? && !calls'[j].phase.Waiting?
  }

  predicate MoveOn(calls: seq<Call>, calls': seq<Call>) {
    |calls| <= |calls'| && forall j {:trigger Past(calls, calls', j)} | 0 <= j < |calls| :: Past(calls, calls', j)
  }

  predicate BindingKept(s: State, s': State, id: Journal.RegistryId)
    requires id in s.registry
  {
    id in s'.registry && s'.registry[id] == s.registry[id]
  }

  /** A call that does not move keeps its part of the invariant when its own and all durable bindings stay. */
  lemma OtherCallKept(s: State, s': State, j: nat)
    requires j < |s.calls| && CallOk(s, j) && MoveOn(s.calls, s'.calls) && s'.calls[j] == s.calls[j]
    requires forall id {:trigger BindingKept(s, s', id)} | id in s.registry ::
               s.registry[id].state.Durable? || s.registry[id].call == j ==> BindingKept(s, s', id)
    ensures CallOk(s', j)
  {
    var call := s.calls[j];
    if call.phase.Waiting? {
      forall b | b in call.phase.pending ensures AwaitedOk(s'.calls, b) {
        assert AwaitedOk(s.calls, b) && Past(s.calls, s'.calls, b.0);
      }
    }
    forall c | DurableClaim(s, c) ensures DurableClaim(s', c) { assert BindingKept(s, s', c.id); }
    if call.phase.Appending? {
      forall slot | 0 <= slot < |call.installed| ensures SlotOk(s', j, slot) {
        assert SlotOk(s, j, slot) && BindingKept(s, s', call.installed[slot].id);
      }
    }
  }

  lemma BeginKeepsValid(s: State, claims: seq<Claim>)
    requires Valid(s)
    ensures Valid(DoBegin(s, claims))
  {
    var s' := DoBegin(s, claims);
    forall id | id in s'.registry ensures BindingOk(s', id) { assert BindingOk(s, id); }
    forall k | 0 <= k < |s'.calls| ensures CallOk(s', k) {
      if k < |s.calls| {
        assert CallOk(s, k);
        OtherCallKept(s, s', k);
      }
    }
  }

  /** A call that owns no outstanding binding moves on without touching registry or journal. */
  lemma PhaseChangeKeepsValid(s: State, s': State, k: nat)
    requires Valid(s) && k < |s.calls| && (s.calls[k].phase.Checking? || s.calls[k].phase.Waiting?)
    requires s'.registry == s.registry && s'.journal == s.journal
    requires |s'.calls| == |s.calls| && s'.calls == s.calls[k := s'.calls[k]]
    requires s'.calls[k] == s.calls[k].(phase := s'.calls[k].phase) && !s'.calls[k].phase.Appending?
    requires CallOk(s', k)
    ensures Valid(s')
  {
    forall id | id in s'.registry ensures BindingOk(s', id) { assert BindingOk(s, id); }
    forall j | 0 <= j < |s'.calls| ensures CallOk(s', j) {
      if j != k {
        assert CallOk(s, j);
        OtherCallKept(s, s', j);
      }
    }
  }

  lemma NothingPending(registry: map<Journal.RegistryId, Binding>, requested: seq<Claim>, c: Claim)
    requires PendingOf(registry, requested) == {} && c in requested && c.id in registry
    ensures !registry[c.id].state.Pending?
  {
    var b := (registry[c.id].call, registry[c.id].slot);
    assert registry[c.id].state.Pending? ==> b in PendingOf(registry, requested);
  }

  lemma CheckKeepsValid(s: State, k: nat)
    requires Valid(s) && k < |s.calls| && s.calls[k].phase.Checking?
    ensures Valid(DoCheck(s, k))
  {
    var s', call := DoCheck(s, k), s.calls[k];
    assert CallOk(s, k);
    if s'.calls[k].phase.Appending? {
      InstallKeepsValid(s, k);
    } else {
      if s'.calls[k].phase.Waiting? {
        forall b | b in s'.calls[k].phase.pending
          ensures AwaitedOk(s'.calls, b)
        {
          var c :| c in call.requested && c.id in s.registry && s.registry[c.id].state.Pending?
                   && b == (s.registry[c.id].call, s.registry[c.id].slot);
          assert BindingOk(s, c.id);
        }
      } else if s'.calls[k].phase.Returned? {
        forall c | c in call.requested ensures DurableClaim(s', c) {
          NothingPending(s.registry, call.requested, c);
        }
      }
      PhaseChangeKeepsValid(s, s', k);
    }
  }

  /** Installing keeps every binding that is there. */
  lemma InstallKeepsRegistry(s: State, k: nat)
    requires Valid(s) && k < |s.calls| && s.calls[k].phase.Checking? && DoCheck(s, k).calls[k].phase.Appending?
    ensures var s' := DoCheck(s, k);
            && (forall id <- s.registry :: id in s'.registry && s'.registry[id] == s.registry[id])
            && (forall slot | 0 <= slot < |s'.calls[k].installed| :: SlotOk(s', k, slot))
            && (forall id <- s'.registry :: BindingOk(s', id))
  {
    var s', call := DoCheck(s, k), s.calls[k];
    var additions := Additions(s.registry, call.requested);
    assert CallOk(s, k);
    InstallAt(s.registry, additions, k);
    forall id | id in s.registry ensures id in s'.registry && s'.registry[id] == s.registry[id] {
      assert Unbound(additions, id);
    }
    forall id | id in s'.registry ensures BindingOk(s', id) {
      if id in s.registry {
        assert BindingOk(s, id);
      } else if Unbound(additions, id) {
        assert false;
      } else {
        var slot :| 0 <= slot < |additions| && additions[slot].id == id;
      }
    }
  }

  lemma InstallKeepsValid(s: State, k: nat)
    requires Valid(s) && k < |s.calls| && s.calls[k].phase.Checking? && DoCheck(s, k).calls[k].phase.Appending?
    ensures Valid(DoCheck(s, k))
  {
    var s', call := DoCheck(s, k), s.calls[k];
    assert CallOk(s, k);
    InstallKeepsRegistry(s, k);
    forall j | 0 <= j < |s'.calls| ensures CallOk(s', j) {
      if j != k {
        assert CallOk(s, j);
        OtherCallKept(s, s', j);
      } else {
        forall c | c in call.requested ensures c in s'.calls[k].installed || DurableClaim(s', c) {
          if c.id in s.registry { NothingPending(s.registry, call.requested, c); }
        }
      }
    }
  }

  lemma WakeKeepsValid(s: State, k: nat, rejection: Option<(nat, nat)>)
    requires Valid(s) && k < |s.calls| && s.calls[k].phase.Waiting?
    ensures Valid(DoWake(s, k, rejection))
  {
    assert CallOk(s, k);
    if DoWake(s, k, rejection) != s { PhaseChangeKeepsValid(s, DoWake(s, k, rejection), k); }
  }

  lemma WriteKeepsValid(s: State, k: nat)
    requires Valid(s) && k < |s.calls| && s.calls[k].phase.Appending?
    ensures Valid(DoWrite(s, k))
  {
    var s', call := DoWrite(s, k), s.calls[k];
    assert CallOk(s, k);
    if s' != s {
      var slot := call.resolved;
      assert SlotOk(s, k, slot);
      var c := call.installed[slot];
      assert BindingOk(s, c.id);
      forall id | id in s'.registry ensures BindingOk(s', id) { assert BindingOk(s, id); }
      forall j | 0 <= j < |s'.calls| ensures CallOk(s', j) {
        assert CallOk(s, j);
        if j != k {
          OtherCallKept(s, s', j);
        } else {
          forall x | 0 <= x < |call.installed| ensures SlotOk(s', k, x) { assert SlotOk(s, k, x); }
        }
      }
    }
  }

  lemma AppendedKeepsValid(s: State, k: nat)
    requires Valid(s) && k < |s.calls| && s.calls[k].phase.Appending? && s.calls[k].phase.written
    ensures Valid(DoResolve(s, k, Appended))
  {
    var s', call := DoResolve(s, k, Appended), s.calls[k];
    assert CallOk(s, k);
    var slot := call.resolved;
    assert SlotOk(s, k, slot);
    var c := call.installed[slot];
    assert BindingOk(s, c.id);
    assert s'.registry == s.registry[c.id := Binding(c.identity, Durable, k, slot)];
    forall id | id in s'.registry ensures BindingOk(s', id) { assert BindingOk(s, id); }
    forall j | 0 <= j < |s'.calls| ensures CallOk(s', j) {
      assert CallOk(s, j);
      if j != k {
        OtherCallKept(s, s', j);
      } else {
        forall x | 0 <= x < |call.installed| ensures SlotOk(s', k, x) { assert SlotOk(s, k, x); }
        forall x | x in call.requested && s'.calls[k].phase.Returned? ensures DurableClaim(s', x) {
          if x in call.installed {
            var i :| 0 <= i < |call.installed| && call.installed[i] == x;
            assert SlotOk(s', k, i);
          }
        }
      }
    }
  }

  /** The registry after a failure: the failed slot marked or withdrawn, later slots withdrawn. */
  predicate AfterFailure(s: State, s': State, k: nat, from: nat)
    requires k < |s.calls| && s.calls[k].phase.Appending?
  {
    var call := s.calls[k];
    && call.resolved < |call.installed|
    && from == call.resolved + (if call.phase.written then 1 else 0)
    && s'.journal == s.journal
    && s'.registry == (if call.phase.written then SetState(s.registry, call.installed[call.resolved].id, k, call.resolved, DurableFailed)
                       else s.registry) - IdsFrom(call.installed, from)
    && |s'.calls| == |s.calls| && s'.calls == s.calls[k := s'.calls[k]]
    && s'.calls[k] == call.(phase := s'.calls[k].phase) && s'.calls[k].phase.Failed?
  }

  lemma WithdrawnIsUnbound(s: State, k: nat, from: nat, id: Journal.RegistryId)
    requires Valid(s) && k < |s.calls| && s.calls[k].phase.Appending? && id in IdsFrom(s.calls[k].installed, from)
    requires s.calls[k].resolved + (if s.calls[k].phase.written then 1 else 0) <= from
    ensures Unbound(s.journal, id) && id in s.registry && s.registry[id].state.Pending? && s.registry[id].call == k
  {
    assert CallOk(s, k);
    var x :| from <= x < |s.calls[k].installed| && s.calls[k].installed[x].id == id;
    assert SlotOk(s, k, x) && BindingOk(s, id);
  }

  lemma FailedBinding(s: State, s': State, k: nat, from: nat, id: Journal.RegistryId)
    requires Valid(s) && k < |s.calls| && s.calls[k].phase.Appending? && AfterFailure(s, s', k, from)
    requires id in s'.registry
    ensures BindingOk(s', id)
  {
    var call := s.calls[k];
    assert CallOk(s, k) && SlotOk(s, k, call.resolved) && BindingOk(s, id);
    var b := s.registry[id];
    if b.state.Pending? && b.call == k {
      assert call.installed[b.slot].id == id;
      assert b.slot > call.resolved ==> id in IdsFrom(call.installed, from);
    }
  }

  lemma FailedCall(s: State, s': State, k: nat, from: nat, j: nat)
    requires Valid(s) && k < |s.calls| && s.calls[k].phase.Appending? && AfterFailure(s, s', k, from)
    requires j < |s.calls|
    ensures CallOk(s', j)
  {
    assert CallOk(s, j) && CallOk(s, k) && SlotOk(s, k, s.calls[k].resolved);
    forall id | id in s.registry && (s.registry[id].call != k || s.registry[id].state.Durable?)
      ensures BindingKept(s, s', id)
    {
      if id in IdsFrom(s.calls[k].installed, from) { WithdrawnIsUnbound(s, k, from, id); }
    }
    if j != k { OtherCallKept(s, s', j); }
  }

  /** Whatever is withdrawn was pending and unwritten; bindings of other calls stay. */
  lemma FailureKeepsValid(s: State, s': State, k: nat, from: nat)
    requires Valid(s) && k < |s.calls| && s.calls[k].phase.Appending? && AfterFailure(s, s', k, from)
    ensures Valid(s')
  {
    forall id | id in s'.registry ensures BindingOk(s', id) { FailedBinding(s, s', k, from, id); }
    forall j | 0 <= j < |s'.calls| ensures CallOk(s', j) { FailedCall(s, s', k, from, j); }
    forall c | c in s'.journal ensures c.id in s'.registry && s'.registry[c.id].identity == c.identity {
      if c.id in IdsFrom(s.calls[k].installed, from) { WithdrawnIsUnbound(s, k, from, c.id); }
    }
  }

  lemma FailedAppendKeepsValid(s: State, k: nat, outcome: AppendOutcome)
    requires Valid(s) && k < |s.calls| && s.calls[k].phase.Appending? && !outcome.Appended?
    requires s.calls[k].phase.written <==> outcome.DurableButFailed?
    ensures Valid(DoResolve(s, k, outcome))
  {
    var s', call := DoResolve(s, k, outcome), s.calls[k];
    assert CallOk(s, k);
    var slot, from := call.resolved, call.resolved + (if call.phase.written then 1 else 0);
    var id := call.installed[slot].id;
    forall x | slot <= x < |call.installed| ensures Owns(s.registry, call.installed[x].id, k, x) {
      assert SlotOk(s, k, x);
    }
    var marked := if call.phase.written then SetState(s.registry, id, k, slot, DurableFailed) else s.registry;
    WithdrawAt(marked, call.installed, k, from);
    FailureKeepsValid(s, s', k, from);
  }

  lemma {:induction false} RunKeepsValid(s: State, actions: seq<Action>)
    requires Valid(s)
    ensures Valid(ApplyAll(s, actions))
  {
    if actions != [] {
      var now := ApplyAll(s, actions[..|actions| - 1]);
      RunKeepsValid(s, actions[..|actions| - 1]);
      StepKeepsValid(now, actions[|actions| - 1]);
    }
  }

  lemma StepKeepsValid(s: State, a: Action)
    requires Valid(s)
    ensures Valid(Apply(s, a))
  {
    match a {
      case Begin(claims) => BeginKeepsValid(s, claims);
      case Check(k) => if k < |s.calls| && s.calls[k].phase.Checking? { CheckKeepsValid(s, k); }
      case Wake(k, rejection) => if k < |s.calls| && s.calls[k].phase.Waiting? { WakeKeepsValid(s, k, rejection); }
      case Write(k) => if k < |s.calls| && s.calls[k].phase.Appending? { WriteKeepsValid(s, k); }
      case Resolve(k, outcome) =>
        if k < |s.calls| && s.calls[k].phase.Appending? {
          assert CallOk(s, k);
          if s.calls[k].phase.written != outcome.NotDurable? {
            if outcome.Appended? { AppendedKeepsValid(s, k); } else { FailedAppendKeepsValid(s, k, outcome); }
          }
        }
    }
  }

  // ----- Main results.

  /**
   * Before any call, the registry holds exactly the journal's bindings, all durable: an empty run, or a recovered one.
   */
  predicate Recovered(s: State) {
    && s.calls == [] && Distinct(s.journal)
    && (forall c <- s.journal :: DurableClaim(s, c))
    && (forall id <- s.registry :: s.registry[id].state.Durable? && Claim(id, s.registry[id].identity) in s.journal)
  }

  lemma RecoveredIsValid(s: State)
    requires Recovered(s)
    ensures Valid(s)
  {
    forall id | id in s.registry ensures BindingOk(s, id) {}
  }

  /** The journal never holds two bindings of one key, whatever the calls do and however their appends end. */
  lemma JournalBindsOnce(s: State, actions: seq<Action>, i: nat, j: nat)
    requires Recovered(s) && i < j < |ApplyAll(s, actions).journal|
    ensures ApplyAll(s, actions).journal[i].id != ApplyAll(s, actions).journal[j].id
  {
    RecoveredIsValid(s);
    RunKeepsValid(s, actions);
  }

  /** A call that returned has every claim durable under its own identity; so two such calls agree on shared keys. */
  lemma ReturnedCallsAgree(s: State, actions: seq<Action>, k: nat, c: Claim, l: nat, d: Claim)
    requires Recovered(s)
    requires var calls := ApplyAll(s, actions).calls;
             k < |calls| && calls[k].phase.Returned? && c in calls[k].requested
    requires var calls := ApplyAll(s, actions).calls;
             l < |calls| && calls[l].phase.Returned? && d in calls[l].requested
    ensures c in ApplyAll(s, actions).journal
    ensures c.id == d.id ==> c.identity == d.identity
  {
    var now := ApplyAll(s, actions);
    RecoveredIsValid(s);
    RunKeepsValid(s, actions);
    assert CallOk(now, k) && CallOk(now, l) && BindingOk(now, c.id);
  }

  /** Nobody waits for a waiter: whatever a waiting call awaits belongs to a call that is appending or has ended. */
  lemma WaitersAreServed(s: State, actions: seq<Action>, k: nat, b: (nat, nat))
    requires Recovered(s)
    requires var calls := ApplyAll(s, actions).calls;
             k < |calls| && calls[k].phase.Waiting? && b in calls[k].phase.pending
    ensures var calls := ApplyAll(s, actions).calls;
            b.0 < |calls| && (!Ready(calls, b).Unsettled? || calls[b.0].phase.Appending?)
  {
    var now := ApplyAll(s, actions);
    RecoveredIsValid(s);
    RunKeepsValid(s, actions);
    assert CallOk(now, k) && AwaitedOk(now.calls, b) && CallOk(now, b.0);
  }
}
