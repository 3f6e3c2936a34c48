/**
 * How calls that bind keys end (src/runtime/broker.ts): what every check decides, why a call fails, and what an
 * undisturbed call achieves.
 */
module KeyBindingOutcomes {
  import opened Wrappers
  import opened KeyBindingProtocol
  import Journal

  // ----- What a check decides.

  /** The claim's key is bound to another identity, or its event is durable although its append failed. */
  predicate Refused(s: State, c: Claim) {
    c.id in s.registry && (s.registry[c.id].identity != c.identity || s.registry[c.id].state.DurableFailed?)
  }

  function Reason(s: State, c: Claim): BindError
    requires Refused(s, c)
  {
    if s.registry[c.id].identity != c.identity then KeyIdentityChanged else AppendFailed(true)
  }

  predicate Awaited(s: State, c: Claim) { c.id in s.registry && s.registry[c.id].state.Pending? }

  predicate Free(s: State, c: Claim) { c.id !in s.registry }

  /** The first refused claim decides the error. */
  ghost predicate FirstRefused(s: State, claims: seq<Claim>, i: nat, e: BindError) {
    && i < |claims| && Refused(s, claims[i]) && e == Reason(s, claims[i])
    && forall j | 0 <= j < i :: !Refused(s, claims[j])
  }

  lemma {:induction false} RefusalIsFirst(s: State, claims: seq<Claim>)
    ensures Refusal(s.registry, claims).Some? ==>
              exists i: nat :: FirstRefused(s, claims, i, Refusal(s.registry, claims).value)
    ensures Refusal(s.registry, claims).Some? <==> exists c <- claims :: Refused(s, c)
  {
    if claims != [] {
      var front, last := claims[..|claims| - 1], claims[|claims| - 1];
      RefusalIsFirst(s, front);
      if Refusal(s.registry, front).Some? {
        var i: nat :| FirstRefused(s, front, i, Refusal(s.registry, front).value);
        assert FirstRefused(s, claims, i, Refusal(s.registry, claims).value);
      } else if Refused(s, last) {
        assert FirstRefused(s, claims, |front|, Refusal(s.registry, claims).value);
      }
    }
  }

  /**
   * A check fails the call for its first refused claim; else it waits for what others have pending; else it returns when
   * every claim is durable under its identity; else it installs exactly the claims whose keys are free.
   */
  lemma CheckVerdict(s: State, k: nat)
    requires k < |s.calls| && s.calls[k].phase.Checking?
    ensures var s', claims := Apply(s, Check(k)), s.calls[k].requested;
            var phase := s'.calls[k].phase;
            && |s'.calls| == |s.calls| && s'.calls == s.calls[k := s'.calls[k]] && s'.journal == s.journal
            && (phase.Failed? <==> exists c <- claims :: Refused(s, c))
            && (phase.Failed? ==> exists i: nat :: FirstRefused(s, claims, i, phase.error))
            && (phase.Waiting? <==> (forall c <- claims :: !Refused(s, c)) && exists c <- claims :: Awaited(s, c))
            && (phase.Waiting? ==>
                  phase.pending == set c <- claims | Awaited(s, c) :: (s.registry[c.id].call, s.registry[c.id].slot))
            && (phase.Returned? <==> forall c <- claims :: DurableClaim(s, c))
            && (phase.Appending? <==>
                  && (forall c <- claims :: DurableClaim(s, c) || Free(s, c))
                  && exists c <- claims :: Free(s, c))
            && (phase.Appending? ==>
                  !phase.written && forall c :: c in s'.calls[k].installed <==> c in claims && Free(s, c))
            && (!phase.Appending? ==> s'.registry == s.registry)
  {
    var claims := s.calls[k].requested;
    RefusalIsFirst(s, claims);
    var pending, additions := PendingOf(s.registry, claims), Additions(s.registry, claims);
    forall c | c in claims && Awaited(s, c) ensures pending != {} {
      assert (s.registry[c.id].call, s.registry[c.id].slot) in pending;
    }
    if pending != {} {
      var b :| b in pending;
      assert exists c <- claims :: Awaited(s, c);
    }
    if additions != [] { assert additions[0] in claims && Free(s, additions[0]); }
    forall c | c in claims && Free(s, c) ensures additions != [] { assert c in additions; }
  }

  /** A waiting call checks again as soon as everything it awaits is durable, and not before. */
  lemma WakeVerdict(s: State, k: nat)
    requires k < |s.calls| && s.calls[k].phase.Waiting?
    ensures var s' := Apply(s, Wake(k, None));
            && s'.registry == s.registry && s'.journal == s.journal
            && s'.calls == s.calls[k := s.calls[k].(phase := s'.calls[k].phase)]
            && s'.calls[k].phase == (if forall b <- s.calls[k].phase.pending ::
                                          b.0 < |s.calls| && b.1 < s.calls[b.0].resolved
                                     then Checking else s.calls[k].phase)
  {
    forall b | b in s.calls[k].phase.pending
      ensures Ready(s.calls, b).Resolved? <==> b.0 < |s.calls| && b.1 < s.calls[b.0].resolved
    {
    }
    assert s.calls[k := s.calls[k].(phase := s.calls[k].phase)] == s.calls;
  }

  /** What one failed append leaves of the call's remaining bindings: the failed one if its event is durable. */
  ghost predicate LeftOver(s: State, s': State, k: nat, durable: bool, id: Journal.RegistryId)
    requires k < |s.calls| && s.calls[k].resolved < |s.calls[k].installed|
  {
    var call := s.calls[k];
    var slot := call.resolved;
    if id == call.installed[slot].id && durable then
      id in s'.registry && s'.registry[id] == Binding(call.installed[slot].identity, DurableFailed, k, slot)
    else if id in IdsFrom(call.installed, slot) then id !in s'.registry
    else (id in s.registry <==> id in s'.registry) && (id in s.registry ==> s'.registry[id] == s.registry[id])
  }

  /** A failed append fails its call and withdraws all its bindings from there on, but keeps a durable one as failed. */
  lemma FailedAppend(s: State, k: nat, durable: bool)
    requires Valid(s) && k < |s.calls| && s.calls[k].phase == Appending(durable)
    ensures var s' := Apply(s, Resolve(k, if durable then DurableButFailed else NotDurable));
            && s.calls[k].resolved < |s.calls[k].installed|
            && s'.journal == s.journal
            && s'.calls == s.calls[k := s.calls[k].(phase := Failed(AppendFailed(durable)))]
            && forall id :: LeftOver(s, s', k, durable, id)
  {
    var call := s.calls[k];
    assert CallOk(s, k);
    var slot, from := call.resolved, call.resolved + (if durable then 1 else 0);
    forall x | slot <= x < |call.installed| ensures Owns(s.registry, call.installed[x].id, k, x) {
      assert SlotOk(s, k, x);
    }
    assert SlotOk(s, k, slot);
    var marked := if durable then SetState(s.registry, call.installed[slot].id, k, slot, DurableFailed) else s.registry;
    WithdrawAt(marked, call.installed, k, from);
  }

  // ----- Why a call fails.

  predicate Conflicting(claims: seq<Claim>) {
    exists x <- claims, y <- claims :: x.id == y.id && x.identity != y.identity
  }

  /** The action makes the call fail with this error. */
  ghost predicate FailsBy(before: State, a: Action, k: nat, e: BindError) {
    match a
    case Begin(claims) => k == |before.calls| && Conflicting(claims) && e == KeyIdentityChanged
    case Check(j) =>
      && j == k < |before.calls| && before.calls[k].phase.Checking?
      && exists i: nat :: FirstRefused(before, before.calls[k].requested, i, e)
    case Wake(j, rejection) =>
      && j == k < |before.calls| && before.calls[k].phase.Waiting? && rejection.Some?
      && rejection.value in before.calls[k].phase.pending && rejection.value.0 < |before.calls|
      && rejection.value.1 >= before.calls[rejection.value.0].resolved
      && before.calls[rejection.value.0].phase == Failed(e)
    case Write(_) => false
    case Resolve(j, outcome) =>
      && j == k < |before.calls| && before.calls[k].phase.Appending?
      && before.calls[k].resolved < |before.calls[k].installed|
      && !outcome.Appended? && (before.calls[k].phase.written <==> outcome.DurableButFailed?)
      && e == AppendFailed(outcome.DurableButFailed?)
  }

  predicate FailedWith(s: State, k: nat, e: BindError) { k < |s.calls| && s.calls[k].phase == Failed(e) }

  predicate HasFailed(s: State, k: nat) { k < |s.calls| && s.calls[k].phase.Failed? }

  lemma RequestsError(claims: seq<Claim>)
    ensures Requests(claims).Err? <==> Conflicting(claims)
    ensures Requests(claims).Err? ==> Requests(claims).error == KeyIdentityChanged
  {
    if claims != [] { RequestsError(claims[..|claims| - 1]); }
  }

  lemma CheckFails(s: State, k: nat, e: BindError)
    requires k < |s.calls| && s.calls[k].phase.Checking?
    ensures FailedWith(Apply(s, Check(k)), k, e) <==> FailsBy(s, Check(k), k, e)
  {
    CheckVerdict(s, k);
    if FailsBy(s, Check(k), k, e) {
      var i: nat :| FirstRefused(s, s.calls[k].requested, i, e);
      assert s.calls[k].requested[i] in s.calls[k].requested;
      var n: nat :| FirstRefused(s, s.calls[k].requested, n, Apply(s, Check(k)).calls[k].phase.error);
      assert n == i;
    }
  }

  lemma StepFails(s: State, a: Action, k: nat, e: BindError)
    ensures FailedWith(Apply(s, a), k, e) <==> FailedWith(s, k, e) || FailsBy(s, a, k, e)
  {
    match a {
      case Begin(claims) => RequestsError(claims);
      case Check(j) => if j < |s.calls| && s.calls[j].phase.Checking? { if j == k { CheckFails(s, k, e); } else { CheckVerdict(s, j); } }
      case _ =>
    }
  }

  ghost predicate CauseAt(s: State, actions: seq<Action>, i: nat, k: nat, e: BindError)
    requires i < |actions|
  {
    FailsBy(ApplyAll(s, actions[..i]), actions[i], k, e)
  }

  ghost predicate Caused(s: State, actions: seq<Action>, k: nat, e: BindError) {
    exists i: nat {:trigger CauseAt(s, actions, i, k, e)} | i < |actions| :: CauseAt(s, actions, i, k, e)
  }

  lemma CausedStep(s: State, actions: seq<Action>, k: nat, e: BindError)
    requires actions != []
    ensures var front, last := actions[..|actions| - 1], |actions| - 1;
            Caused(s, actions, k, e) <==> Caused(s, front, k, e) || CauseAt(s, actions, last, k, e)
  {
    var front := actions[..|actions| - 1];
    forall i: nat | i < |front| ensures CauseAt(s, actions, i, k, e) <==> CauseAt(s, front, i, k, e) {
      assert actions[..i] == front[..i];
    }
    if Caused(s, front, k, e) {
      var i: nat :| i < |front| && CauseAt(s, front, i, k, e);
      assert CauseAt(s, actions, i, k, e);
    }
  }

  /** In every run a call has failed with an error if and only if some action failed it for its cause. */
  lemma {:induction false} FailedForCause(s: State, actions: seq<Action>, k: nat, e: BindError)
    requires s.calls == []
    ensures FailedWith(ApplyAll(s, actions), k, e) <==> Caused(s, actions, k, e)
  {
    if actions != [] {
      var front, last := actions[..|actions| - 1], |actions| - 1;
      FailedForCause(s, front, k, e);
      StepFails(ApplyAll(s, front), actions[last], k, e);
      CausedStep(s, actions, k, e);
    }
  }

  // ----- A changed identity is always the call's own.

  ghost predicate ChangedBeforeInstalling(s: State) {
    forall k {:trigger s.calls[k]} | 0 <= k < |s.calls| && s.calls[k].phase == Failed(KeyIdentityChanged) ::
      s.calls[k].installed == []
  }

  lemma StepChangesBeforeInstalling(s: State, a: Action)
    requires Valid(s) && ChangedBeforeInstalling(s)
    ensures ChangedBeforeInstalling(Apply(s, a))
  {
    var s' := Apply(s, a);
    forall k | 0 <= k < |s'.calls| && s'.calls[k].phase == Failed(KeyIdentityChanged)
      ensures s'.calls[k].installed == []
    {
      StepFails(s, a, k, KeyIdentityChanged);
      if k < |s.calls| { assert CallOk(s, k); }
    }
  }

  lemma {:induction false} RunChangesBeforeInstalling(s: State, actions: seq<Action>)
    requires Recovered(s)
    ensures ChangedBeforeInstalling(ApplyAll(s, actions))
  {
    if actions != [] {
      var front := actions[..|actions| - 1];
      RunChangesBeforeInstalling(s, front);
      RecoveredIsValid(s);
      RunKeepsValid(s, front);
      StepChangesBeforeInstalling(ApplyAll(s, front), actions[|actions| - 1]);
    }
  }

  /** The call claims a key twice with two identities, or checks while its first refused claim has another identity. */
  ghost predicate Changed(before: State, a: Action, k: nat) {
    match a
    case Begin(claims) => k == |before.calls| && Conflicting(claims)
    case Check(j) =>
      && j == k < |before.calls| && before.calls[k].phase.Checking?
      && exists i: nat :: FirstRefused(before, before.calls[k].requested, i, KeyIdentityChanged)
    case _ => false
  }

  ghost predicate ChangedAt(s: State, actions: seq<Action>, i: nat, k: nat)
    requires i < |actions|
  {
    Changed(ApplyAll(s, actions[..i]), actions[i], k)
  }

  /** Awaited calls have installed bindings, so their checks are behind them. */
  lemma AwaitedNeverChanged(s: State, k: nat)
    requires Valid(s) && ChangedBeforeInstalling(s) && k < |s.calls| && s.calls[k].phase.Waiting?
    ensures forall b <- s.calls[k].phase.pending ::
              b.0 < |s.calls| && s.calls[b.0].phase != Failed(KeyIdentityChanged)
  {
    forall b | b in s.calls[k].phase.pending
      ensures b.0 < |s.calls| && s.calls[b.0].phase != Failed(KeyIdentityChanged)
    {
      assert CallOk(s, k) && AwaitedOk(s.calls, b);
    }
  }

  lemma ChangedIsCause(s: State, actions: seq<Action>, i: nat, k: nat)
    requires Recovered(s) && i < |actions|
    ensures ChangedAt(s, actions, i, k) <==> CauseAt(s, actions, i, k, KeyIdentityChanged)
  {
    var before := ApplyAll(s, actions[..i]);
    RecoveredIsValid(s);
    RunKeepsValid(s, actions[..i]);
    RunChangesBeforeInstalling(s, actions[..i]);
    if k < |before.calls| && before.calls[k].phase.Waiting? { AwaitedNeverChanged(before, k); }
  }

  /**
   * In every run a call fails with a changed identity exactly when its own claims conflict or one of its checks finds
   * the first refused key under another identity; it never learns that from a call it awaits.
   */
  lemma IdentityChangedForCause(s: State, actions: seq<Action>, k: nat)
    requires Recovered(s)
    ensures FailedWith(ApplyAll(s, actions), k, KeyIdentityChanged) <==>
            exists i: nat {:trigger ChangedAt(s, actions, i, k)} | i < |actions| :: ChangedAt(s, actions, i, k)
  {
    FailedForCause(s, actions, k, KeyIdentityChanged);
    forall i: nat | i < |actions|
      ensures ChangedAt(s, actions, i, k) <==> CauseAt(s, actions, i, k, KeyIdentityChanged)
    {
      ChangedIsCause(s, actions, i, k);
    }
  }

  // ----- Claims in order.

  /** Position of a claim's first occurrence. */
  function FirstAt(claims: seq<Claim>, c: Claim): nat
    requires c in claims
  {
    var front := claims[..|claims| - 1];
    if c in front then FirstAt(front, c) else |front|
  }

  lemma {:induction false} FirstAtIs(claims: seq<Claim>, c: Claim)
    requires c in claims
    ensures var i := FirstAt(claims, c); i < |claims| && claims[i] == c && forall j | 0 <= j < i :: claims[j] != c
  {
    var front := claims[..|claims| - 1];
    assert claims == front + [claims[|claims| - 1]];
    if c in front {
      FirstAtIs(front, c);
      forall j | 0 <= j < FirstAt(claims, c) ensures claims[j] != c { assert front[j] != c; }
    } else {
      forall j | 0 <= j < |front| ensures claims[j] != c { assert front[j] in front; }
    }
  }

  predicate Sooner(claims: seq<Claim>, c: Claim, d: Claim) {
    c in claims && d in claims && FirstAt(claims, c) < FirstAt(claims, d)
  }

  /** The claims are listed in the order of their first occurrences, each once. */
  ghost predicate InOrderOf(claims: seq<Claim>, some: seq<Claim>) {
    && (forall c <- some :: c in claims)
    && forall i, j {:trigger Sooner(claims, some[i], some[j])} | 0 <= i < j < |some| :: Sooner(claims, some[i], some[j])
  }

  lemma FirstAtFront(claims: seq<Claim>, c: Claim)
    requires claims != [] && c in claims[..|claims| - 1]
    ensures c in claims && FirstAt(claims, c) == FirstAt(claims[..|claims| - 1], c) < |claims| - 1
  {
    FirstAtIs(claims[..|claims| - 1], c);
  }

  lemma SoonerKept(claims: seq<Claim>, c: Claim, d: Claim)
    requires claims != [] && Sooner(claims[..|claims| - 1], c, d)
    ensures Sooner(claims, c, d)
  {
    FirstAtFront(claims, c);
    FirstAtFront(claims, d);
  }

  lemma OrderKept(claims: seq<Claim>, some: seq<Claim>)
    requires claims != [] && InOrderOf(claims[..|claims| - 1], some)
    ensures InOrderOf(claims, some)
  {
    forall i, j | 0 <= i < j < |some| ensures Sooner(claims, some[i], some[j]) { SoonerKept(claims, some[i], some[j]); }
    forall c | c in some ensures c in claims { FirstAtFront(claims, c); }
  }

  lemma OrderAppend(claims: seq<Claim>, some: seq<Claim>, last: Claim)
    requires InOrderOf(claims, some) && last in claims && forall c <- some :: Sooner(claims, c, last)
    ensures InOrderOf(claims, some + [last])
  {
    var longer := some + [last];
    forall i, j | 0 <= i < j < |longer| ensures Sooner(claims, longer[i], longer[j]) {
      if j < |some| { assert Sooner(claims, some[i], some[j]); } else { assert some[i] in some; }
    }
  }

  lemma NewIsLast(claims: seq<Claim>, c: Claim)
    requires claims != [] && c in claims[..|claims| - 1] && claims[|claims| - 1] !in claims[..|claims| - 1]
    ensures Sooner(claims, c, claims[|claims| - 1])
  {
    FirstAtFront(claims, c);
  }

  lemma {:induction false} RequestsInOrder(claims: seq<Claim>)
    requires Requests(claims).Ok?
    ensures InOrderOf(claims, Requests(claims).value)
  {
    if claims != [] {
      var front, last := claims[..|claims| - 1], claims[|claims| - 1];
      RequestsInOrder(front);
      var requested := Requests(front).value;
      OrderKept(claims, requested);
      if Find(requested, last.id).None? {
        assert forall c <- front :: c in requested;
        forall c | c in requested ensures Sooner(claims, c, last) { NewIsLast(claims, c); }
        OrderAppend(claims, requested, last);
      }
    }
  }

  lemma OrderFront(all: seq<Claim>, claims: seq<Claim>)
    requires InOrderOf(all, claims) && claims != []
    ensures InOrderOf(all, claims[..|claims| - 1])
    ensures var front, last := claims[..|claims| - 1], claims[|claims| - 1]; forall c <- front :: Sooner(all, c, last)
  {
    var front, last := claims[..|claims| - 1], claims[|claims| - 1];
    forall i, j | 0 <= i < j < |front| ensures Sooner(all, front[i], front[j]) {
      assert Sooner(all, claims[i], claims[j]);
    }
    forall c | c in front ensures Sooner(all, c, last) {
      var i :| 0 <= i < |front| && front[i] == c;
      assert Sooner(all, claims[i], claims[|front|]);
    }
  }

  lemma {:induction false} AdditionsInOrder(registry: map<Journal.RegistryId, Binding>, claims: seq<Claim>, all: seq<Claim>)
    requires InOrderOf(all, claims)
    ensures InOrderOf(all, Additions(registry, claims))
  {
    if claims != [] {
      OrderFront(all, claims);
      AdditionsInOrder(registry, claims[..|claims| - 1], all);
      if claims[|claims| - 1].id !in registry {
        OrderAppend(all, Additions(registry, claims[..|claims| - 1]), claims[|claims| - 1]);
      }
    }
  }

  // ----- An undisturbed call.

  function Appends(k: nat, n: nat): seq<Action> {
    if n == 0 then [] else Appends(k, n - 1) + [Write(k), Resolve(k, Appended)]
  }

  lemma RunStep(s: State, actions: seq<Action>, a: Action)
    ensures ApplyAll(s, actions + [a]) == Apply(ApplyAll(s, actions), a)
  {
    assert (actions + [a])[..|actions|] == actions;
  }

  /** Nothing else moves: every other call and every binding that was there stays. */
  predicate OnlyAdds(s: State, s': State, k: nat) {
    && (forall id <- s.registry :: id in s'.registry && s'.registry[id] == s.registry[id])
    && |s'.calls| > k && |s.calls| <= |s'.calls| && forall j | 0 <= j < |s.calls| && j != k :: s'.calls[j] == s.calls[j]
  }

  lemma AppendOne(s: State, k: nat)
    requires Valid(s) && k < |s.calls| && s.calls[k].phase == Appending(false)
    ensures var s', call := Apply(Apply(s, Write(k)), Resolve(k, Appended)), s.calls[k];
            && call.resolved < |call.installed|
            && s'.journal == s.journal + [call.installed[call.resolved]]
            && s'.calls == s.calls[k := call.(
                 resolved := call.resolved + 1,
                 phase := if call.resolved + 1 == |call.installed| then Returned else Appending(false))]
            && s'.registry == s.registry[call.installed[call.resolved].id :=
                 Binding(call.installed[call.resolved].identity, Durable, k, call.resolved)]
  {
    assert CallOk(s, k) && SlotOk(s, k, s.calls[k].resolved);
  }

  /** After `i` of its appends the call has written its first `i` claims, and nothing else has changed. */
  ghost predicate Progress(start: State, s: State, k: nat, call: Call, i: nat) {
    && i <= |call.installed| && |s.calls| == |start.calls| > k
    && s.journal == start.journal + call.installed[..i]
    && s.calls == start.calls[k := call.(
         resolved := i, phase := if i == |call.installed| then Returned else Appending(false))]
    && (forall id <- start.registry | !Owned(call, id) :: id in s.registry && s.registry[id] == start.registry[id])
  }

  predicate Owned(call: Call, id: Journal.RegistryId) { exists c <- call.installed :: c.id == id }

  lemma ProgressStep(start: State, s: State, k: nat, call: Call, i: nat)
    requires Valid(s) && Progress(start, s, k, call, i) && i < |call.installed|
    ensures Progress(start, Apply(Apply(s, Write(k)), Resolve(k, Appended)), k, call, i + 1)
  {
    AppendOne(s, k);
    assert call.installed[..i + 1] == call.installed[..i] + [call.installed[i]];
    assert call.installed[i] in call.installed;
  }

  lemma RunAppend(s: State, actions: seq<Action>, k: nat, n: nat)
    ensures ApplyAll(s, actions + Appends(k, n + 1)) ==
            Apply(Apply(ApplyAll(s, actions + Appends(k, n)), Write(k)), Resolve(k, Appended))
  {
    var before := actions + Appends(k, n);
    RunStep(s, before, Write(k));
    RunStep(s, before + [Write(k)], Resolve(k, Appended));
    assert actions + Appends(k, n + 1) == before + [Write(k)] + [Resolve(k, Appended)];
  }

  lemma ProgressStart(start: State, k: nat)
    requires Valid(start) && k < |start.calls| && start.calls[k].phase == Appending(false) && start.calls[k].resolved == 0
    ensures Progress(start, start, k, start.calls[k], 0)
  {
    assert CallOk(start, k);
  }

  lemma {:induction false} AppendsProgress(s: State, actions: seq<Action>, k: nat, start: State, i: nat)
    requires Valid(s) && start == ApplyAll(s, actions) && k < |start.calls| && start.calls[k].phase == Appending(false)
    requires start.calls[k].resolved == 0 && i <= |start.calls[k].installed|
    ensures Progress(start, ApplyAll(s, actions + Appends(k, i)), k, start.calls[k], i)
    decreases i
  {
    if i == 0 {
      assert actions + Appends(k, 0) == actions;
      RunKeepsValid(s, actions);
      ProgressStart(start, k);
    } else {
      AppendsProgress(s, actions, k, start, i - 1);
      RunKeepsValid(s, actions + Appends(k, i - 1));
      RunAppend(s, actions, k, i - 1);
      ProgressStep(start, ApplyAll(s, actions + Appends(k, i - 1)), k, start.calls[k], i - 1);
    }
  }

  /** Each claim's key is free or durable under the claim's identity, and the claims agree with each other. */
  ghost predicate Bindable(s: State, claims: seq<Claim>) {
    !Conflicting(claims) && forall c <- claims :: Free(s, c) || DurableClaim(s, c)
  }

  function Alone(k: nat, claims: seq<Claim>, n: nat): seq<Action> { [Begin(claims), Check(k)] + Appends(k, n) }

  /** The call has passed its check: its additions are its claims with free keys, in order. */
  ghost predicate Installed(before: State, after: State, claims: seq<Claim>, added: seq<Claim>) {
    var k := |before.calls|;
    && Distinct(added) && InOrderOf(claims, added)
    && (forall c :: c in added <==> c in claims && Free(before, c))
    && OnlyAdds(before, after, k) && |after.calls| == k + 1 && after.journal == before.journal
    && after.calls[k].installed == added && after.calls[k].resolved == 0
    && (forall c :: c in claims <==> c in after.calls[k].requested)
    && after.calls[k].phase == (if added == [] then Returned else Appending(false))
  }

  lemma FreeClaims(s: State, claims: seq<Claim>)
    requires !Conflicting(claims)
    ensures Requests(claims).Ok?
    ensures var added := Additions(s.registry, Requests(claims).value);
            && Distinct(added) && InOrderOf(claims, added)
            && (forall c :: c in added <==> c in claims && Free(s, c))
            && (added == [] <==> forall c <- claims :: !Free(s, c))
  {
    RequestsError(claims);
    RequestsInOrder(claims);
    AdditionsInOrder(s.registry, Requests(claims).value, claims);
    var added := Additions(s.registry, Requests(claims).value);
    if added != [] { assert added[0] in claims; }
  }

  lemma CheckInstalls(s: State, k: nat)
    requires Valid(s) && k < |s.calls| && s.calls[k].phase.Checking?
    requires forall c <- s.calls[k].requested :: Free(s, c) || DurableClaim(s, c)
    ensures var s', added := DoCheck(s, k), Additions(s.registry, s.calls[k].requested);
            && s'.journal == s.journal
            && (forall id <- s.registry :: id in s'.registry && s'.registry[id] == s.registry[id])
            && s'.calls == s.calls[k := s.calls[k].(
                 installed := added, phase := if added == [] then Returned else Appending(false))]
  {
    assert CallOk(s, k);
    CheckVerdict(s, k);
    var added := Additions(s.registry, s.calls[k].requested);
    if added != [] {
      assert added[0] in s.calls[k].requested;
      InstallKeepsRegistry(s, k);
    }
  }

  lemma BeginAndCheck(s: State, claims: seq<Claim>, begun: State) returns (added: seq<Claim>)
    requires Valid(s) && Bindable(s, claims) && begun == DoBegin(s, claims)
    ensures |s.calls| < |begun.calls| && begun.calls[|s.calls|].phase.Checking?
    ensures Installed(s, DoCheck(begun, |s.calls|), claims, added)
  {
    FreeClaims(s, claims);
    BeginKeepsValid(s, claims);
    CheckInstalls(begun, |s.calls|);
    added := Additions(s.registry, Requests(claims).value);
  }

  lemma RunLonger(s: State, path: seq<Action>, longer: seq<Action>, a: Action)
    requires |longer| == |path| + 1 && longer[..|path|] == path && longer[|path|] == a
    ensures ApplyAll(s, longer) == Apply(ApplyAll(s, path), a)
  {
  }

  lemma RunTwo(s: State, actions: seq<Action>, a: Action, b: Action) returns (mid: State)
    ensures mid == Apply(ApplyAll(s, actions), a) && ApplyAll(s, actions + [a, b]) == Apply(mid, b)
  {
    RunStep(s, actions, a);
    mid := ApplyAll(s, actions + [a]);
    RunLonger(s, actions + [a], actions + [a, b], b);
  }

  /** What a call alone achieves. */
  ghost predicate Achieved(before: State, after: State, claims: seq<Claim>, added: seq<Claim>) {
    var k := |before.calls|;
    && Distinct(added) && InOrderOf(claims, added)
    && (forall c :: c in added <==> c in claims && Free(before, c))
    && OnlyAdds(before, after, k) && |after.calls| == k + 1
    && after.calls[k].phase == Returned && after.journal == before.journal + added
    && forall c <- claims :: DurableClaim(after, c)
  }

  lemma AchievedByProgress(before: State, checked: State, after: State, claims: seq<Claim>, added: seq<Claim>)
    requires Installed(before, checked, claims, added) && Valid(after)
    requires if added == [] then after == checked
             else Progress(checked, after, |before.calls|, checked.calls[|before.calls|], |added|)
    ensures Achieved(before, after, claims, added)
  {
    var k := |before.calls|;
    forall id | id in before.registry ensures id in after.registry && after.registry[id] == before.registry[id] {
      assert !Owned(checked.calls[k], id);
    }
    assert CallOk(after, k);
    assert added[..|added|] == added;
  }

  /**
   * A call whose claims are bindable, undisturbed and with every append written and successful, returns. It appends
   * exactly its claims with free keys, each once, in the order in which they are first claimed; every claim is durable
   * then, and no other call or binding changes.
   */
  lemma AloneReturns(s: State, actions: seq<Action>, claims: seq<Claim>) returns (added: seq<Claim>)
    requires Recovered(s) && Bindable(ApplyAll(s, actions), claims)
    ensures var before := ApplyAll(s, actions);
            Achieved(before, ApplyAll(s, actions + Alone(|before.calls|, claims, |added|)), claims, added)
  {
    RecoveredIsValid(s);
    RunKeepsValid(s, actions);
    added := AloneFrom(s, actions, ApplyAll(s, actions), claims);
  }

  lemma AlonePath(actions: seq<Action>, k: nat, claims: seq<Claim>, n: nat)
    ensures actions + Alone(k, claims, n) == actions + [Begin(claims), Check(k)] + Appends(k, n)
  {
  }

  lemma AloneFrom(s: State, actions: seq<Action>, before: State, claims: seq<Claim>) returns (added: seq<Claim>)
    requires Valid(s) && before == ApplyAll(s, actions) && Valid(before) && Bindable(before, claims)
    ensures Achieved(before, ApplyAll(s, actions + Alone(|before.calls|, claims, |added|)), claims, added)
  {
    added := AloneChecked(s, actions, claims);
    AlonePath(actions, |before.calls|, claims, |added|);
    AloneAppended(s, actions + [Begin(claims), Check(|before.calls|)], before, claims, added);
  }

  lemma AloneChecked(s: State, actions: seq<Action>, claims: seq<Claim>) returns (added: seq<Claim>)
    requires Valid(ApplyAll(s, actions)) && Bindable(ApplyAll(s, actions), claims)
    ensures var before := ApplyAll(s, actions);
            Installed(before, ApplyAll(s, actions + [Begin(claims), Check(|before.calls|)]), claims, added)
  {
    var before := ApplyAll(s, actions);
    var begun := RunTwo(s, actions, Begin(claims), Check(|before.calls|));
    added := BeginAndCheck(before, claims, begun);
  }

  lemma AloneAppended(s: State, path: seq<Action>, before: State, claims: seq<Claim>, added: seq<Claim>)
    requires Valid(s) && Installed(before, ApplyAll(s, path), claims, added)
    ensures Achieved(before, ApplyAll(s, path + Appends(|before.calls|, |added|)), claims, added)
  {
    var k := |before.calls|;
    AppendAdded(s, path, before, claims, added);
    RunKeepsValid(s, path + Appends(k, |added|));
    AchievedByProgress(before, ApplyAll(s, path), ApplyAll(s, path + Appends(k, |added|)), claims, added);
  }

  lemma AppendAdded(s: State, path: seq<Action>, before: State, claims: seq<Claim>, added: seq<Claim>)
    requires Valid(s) && Installed(before, ApplyAll(s, path), claims, added)
    ensures var k, checked := |before.calls|, ApplyAll(s, path);
            var after := ApplyAll(s, path + Appends(k, |added|));
            if added == [] then after == checked else Progress(checked, after, k, checked.calls[k], |added|)
  {
    var k := |before.calls|;
    if added == [] {
      assert path + Appends(k, 0) == path;
    } else {
      AppendsProgress(s, path, k, ApplyAll(s, path), |added|);
    }
  }
}
