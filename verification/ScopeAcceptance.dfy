/**
 * Which settlements the usage scopes accept (src/runtime/provider.ts): what every scope holds at every moment, and
 * that no scope of a plausible run ever refuses one.
 */
module ScopeAcceptance {
  import opened Wrappers
  import opened Usage
  import opened Journal
  import opened ScopeUsage

  // ----- What a scope holds.

  /** The action opens the call, ends it, or refuses to execute it. */
  predicate Resets(before: State, a: Action, c: CallId) {
    match a
    case OpenChild(parent, x) => x == c && parent < |before.frames| && c !in before.inflight
    case RefuseChild(x) => x == c && c !in before.inflight
    case EndChild(x) => x == c && c in before.inflight
    case _ => false
  }

  /** How much had been settled when the call's scope was last made anew or deleted. */
  function ResetAt(actions: seq<Action>, c: CallId): (n: nat)
    ensures n <= |ApplyAll(Start(), actions).log|
  {
    if actions == [] then 0
    else
      var front := actions[..|actions| - 1];
      var before := ApplyAll(Start(), front);
      if Resets(before, actions[|actions| - 1], c) then |before.log| else ResetAt(front, c)
  }

  /** The sum of the accepted usages in the call's scope since then. */
  function Held(actions: seq<Action>, c: CallId): CallUsage {
    var s := ApplyAll(Start(), actions);
    SumUsage(Usages(s.log[ResetAt(actions, c)..], ScopeOf(s.frames, c)))
  }

  predicate Holds(s: State, c: CallId, from: nat) {
    && from <= |s.log|
    && Accumulate(Usages(s.log[from..], ScopeOf(s.frames, c))) == Ok(Current(s.scopeUsage, c))
  }

  lemma ResetHolds(s: State, a: Action, c: CallId)
    requires Resets(s, a, c)
    ensures Holds(Apply(s, a), c, |s.log|)
  {
    assert Apply(s, a).log[|s.log|..] == [];
  }

  lemma OpenOtherHolds(s: State, parent: nat, x: CallId, c: CallId, from: nat)
    requires Sound(s) && Holds(s, c, from) && parent < |s.frames| && x !in s.inflight && x != c
    ensures Holds(DoOpenChild(s, parent, x), c, from)
  {
    var s' := DoOpenChild(s, parent, x);
    forall e | e in s.log[from..] ensures InScope(s.frames, c, e) == InScope(s'.frames, c, e) {
      var j :| 0 <= j < |s.log| && s.log[j] == e;
      assert EntryOk(s.frames, s.log, j);
    }
    UsagesSame(s.log[from..], ScopeOf(s.frames, c), ScopeOf(s'.frames, c));
  }

  lemma AccountedCurrent(s: State, frame: nat, u: CallUsage, aggregateOk: bool, c: CallId)
    requires frame < |s.frames|
    ensures var s', e := DoAccount(s, frame, u, aggregateOk), DoAccount(s, frame, u, aggregateOk).log[|s.log|];
            && s'.log == s.log + [e] && s'.frames == s.frames && e.frame == frame && e.usage == u
            && (if InScope(s.frames, c, e) then AddUsage(Current(s.scopeUsage, c), u) == Ok(Current(s'.scopeUsage, c))
                else Current(s'.scopeUsage, c) == Current(s.scopeUsage, c))
  {
  }

  lemma AccountHolds(s: State, frame: nat, u: CallUsage, aggregateOk: bool, c: CallId, from: nat)
    requires Holds(s, c, from) && frame < |s.frames|
    ensures Holds(DoAccount(s, frame, u, aggregateOk), c, from)
  {
    var s' := DoAccount(s, frame, u, aggregateOk);
    var e := s'.log[|s.log|];
    AccountedCurrent(s, frame, u, aggregateOk, c);
    assert s'.log[from..] == s.log[from..] + [e];
    UsagesAppend(s.log[from..], e, ScopeOf(s.frames, c));
    AccumulateAppend(Usages(s.log[from..], ScopeOf(s.frames, c)), u);
  }

  lemma StepHolds(s: State, a: Action, c: CallId, from: nat)
    requires Sound(s) && Holds(s, c, from) && !Resets(s, a, c)
    ensures Holds(Apply(s, a), c, from)
  {
    match a {
      case OpenChild(parent, x) =>
        if parent < |s.frames| && x !in s.inflight { OpenOtherHolds(s, parent, x, c, from); }
      case Account(frame, u, ok) => if frame < |s.frames| { AccountHolds(s, frame, u, ok, c, from); }
      case _ =>
    }
  }

  lemma {:induction false} RunHolds(actions: seq<Action>, c: CallId)
    ensures Holds(ApplyAll(Start(), actions), c, ResetAt(actions, c))
  {
    if actions != [] {
      var front, a := actions[..|actions| - 1], actions[|actions| - 1];
      RunHolds(front, c);
      RunKeepsSound(front);
      var before := ApplyAll(Start(), front);
      if Resets(before, a, c) { ResetHolds(before, a, c); } else { StepHolds(before, a, c, ResetAt(front, c)); }
    }
  }

  /**
   * In every run the scope of every call, executing or not, holds the sum of the accepted usages in its scope since it
   * was last opened, ended or refused; a scope that is absent holds nothing.
   */
  lemma ScopeHolds(actions: seq<Action>, c: CallId)
    ensures Current(ApplyAll(Start(), actions).scopeUsage, c) == Held(actions, c)
    ensures Within(Held(actions, c), ADD_USAGE_LIMITS)
  {
    var s := ApplyAll(Start(), actions);
    RunHolds(actions, c);
    AccumulateExact(Usages(s.log[ResetAt(actions, c)..], ScopeOf(s.frames, c)));
  }

  // ----- What is accepted.

  /** The usage fits into the scope on top of what it holds. */
  predicate Fits(actions: seq<Action>, c: CallId, u: CallUsage) {
    Within(u, ADD_USAGE_LIMITS) && Within(Plus(Held(actions, c), u), ADD_USAGE_LIMITS)
  }

  lemma FitsExactly(actions: seq<Action>, c: CallId, u: CallUsage)
    ensures AddUsage(Current(ApplyAll(Start(), actions).scopeUsage, c), u).Ok? <==> Fits(actions, c, u)
    ensures Fits(actions, c, u) ==>
              AddUsage(Current(ApplyAll(Start(), actions).scopeUsage, c), u).value == Plus(Held(actions, c), u)
  {
    ScopeHolds(actions, c);
    AddUsageExact(Held(actions, c), u, ADD_USAGE_LIMITS);
  }

  /** The state after a settlement, by what it does to the log and to each scope. */
  ghost predicate Settled(actions: seq<Action>, s: State, s': State, frame: nat, u: CallUsage, accepted: bool)
    requires frame < |s.frames|
  {
    && s'.log == s.log + [Entry(frame, u, accepted)]
    && s'.frames == s.frames && s'.inflight == s.inflight && s'.commits == s.commits
    && forall c :: if accepted && c in s.frames[frame].scopes then
                     c in s'.scopeUsage && s'.scopeUsage[c] == Plus(Held(actions, c), u)
                   else (c in s.scopeUsage <==> c in s'.scopeUsage)
                        && (c in s.scopeUsage ==> s'.scopeUsage[c] == s.scopeUsage[c])
  }

  /**
   * In every run a settlement is accepted if and only if the operation's own sum was and, for each scope of its frame,
   * the usage and its sum with what the scope holds are within limits. Accepted, it is added to each of these scopes;
   * refused, to none.
   */
  lemma AcceptedExactly(actions: seq<Action>, frame: nat, u: CallUsage, aggregateOk: bool)
    requires frame < |ApplyAll(Start(), actions).frames|
    ensures var s, s' := ApplyAll(Start(), actions), ApplyAll(Start(), actions + [Account(frame, u, aggregateOk)]);
            Settled(actions, s, s', frame, u, aggregateOk && forall c <- s.frames[frame].scopes :: Fits(actions, c, u))
  {
    var s := ApplyAll(Start(), actions);
    AfterOneMore(actions, Account(frame, u, aggregateOk));
    forall c ensures AddUsage(Current(s.scopeUsage, c), u).Ok? <==> Fits(actions, c, u) { FitsExactly(actions, c, u); }
    AcceptedScopes(actions, s, frame, u, aggregateOk);
  }

  lemma AcceptedScopes(actions: seq<Action>, s: State, frame: nat, u: CallUsage, aggregateOk: bool)
    requires s == ApplyAll(Start(), actions) && frame < |s.frames|
    requires forall c :: AddUsage(Current(s.scopeUsage, c), u).Ok? <==> Fits(actions, c, u)
    ensures Settled(actions, s, DoAccount(s, frame, u, aggregateOk), frame, u,
                    aggregateOk && forall c <- s.frames[frame].scopes :: Fits(actions, c, u))
  {
    var s' := DoAccount(s, frame, u, aggregateOk);
    forall c | c in s.frames[frame].scopes && s'.log[|s.log|].accepted
      ensures c in s'.scopeUsage && s'.scopeUsage[c] == Plus(Held(actions, c), u)
    {
      FitsExactly(actions, c, u);
    }
  }

  // ----- Plausible runs.

  /** Every settlement is a plausible usage of one call, and its operation's own sum holds. */
  predicate Plausible(actions: seq<Action>) {
    forall a <- actions :: a.Account? ==> a.aggregateOk && Within(a.usage, CALL_USAGE_LIMITS)
  }

  lemma {:induction false} UsagesOf(log: seq<Entry>, p: Entry -> bool)
    requires forall e <- log :: Within(e.usage, CALL_USAGE_LIMITS)
    ensures |Usages(log, p)| <= |log|
    ensures forall u <- Usages(log, p) :: Within(u, CALL_USAGE_LIMITS)
  {
    if log != [] {
      assert log[|log| - 1] in log;
      UsagesOf(log[..|log| - 1], p);
    }
  }

  lemma PlausibleSumFits(log: seq<Entry>, p: Entry -> bool, u: CallUsage)
    requires |log| < MILLION && (forall e <- log :: Within(e.usage, CALL_USAGE_LIMITS)) && Within(u, CALL_USAGE_LIMITS)
    ensures Within(Plus(SumUsage(Usages(log, p)), u), ADD_USAGE_LIMITS) && Within(u, ADD_USAGE_LIMITS)
  {
    UsagesOf(log, p);
    var usages := Usages(log, p);
    SumAtMostCalls(usages);
    OneMoreCall(SumUsage(usages), u, |usages|);
    MillionCallsFit(Plus(SumUsage(usages), u), |usages| + 1);
  }

  lemma PlausibleFits(actions: seq<Action>, c: CallId, u: CallUsage)
    requires var log := ApplyAll(Start(), actions).log;
             |log| < MILLION && forall e <- log :: Within(e.usage, CALL_USAGE_LIMITS)
    requires Within(u, CALL_USAGE_LIMITS)
    ensures Fits(actions, c, u)
  {
    var s := ApplyAll(Start(), actions);
    var recent := s.log[ResetAt(actions, c)..];
    forall e | e in recent ensures Within(e.usage, CALL_USAGE_LIMITS) { assert e in s.log; }
    PlausibleSumFits(recent, ScopeOf(s.frames, c), u);
  }

  ghost predicate EveryEntry(log: seq<Entry>) {
    forall e <- log :: e.accepted && Within(e.usage, CALL_USAGE_LIMITS)
  }

  lemma LogStep(actions: seq<Action>, a: Action)
    requires Plausible(actions + [a]) && EveryEntry(ApplyAll(Start(), actions).log)
    requires |ApplyAll(Start(), actions + [a]).log| <= MILLION
    ensures EveryEntry(ApplyAll(Start(), actions + [a]).log)
  {
    AfterOneMore(actions, a);
    var s := ApplyAll(Start(), actions);
    if a.Account? && a.frame < |s.frames| {
      assert a in actions + [a];
      forall c | c in s.frames[a.frame].scopes ensures Fits(actions, c, a.usage) { PlausibleFits(actions, c, a.usage); }
      AcceptedExactly(actions, a.frame, a.usage, a.aggregateOk);
    }
  }

  /** A run of at most a million plausible settlements has every one of them accepted in every scope. */
  lemma {:induction false} EverySettlementAccepted(actions: seq<Action>)
    requires Plausible(actions) && |ApplyAll(Start(), actions).log| <= MILLION
    ensures EveryEntry(ApplyAll(Start(), actions).log)
  {
    if actions != [] {
      var front, a := actions[..|actions| - 1], actions[|actions| - 1];
      assert actions == front + [a];
      forall x | x in front ensures x in actions {}
      AfterOneMore(front, a);
      EverySettlementAccepted(front);
      LogStep(front, a);
    }
  }

  /** So far nothing below the execution has settled after its usage was read, and nothing was late. */
  ghost predicate ReadLast(s: State, x: Commit)
    requires CommitOk(s.frames, s.log, x)
  {
    && (forall i | x.at <= i < |s.log| :: !Under(s.frames, x.execution, s.log[i].frame))
    && (forall e <- s.log[s.frames[x.execution].start..x.at] :: !Late(s.frames, x.execution, e))
  }

  /**
   * In such a run a committed recurse call carries the sum of everything that the run settles in its frame and below, at
   * any depth, if none of it comes after the reading and no earlier execution of the call settled late.
   */
  lemma PlausibleCommitIsTotal(actions: seq<Action>, j: nat)
    requires Plausible(actions) && |ApplyAll(Start(), actions).log| <= MILLION
    requires j < |ApplyAll(Start(), actions).commits|
    ensures var s := ApplyAll(Start(), actions);
            var x := s.commits[j];
            && CommitOk(s.frames, s.log, x)
            && (ReadLast(s, x) ==> x.usage == SumUsage(Usages(s.log, BelowOf(s.frames, x.execution))))
  {
    EverySettlementAccepted(actions);
    CommittedIsSubtreeTotal(actions, j);
  }

  /** Likewise an execution in flight reports exactly that sum if and only if nothing was late. */
  lemma PlausibleReportIsTotal(actions: seq<Action>, c: CallId)
    requires Plausible(actions) && |ApplyAll(Start(), actions).log| <= MILLION
    requires c in ApplyAll(Start(), actions).inflight
    ensures var s := ApplyAll(Start(), actions);
            var k := s.inflight[c];
            && k < |s.frames| && s.frames[k].start <= |s.log| && c in s.scopeUsage
            && (NothingLate(s, k) ==> s.scopeUsage[c] == SumUsage(Usages(s.log, BelowOf(s.frames, k))))
            && ((forall e <- s.log :: e.usage.attempts >= 1) ==>
                  (NothingLate(s, k) <==> s.scopeUsage[c] == SumUsage(Usages(s.log, BelowOf(s.frames, k)))))
  {
    EverySettlementAccepted(actions);
    ReportIsSubtreeTotal(actions, c);
  }

  // ----- An undisturbed execution.

  /** Settlements of one frame, one after the other. */
  function Settle(frame: nat, us: seq<CallUsage>): seq<Action> {
    if us == [] then [] else Settle(frame, us[..|us| - 1]) + [Account(frame, us[|us| - 1], true)]
  }

  function Entries(frame: nat, us: seq<CallUsage>): seq<Entry> {
    if us == [] then [] else Entries(frame, us[..|us| - 1]) + [Entry(frame, us[|us| - 1], true)]
  }

  lemma {:induction false} EntriesUsages(frames: seq<Frame>, frame: nat, us: seq<CallUsage>, c: CallId)
    requires frame < |frames| && c in frames[frame].scopes
    ensures Usages(Entries(frame, us), ScopeOf(frames, c)) == us
  {
    if us != [] {
      EntriesUsages(frames, frame, us[..|us| - 1], c);
      UsagesAppend(Entries(frame, us[..|us| - 1]), Entry(frame, us[|us| - 1], true), ScopeOf(frames, c));
    }
  }

  /** After the opening and these settlements, the execution's frame has settled exactly them. */
  ghost predicate Underway(before: State, s: State, parent: nat, c: CallId, us: seq<CallUsage>) {
    && parent < |before.frames|
    && s.frames == before.frames + [Frame(parent, c, before.frames[parent].scopes + [c], |before.log|)]
    && s.inflight == before.inflight[c := |before.frames|] && s.commits == before.commits
    && s.log == before.log + Entries(|before.frames|, us)
  }

  lemma OpensExecution(actions: seq<Action>, parent: nat, c: CallId)
    requires var before := ApplyAll(Start(), actions); parent < |before.frames| && c !in before.inflight
    ensures var path := actions + [OpenChild(parent, c)];
            && Underway(ApplyAll(Start(), actions), ApplyAll(Start(), path), parent, c, [])
            && ResetAt(path, c) == |ApplyAll(Start(), actions).log|
  {
    AfterOneMore(actions, OpenChild(parent, c));
    assert (actions + [OpenChild(parent, c)])[..|actions|] == actions;
  }

  lemma SettlesOne(actions: seq<Action>, before: State, parent: nat, c: CallId, us: seq<CallUsage>, u: CallUsage)
    requires Underway(before, ApplyAll(Start(), actions), parent, c, us)
    requires Within(u, CALL_USAGE_LIMITS) && |ApplyAll(Start(), actions).log| < MILLION
    requires forall e <- ApplyAll(Start(), actions).log :: Within(e.usage, CALL_USAGE_LIMITS)
    ensures var path := actions + [Account(|before.frames|, u, true)];
            && Underway(before, ApplyAll(Start(), path), parent, c, us + [u])
            && ResetAt(path, c) == ResetAt(actions, c)
  {
    var k := |before.frames|;
    var s := ApplyAll(Start(), actions);
    forall x | x in s.frames[k].scopes ensures Fits(actions, x, u) { PlausibleFits(actions, x, u); }
    AcceptedExactly(actions, k, u, true);
    assert (us + [u])[..|us|] == us;
    assert (actions + [Account(k, u, true)])[..|actions|] == actions;
  }

  lemma {:induction false} SettlesAll(actions: seq<Action>, parent: nat, c: CallId, us: seq<CallUsage>)
    requires var before := ApplyAll(Start(), actions); parent < |before.frames| && c !in before.inflight
    requires forall e <- ApplyAll(Start(), actions).log :: Within(e.usage, CALL_USAGE_LIMITS)
    requires (forall u <- us :: Within(u, CALL_USAGE_LIMITS)) && |ApplyAll(Start(), actions).log| + |us| <= MILLION
    ensures var before := ApplyAll(Start(), actions);
            var path := actions + [OpenChild(parent, c)] + Settle(|before.frames|, us);
            && Underway(before, ApplyAll(Start(), path), parent, c, us) && ResetAt(path, c) == |before.log|
            && |Entries(|before.frames|, us)| == |us|
            && forall e <- ApplyAll(Start(), path).log :: Within(e.usage, CALL_USAGE_LIMITS)
  {
    var k := |ApplyAll(Start(), actions).frames|;
    var path := actions + [OpenChild(parent, c)];
    if us == [] {
      OpensExecution(actions, parent, c);
      assert path + Settle(k, us) == path;
    } else {
      var front, u := us[..|us| - 1], us[|us| - 1];
      assert us == front + [u] && u in us;
      SettlesAll(actions, parent, c, front);
      SettlesOne(path + Settle(k, front), ApplyAll(Start(), actions), parent, c, front, u);
      assert path + Settle(k, us) == path + Settle(k, front) + [Account(k, u, true)];
    }
  }

  lemma UnderwayHolds(path: seq<Action>, before: State, parent: nat, c: CallId, us: seq<CallUsage>)
    requires var s := ApplyAll(Start(), path);
             Underway(before, s, parent, c, us) && ResetAt(path, c) == |before.log|
    ensures Held(path, c) == SumUsage(us)
  {
    var s := ApplyAll(Start(), path);
    assert s.log[|before.log|..] == Entries(|before.frames|, us);
    EntriesUsages(s.frames, |before.frames|, us, c);
  }

  /** The execution is over: it committed the sum of its settlements and left no scope and nothing in flight. */
  ghost predicate Concluded(before: State, s: State, parent: nat, c: CallId, us: seq<CallUsage>) {
    && parent < |before.frames|
    && s.frames == before.frames + [Frame(parent, c, before.frames[parent].scopes + [c], |before.log|)]
    && s.log == before.log + Entries(|before.frames|, us)
    && s.commits == before.commits + [Commit(|before.frames|, SumUsage(us), |before.log| + |us|)]
    && s.inflight == before.inflight && c !in s.scopeUsage
  }

  lemma ConcludedBy(s: State, before: State, parent: nat, c: CallId, us: seq<CallUsage>)
    requires Underway(before, s, parent, c, us) && c !in before.inflight
    requires Current(s.scopeUsage, c) == SumUsage(us) && |Entries(|before.frames|, us)| == |us|
    ensures Concluded(before, DoEndChild(DoCommitCall(s, c), c), parent, c, us)
  {
    assert before.inflight[c := |before.frames|] - {c} == before.inflight;
  }

  lemma AfterTwoMore(path: seq<Action>, a: Action, b: Action, mid: State)
    requires mid == Apply(ApplyAll(Start(), path), a)
    ensures ApplyAll(Start(), path + [a, b]) == Apply(mid, b)
  {
    AfterOneMore(path, a);
    assert (path + [a, b])[..|path| + 1] == path + [a];
  }

  lemma CommitsAndEnds(path: seq<Action>, before: State, parent: nat, c: CallId, us: seq<CallUsage>)
    requires Underway(before, ApplyAll(Start(), path), parent, c, us) && c !in before.inflight
    requires Held(path, c) == SumUsage(us) && |Entries(|before.frames|, us)| == |us|
    ensures Concluded(before, ApplyAll(Start(), path + [CommitCall(c), EndChild(c)]), parent, c, us)
  {
    var s := ApplyAll(Start(), path);
    ScopeHolds(path, c);
    AfterTwoMore(path, CommitCall(c), EndChild(c), DoCommitCall(s, c));
    ConcludedBy(s, before, parent, c, us);
  }

  /**
   * From every reachable state, an execution that opens, settles plausible usages undisturbed, is committed and ends,
   * commits exactly their sum and leaves no scope and no execution of the call behind.
   */
  lemma UndisturbedExecution(actions: seq<Action>, parent: nat, c: CallId, us: seq<CallUsage>)
    requires var before := ApplyAll(Start(), actions); parent < |before.frames| && c !in before.inflight
    requires forall e <- ApplyAll(Start(), actions).log :: Within(e.usage, CALL_USAGE_LIMITS)
    requires (forall u <- us :: Within(u, CALL_USAGE_LIMITS)) && |ApplyAll(Start(), actions).log| + |us| <= MILLION
    ensures var before := ApplyAll(Start(), actions);
            var path := actions + [OpenChild(parent, c)] + Settle(|before.frames|, us);
            Concluded(before, ApplyAll(Start(), path + [CommitCall(c), EndChild(c)]), parent, c, us)
  {
    var before := ApplyAll(Start(), actions);
    var path := actions + [OpenChild(parent, c)] + Settle(|before.frames|, us);
    SettlesAll(actions, parent, c, us);
    UnderwayHolds(path, before, parent, c, us);
    CommitsAndEnds(path, before, parent, c, us);
  }
}
