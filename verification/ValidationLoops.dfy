/**
 * The validator as the loops it is (src/runtime/run-recovery-journal.ts), against the fold and the bijection that
 * RecoveryJournal states.
 */
module ValidationLoops {
  import opened Wrappers
  import opened Journal
  import opened RecoveryJournal

  /** Once an event is refused, the whole journal is refused for the same reason. */
  lemma {:induction false} RefusalStands(m: Manifest, es: seq<Event>, k: nat)
    requires m.objective.Some? && k <= |es| && Fold(m, es[..k]).Err?
    ensures Fold(m, es) == Fold(m, es[..k])
    decreases |es|
  {
    if k == |es| {
      assert es[..k] == es;
    } else {
      assert es[..|es| - 1][..k] == es[..k];
      RefusalStands(m, es[..|es| - 1], k);
    }
  }

  /** One pass over the events; the first refusal ends it, and the end state is checked once. */
  method ValidateRecoveryJournal(m: Manifest, events: seq<Event>) returns (r: Result<RecoveryModel, RecoveryCode>)
    ensures r == Validate(m, events)
  {
    var start := CheckStart(m, events);
    if start.Err? { return Err(start.error); }
    var es := events[1..];
    var state := EMPTY_FOLD;
    for k := 0 to |es|
      invariant Fold(m, es[..k]) == Ok(state)
    {
      assert es[..k + 1][..k] == es[..k];
      var next := StepEvent(m, state, es[k]);
      if next.Err? {
        RefusalStands(m, es, k + 1);
        return Err(next.error);
      }
      state := next.value;
    }
    assert es[..|es|] == es;
    return Finish(m, state);
  }

  // ----- Child frames against recurse calls.

  predicate IsChild(s: FoldState, f: FrameId) { f in s.frames && s.frames[f].opening.parent.Some? }

  /** A closed frame that names a recurse execution of this run. */
  predicate Identified(m: Manifest, s: FoldState, f: FrameId)
    requires f in s.frames
  {
    f.runId == m.runId && f.tail.ExecutionTail? && f.tail.ordinal >= 1 && s.frames[f].closed.Some?
  }

  function OrdinalsOf(groups: map<Digest, set<nat>>, digest: Digest): set<nat> {
    if digest in groups then groups[digest] else {}
  }

  /** The groups hold exactly the ordinals of the child frames seen, and no group is empty. */
  ghost predicate Grouped(m: Manifest, s: FoldState, groups: map<Digest, set<nat>>, seen: set<FrameId>) {
    && (forall digest, n: nat {:trigger Execution(m, digest, n)} ::
          n in OrdinalsOf(groups, digest) <==> Execution(m, digest, n) in seen && IsChild(s, Execution(m, digest, n)))
    && (forall digest <- groups :: groups[digest] != {})
  }

  /** Group the child frames by recurse call; none if one of them does not name a closed execution. */
  method GroupChildren(m: Manifest, s: FoldState) returns (groups: Option<map<Digest, set<nat>>>)
    ensures groups.Some? <==> forall f | IsChild(s, f) :: Identified(m, s, f)
    ensures groups.Some? ==> Grouped(m, s, groups.value, s.frames.Keys)
  {
    var grouped: map<Digest, set<nat>> := map[];
    var remaining := s.frames.Keys;
    while remaining != {}
      invariant remaining <= s.frames.Keys
      invariant forall f | IsChild(s, f) && f !in remaining :: Identified(m, s, f)
      invariant Grouped(m, s, grouped, s.frames.Keys - remaining)
      decreases |remaining|
    {
      var f :| f in remaining;
      remaining := remaining - {f};
      if s.frames[f].opening.parent.Some? {
        if !Identified(m, s, f) {
          assert IsChild(s, f);
          return None;
        }
        assert f == Execution(m, f.tail.digest, f.tail.ordinal);
        grouped := grouped[f.tail.digest := OrdinalsOf(grouped, f.tail.digest) + {f.tail.ordinal}];
      }
    }
    return Some(grouped);
  }

  /** The ordinals are 1..n exactly when there are n of them and each of 1..n is among them. */
  lemma {:induction false} OrdinalsAreRange(ordinals: set<nat>, n: nat)
    requires forall k | 1 <= k <= n :: k in ordinals
    ensures |ordinals| >= n
    ensures |ordinals| == n <==> forall k <- ordinals :: 1 <= k <= n
  {
    if n == 0 {
      if ordinals != {} {
        var k :| k in ordinals;
        assert |ordinals| > 0;
      }
    } else {
      OrdinalsAreRange(ordinals - {n}, n - 1);
      assert ordinals == (ordinals - {n}) + {n};
      if forall k <- ordinals :: 1 <= k <= n {
        assert forall k <- ordinals - {n} :: 1 <= k <= n - 1;
      }
    }
  }

  predicate MatchedAt(m: Manifest, s: FoldState, digest: Digest, executions: seq<Call>, n: nat) {
    1 <= n <= |executions| && ExecutionMatches(s, Execution(m, digest, n), executions[n - 1])
  }

  /** Every execution has its child frame and there is no further child frame. */
  ghost predicate ExecutionsPaired(m: Manifest, s: FoldState, digest: Digest, ordinals: set<nat>, executions: seq<Call>) {
    && (forall n <- ordinals :: n <= |executions|)
    && (forall n {:trigger MatchedAt(m, s, digest, executions, n)} | 1 <= n <= |executions| ::
          MatchedAt(m, s, digest, executions, n))
  }

  /** One recurse call against its child frames: as many as executions, in order, from the same parent and outcome. */
  method MatchExecutions(m: Manifest, s: FoldState, digest: Digest, ordinals: set<nat>, executions: seq<Call>) returns (ok: bool)
    requires forall n: nat {:trigger Execution(m, digest, n)} :: n in ordinals <==> IsChild(s, Execution(m, digest, n))
    requires forall n <- ordinals :: n >= 1
    ensures ok <==> ExecutionsPaired(m, s, digest, ordinals, executions)
  {
    if ExecutionsPaired(m, s, digest, ordinals, executions) {
      forall n | 1 <= n <= |executions| ensures n in ordinals { assert MatchedAt(m, s, digest, executions, n); }
      OrdinalsAreRange(ordinals, |executions|);
    }
    if |ordinals| != |executions| { return false; }
    for index := 0 to |executions|
      invariant forall n {:trigger MatchedAt(m, s, digest, executions, n)} | 1 <= n <= index ::
                  MatchedAt(m, s, digest, executions, n)
      invariant forall n | 1 <= n <= index :: n in ordinals
    {
      var child := Execution(m, digest, index + 1);
      assert MatchedAt(m, s, digest, executions, index + 1) <==> ExecutionMatches(s, child, executions[index]);
      if index + 1 !in ordinals || !ExecutionMatches(s, child, executions[index]) { return false; }
    }
    OrdinalsAreRange(ordinals, |executions|);
    return true;
  }

  /** The child frames of the recurse calls are all accounted for. */
  ghost predicate CallPaired(m: Manifest, s: FoldState, groups: map<Digest, set<nat>>, c: CallId)
    requires c in s.calls
  {
    IsRecurse(s, c) ==>
      c.CallId? && c.kind == RecurseCall && ExecutionsPaired(m, s, c.digest, OrdinalsOf(groups, c.digest), s.calls[c])
  }

  ghost predicate GroupUsed(s: FoldState, digest: Digest) {
    CallId(RecurseCall, digest) in s.calls && IsRecurse(s, CallId(RecurseCall, digest))
  }

  /** The declarative bijection, by groups. */
  lemma BijectionByGroups(m: Manifest, s: FoldState, groups: map<Digest, set<nat>>)
    requires Grouped(m, s, groups, s.frames.Keys) && forall f | IsChild(s, f) :: Identified(m, s, f)
    ensures ExecutionsMatch(m, s) <==>
            && (forall c {:trigger CallPaired(m, s, groups, c)} | c in s.calls :: CallPaired(m, s, groups, c))
            && (forall digest <- groups :: GroupUsed(s, digest))
  {
    if ExecutionsMatch(m, s) {
      forall c | c in s.calls ensures CallPaired(m, s, groups, c) {
        if IsRecurse(s, c) {
          forall n | n in OrdinalsOf(groups, c.digest) ensures n <= |s.calls[c]| {
            var f := Execution(m, c.digest, n);
            assert IsChild(s, f);
          }
          forall n | 1 <= n <= |s.calls[c]| ensures MatchedAt(m, s, c.digest, s.calls[c], n) {
            assert ExecutionMatches(s, Execution(m, c.digest, n), s.calls[c][n - 1]);
          }
        }
      }
      forall digest | digest in groups ensures GroupUsed(s, digest) {
        var n :| n in groups[digest];
        assert n in OrdinalsOf(groups, digest);
        assert IsChild(s, Execution(m, digest, n));
      }
    }
    if (forall c {:trigger CallPaired(m, s, groups, c)} | c in s.calls :: CallPaired(m, s, groups, c))
       && (forall digest <- groups :: GroupUsed(s, digest)) {
      forall f | f in s.frames && s.frames[f].opening.parent.Some?
        ensures FrameLineage(m.runId, f).Some? && f.tail.ExecutionTail? && s.frames[f].closed.Some?
        ensures GroupUsed(s, f.tail.digest) && f.tail.ordinal <= |s.calls[CallId(RecurseCall, f.tail.digest)]|
      {
        assert IsChild(s, f) && Identified(m, s, f);
        assert f == Execution(m, f.tail.digest, f.tail.ordinal);
        assert f.tail.ordinal in OrdinalsOf(groups, f.tail.digest);
        assert GroupUsed(s, f.tail.digest);
        assert CallPaired(m, s, groups, CallId(RecurseCall, f.tail.digest));
      }
      forall c | c in s.calls && IsRecurse(s, c)
        ensures c.CallId? && c.kind == RecurseCall
        ensures forall n {:trigger Execution(m, c.digest, n)} :: 1 <= n <= |s.calls[c]| ==>
                  ExecutionMatches(s, Execution(m, c.digest, n), s.calls[c][n - 1])
      {
        assert CallPaired(m, s, groups, c);
        forall n | 1 <= n <= |s.calls[c]|
          ensures ExecutionMatches(s, Execution(m, c.digest, n), s.calls[c][n - 1])
        {
          assert MatchedAt(m, s, c.digest, s.calls[c], n);
        }
      }
    }
  }

  /** The loops over frames and calls decide exactly the bijection between child frames and recurse executions. */
  method ValidateRecurseExecutionBijection(m: Manifest, s: FoldState) returns (ok: bool)
    ensures ok <==> ExecutionsMatch(m, s)
  {
    var grouped := GroupChildren(m, s);
    if grouped.None? {
      UnidentifiedChildFails(m, s);
      return false;
    }
    var groups := grouped.value;
    BijectionByGroups(m, s, groups);
    var remaining, unused := s.calls.Keys, groups.Keys;
    while remaining != {}
      invariant remaining <= s.calls.Keys
      invariant forall c {:trigger CallPaired(m, s, groups, c)} | c in s.calls && c !in remaining :: CallPaired(m, s, groups, c)
      invariant forall digest <- groups :: digest in unused <==> !(GroupUsed(s, digest) && CallId(RecurseCall, digest) !in remaining)
      invariant unused <= groups.Keys
      decreases |remaining|
    {
      var c :| c in remaining;
      remaining := remaining - {c};
      if IsRecurse(s, c) {
        if !c.CallId? || c.kind != RecurseCall {
          assert !CallPaired(m, s, groups, c);
          return false;
        }
        forall n | n in OrdinalsOf(groups, c.digest) ensures n >= 1 {
          assert IsChild(s, Execution(m, c.digest, n));
        }
        var paired := MatchExecutions(m, s, c.digest, OrdinalsOf(groups, c.digest), s.calls[c]);
        if !paired {
          assert !CallPaired(m, s, groups, c);
          return false;
        }
        assert c == CallId(RecurseCall, c.digest);
        unused := unused - {c.digest};
      }
    }
    if unused != {} {
      var digest :| digest in unused;
      assert !GroupUsed(s, digest);
      return false;
    }
    return true;
  }

  lemma UnidentifiedChildFails(m: Manifest, s: FoldState)
    requires exists f :: IsChild(s, f) && !Identified(m, s, f)
    ensures !ExecutionsMatch(m, s)
  {
    var f :| IsChild(s, f) && !Identified(m, s, f);
    assert f in s.frames;
  }
}
