/**
 * Usage scopes of nested recurse executions (src/runtime/frame.ts, src/runtime/provider.ts): what usage a finished
 * recurse call reports, at any nesting depth and under any interleaving.
 */
module ScopeUsage {
  import opened Wrappers
  import opened Usage
  import opened Journal

  /** Frame 0 is the root. A child frame runs one execution of a recurse call; `start` is the log's length at its start. */
  datatype Frame = Frame(parent: nat, callId: CallId, scopes: seq<CallId>, start: nat)

  /** One settled attempt: its frame, its usage, and whether accounting accepted it. */
  datatype Entry = Entry(frame: nat, usage: CallUsage, accepted: bool)

  /** A committed recurse call: its execution's frame, the usage it reports, and the log's length when it was read. */
  datatype Commit = Commit(execution: nat, usage: CallUsage, at: nat)

  datatype State = State(
    frames: seq<Frame>, log: seq<Entry>, scopeUsage: map<CallId, CallUsage>, inflight: map<CallId, nat>,
    commits: seq<Commit>)

  /** A recurse attempt may be refused for calls, depth, frames or the deadline; it then executes nothing. */
  datatype Action =
    | OpenChild(parent: nat, callId: CallId)
    | RefuseChild(callId: CallId)
    | Account(frame: nat, usage: CallUsage, aggregateOk: bool)
    | CommitCall(callId: CallId)
    | EndChild(callId: CallId)

  function Start(): State { State([Frame(0, OtherCallId(""), [], 0)], [], map[], map[], []) }

  function Current(scopeUsage: map<CallId, CallUsage>, c: CallId): CallUsage {
    if c in scopeUsage then scopeUsage[c] else ZERO_CALL_USAGE
  }

  /** A call that is in flight is awaited instead of executed again. */
  function DoOpenChild(s: State, parent: nat, c: CallId): State
    requires parent < |s.frames|
  {
    if c in s.inflight then s
    else s.(
      frames := s.frames + [Frame(parent, c, s.frames[parent].scopes + [c], |s.log|)],
      scopeUsage := s.scopeUsage[c := ZERO_CALL_USAGE],
      inflight := s.inflight[c := |s.frames|])
  }

  predicate ScopesAccept(scopeUsage: map<CallId, CallUsage>, scopes: seq<CallId>, u: CallUsage) {
    forall c <- scopes :: AddUsage(Current(scopeUsage, c), u).Ok?
  }

  /** Every sum is computed before any is stored, so accounting takes effect in all scopes or in none. */
  function DoAccount(s: State, frame: nat, u: CallUsage, aggregateOk: bool): State
    requires frame < |s.frames|
  {
    var scopes := s.frames[frame].scopes;
    if !aggregateOk || !ScopesAccept(s.scopeUsage, scopes, u) then s.(log := s.log + [Entry(frame, u, false)])
    else s.(
      log := s.log + [Entry(frame, u, true)],
      scopeUsage := map c <- s.scopeUsage.Keys + (set c <- scopes) ::
                      if c in scopes then AddUsage(Current(s.scopeUsage, c), u).value else s.scopeUsage[c])
  }

  /** A refused attempt leaves through the same exit as an execution and deletes the scope of its call. */
  function DoRefuseChild(s: State, c: CallId): State {
    if c in s.inflight then s else s.(scopeUsage := s.scopeUsage - {c})
  }

  function DoCommitCall(s: State, c: CallId): State {
    if c !in s.inflight then s
    else s.(commits := s.commits + [Commit(s.inflight[c], Current(s.scopeUsage, c), |s.log|)])
  }

  function DoEndChild(s: State, c: CallId): State {
    if c !in s.inflight then s else s.(scopeUsage := s.scopeUsage - {c}, inflight := s.inflight - {c})
  }

  function Apply(s: State, a: Action): State {
    match a
    case OpenChild(parent, c) => if parent < |s.frames| then DoOpenChild(s, parent, c) else s
    case RefuseChild(c) => DoRefuseChild(s, c)
    case Account(frame, u, ok) => if frame < |s.frames| then DoAccount(s, frame, u, ok) else s
    case CommitCall(c) => DoCommitCall(s, c)
    case EndChild(c) => DoEndChild(s, c)
  }

  function ApplyAll(s: State, actions: seq<Action>): State {
    if actions == [] then s else Apply(ApplyAll(s, actions[..|actions| - 1]), actions[|actions| - 1])
  }

  // ----- The frame tree and its scopes.

  ghost predicate FrameOk(frames: seq<Frame>, i: nat)
    requires i < |frames|
  {
    if i == 0 then frames[0].scopes == []
    else
      && frames[i].parent < i
      && frames[i].scopes == frames[frames[i].parent].scopes + [frames[i].callId]
      && frames[frames[i].parent].start <= frames[i].start
  }

  ghost predicate FramesOk(frames: seq<Frame>) {
    frames != [] && forall i {:trigger FrameOk(frames, i)} | 0 <= i < |frames| :: FrameOk(frames, i)
  }

  /** Frame `f` is the frame `k` or lies somewhere below it. */
  ghost predicate Under(frames: seq<Frame>, k: nat, f: nat) {
    f == k || (0 < f < |frames| && frames[f].parent < f && Under(frames, k, frames[f].parent))
  }

  /** The scopes of a frame are exactly the recurse calls that it and its ancestors execute. */
  lemma {:induction false} ScopesNameExecutions(frames: seq<Frame>, f: nat, c: CallId) returns (k: nat)
    requires FramesOk(frames) && f < |frames|
    ensures c in frames[f].scopes ==> 0 < k <= f && frames[k].callId == c && Under(frames, k, f)
  {
    k := f;
    assert FrameOk(frames, f);
    if c in frames[f].scopes && frames[f].callId != c { k := ScopesNameExecutions(frames, frames[f].parent, c); }
  }

  lemma {:induction false} ExecutionsAreScopes(frames: seq<Frame>, k: nat, f: nat)
    requires FramesOk(frames) && 0 < k < |frames| && f < |frames| && Under(frames, k, f)
    ensures frames[k].callId in frames[f].scopes && k <= f && frames[k].start <= frames[f].start
  {
    assert FrameOk(frames, f);
    if f != k { ExecutionsAreScopes(frames, k, frames[f].parent); }
  }

  lemma {:induction false} UnderKept(frames: seq<Frame>, last: Frame, k: nat, f: nat)
    requires f < |frames|
    ensures Under(frames + [last], k, f) <==> Under(frames, k, f)
  {
    if f != k && 0 < f && frames[f].parent < f { UnderKept(frames, last, k, frames[f].parent); }
  }

  // ----- The usages that meet a condition, in the order they were settled.

  function Usages(log: seq<Entry>, p: Entry -> bool): seq<CallUsage> {
    if log == [] then []
    else Usages(log[..|log| - 1], p) + (if p(log[|log| - 1]) then [log[|log| - 1].usage] else [])
  }

  lemma UsagesAppend(log: seq<Entry>, e: Entry, p: Entry -> bool)
    ensures Usages(log + [e], p) == Usages(log, p) + (if p(e) then [e.usage] else [])
  {
    assert (log + [e])[..|log|] == log;
  }

  lemma {:induction false} UsagesSame(log: seq<Entry>, p: Entry -> bool, q: Entry -> bool)
    requires forall e <- log :: p(e) == q(e)
    ensures Usages(log, p) == Usages(log, q)
  {
    if log != [] { UsagesSame(log[..|log| - 1], p, q); }
  }

  lemma {:induction false} UsagesAfter(log: seq<Entry>, n: nat, p: Entry -> bool)
    requires n <= |log| && forall j | 0 <= j < n :: !p(log[j])
    ensures Usages(log, p) == Usages(log[n..], p)
  {
    if n == |log| {
      if n > 0 { UsagesAfter(log[..n - 1], n - 1, p); }
    } else {
      assert log[..|log| - 1][n..] == log[n..][..|log| - n - 1];
      UsagesAfter(log[..|log| - 1], n, p);
    }
  }

  lemma SumStep(log: seq<Entry>, p: Entry -> bool)
    requires log != []
    ensures var front, e := log[..|log| - 1], log[|log| - 1];
            SumUsage(Usages(log, p)) ==
            if p(e) then Plus(SumUsage(Usages(front, p)), e.usage) else SumUsage(Usages(front, p))
  {
    var us, u := Usages(log[..|log| - 1], p), log[|log| - 1].usage;
    assert (us + [u])[..|us|] == us;
    assert us + [] == us;
  }

  lemma PlusRegroups(a: CallUsage, b: CallUsage, c: CallUsage)
    ensures Plus(Plus(a, b), c) == Plus(a, Plus(b, c))
    ensures Plus(Plus(a, b), c) == Plus(Plus(a, c), b)
  {
  }

  /** Two disjoint conditions split the sum. */
  lemma {:induction false} SumSplits(log: seq<Entry>, p: Entry -> bool, q: Entry -> bool, either: Entry -> bool)
    requires forall e <- log :: (either(e) <==> p(e) || q(e)) && !(p(e) && q(e))
    ensures SumUsage(Usages(log, either)) == Plus(SumUsage(Usages(log, p)), SumUsage(Usages(log, q)))
  {
    if log != [] {
      var front, e := log[..|log| - 1], log[|log| - 1];
      SumSplits(front, p, q, either);
      assert e in log;
      SumStep(log, either);
      SumStep(log, p);
      SumStep(log, q);
      PlusRegroups(SumUsage(Usages(front, p)), SumUsage(Usages(front, q)), e.usage);
    }
  }

  // ----- What every scope holds.

  predicate InScope(frames: seq<Frame>, c: CallId, e: Entry) {
    e.accepted && e.frame < |frames| && c in frames[e.frame].scopes
  }

  function ScopeOf(frames: seq<Frame>, c: CallId): Entry -> bool { e => InScope(frames, c, e) }

  ghost predicate EntryOk(frames: seq<Frame>, log: seq<Entry>, j: nat)
    requires j < |log|
  {
    log[j].frame < |frames| && frames[log[j].frame].start <= j
  }

  /** The scope of an execution in flight has accumulated every accepted usage in scope since it opened. */
  ghost predicate ScopeOk(s: State, c: CallId)
    requires c in s.inflight
  {
    var k := s.inflight[c];
    && 0 < k < |s.frames| && s.frames[k].callId == c && s.frames[k].start <= |s.log|
    && c in s.scopeUsage
    && Accumulate(Usages(s.log[s.frames[k].start..], ScopeOf(s.frames, c))) == Ok(s.scopeUsage[c])
    && forall i | k < i < |s.frames| :: s.frames[i].callId != c
  }

  ghost predicate Sound(s: State) {
    && FramesOk(s.frames)
    && (forall j {:trigger EntryOk(s.frames, s.log, j)} | 0 <= j < |s.log| :: EntryOk(s.frames, s.log, j))
    && (forall c {:trigger ScopeOk(s, c)} | c in s.inflight :: ScopeOk(s, c))
    && (forall i {:trigger s.frames[i]} | 0 <= i < |s.frames| :: s.frames[i].start <= |s.log|)
  }

  lemma OpenChildKeepsFrames(s: State, parent: nat, c: CallId)
    requires Sound(s) && parent < |s.frames| && c !in s.inflight
    ensures FramesOk(DoOpenChild(s, parent, c).frames)
  {
    var frames := DoOpenChild(s, parent, c).frames;
    forall i | 0 <= i < |frames| ensures FrameOk(frames, i) {
      if i < |s.frames| { assert FrameOk(s.frames, i); }
    }
  }

  lemma OpenChildKeepsScope(s: State, parent: nat, c: CallId, x: CallId)
    requires Sound(s) && parent < |s.frames| && c !in s.inflight && x in s.inflight
    ensures ScopeOk(DoOpenChild(s, parent, c), x)
  {
    var s' := DoOpenChild(s, parent, c);
    assert ScopeOk(s, x);
    var recent := s.log[s.frames[s.inflight[x]].start..];
    forall e | e in recent ensures InScope(s.frames, x, e) == InScope(s'.frames, x, e) {
      var j :| 0 <= j < |s.log| && s.log[j] == e;
      assert EntryOk(s.frames, s.log, j);
    }
    UsagesSame(recent, ScopeOf(s.frames, x), ScopeOf(s'.frames, x));
  }

  lemma OpenChildKeepsSound(s: State, parent: nat, c: CallId)
    requires Sound(s) && parent < |s.frames|
    ensures Sound(DoOpenChild(s, parent, c))
  {
    var s' := DoOpenChild(s, parent, c);
    if c !in s.inflight {
      OpenChildKeepsFrames(s, parent, c);
      forall j | 0 <= j < |s.log| ensures EntryOk(s'.frames, s'.log, j) { assert EntryOk(s.frames, s.log, j); }
      forall x | x in s'.inflight ensures ScopeOk(s', x) { if x != c { OpenChildKeepsScope(s, parent, c, x); } }
    }
  }

  lemma AccountedScope(s: State, frame: nat, u: CallUsage, aggregateOk: bool, c: CallId)
    requires frame < |s.frames| && c in s.scopeUsage
    ensures var s' := DoAccount(s, frame, u, aggregateOk);
            var e := s'.log[|s.log|];
            && s'.frames == s.frames && s'.inflight == s.inflight && s'.log == s.log + [e] && c in s'.scopeUsage
            && e.usage == u
            && (if InScope(s.frames, c, e) then AddUsage(s.scopeUsage[c], u) == Ok(s'.scopeUsage[c])
                else s'.scopeUsage[c] == s.scopeUsage[c])
  {
  }

  lemma AccountKeepsScope(s: State, frame: nat, u: CallUsage, aggregateOk: bool, c: CallId)
    requires Sound(s) && frame < |s.frames| && c in s.inflight
    ensures ScopeOk(DoAccount(s, frame, u, aggregateOk), c)
  {
    var s' := DoAccount(s, frame, u, aggregateOk);
    assert ScopeOk(s, c);
    AccountedScope(s, frame, u, aggregateOk, c);
    var start, e := s.frames[s.inflight[c]].start, s'.log[|s.log|];
    assert s'.log[start..] == s.log[start..] + [e];
    UsagesAppend(s.log[start..], e, ScopeOf(s.frames, c));
    AccumulateAppend(Usages(s.log[start..], ScopeOf(s.frames, c)), u);
  }

  lemma AccountKeepsSound(s: State, frame: nat, u: CallUsage, aggregateOk: bool)
    requires Sound(s) && frame < |s.frames|
    ensures Sound(DoAccount(s, frame, u, aggregateOk))
  {
    var s' := DoAccount(s, frame, u, aggregateOk);
    forall j | 0 <= j < |s'.log| ensures EntryOk(s'.frames, s'.log, j) {
      if j < |s.log| { assert EntryOk(s.frames, s.log, j); } else { assert s.frames[frame].start <= |s.log|; }
    }
    forall c | c in s'.inflight ensures ScopeOk(s', c) { AccountKeepsScope(s, frame, u, aggregateOk, c); }
  }

  lemma EndChildKeepsSound(s: State, c: CallId)
    requires Sound(s)
    ensures Sound(DoEndChild(s, c))
  {
    var s' := DoEndChild(s, c);
    forall j | 0 <= j < |s.log| ensures EntryOk(s'.frames, s'.log, j) { assert EntryOk(s.frames, s.log, j); }
    forall x | x in s'.inflight ensures ScopeOk(s', x) { assert ScopeOk(s, x); }
  }

  lemma RefuseChildKeepsSound(s: State, c: CallId)
    requires Sound(s)
    ensures Sound(DoRefuseChild(s, c))
  {
    var s' := DoRefuseChild(s, c);
    forall j | 0 <= j < |s.log| ensures EntryOk(s'.frames, s'.log, j) { assert EntryOk(s.frames, s.log, j); }
    forall x | x in s'.inflight ensures ScopeOk(s', x) { assert ScopeOk(s, x); }
  }

  lemma CommitCallKeepsSound(s: State, c: CallId)
    requires Sound(s)
    ensures Sound(DoCommitCall(s, c))
  {
    var s' := DoCommitCall(s, c);
    forall j | 0 <= j < |s.log| ensures EntryOk(s'.frames, s'.log, j) { assert EntryOk(s.frames, s.log, j); }
    forall x | x in s'.inflight ensures ScopeOk(s', x) { assert ScopeOk(s, x); }
  }

  lemma {:induction false} RunKeepsSound(actions: seq<Action>)
    ensures Sound(ApplyAll(Start(), actions))
  {
    if actions == [] {
      assert FrameOk(Start().frames, 0);
    } else {
      var s := ApplyAll(Start(), actions[..|actions| - 1]);
      RunKeepsSound(actions[..|actions| - 1]);
      match actions[|actions| - 1] {
        case OpenChild(parent, c) => if parent < |s.frames| { OpenChildKeepsSound(s, parent, c); }
        case Account(frame, u, ok) => if frame < |s.frames| { AccountKeepsSound(s, frame, u, ok); }
        case RefuseChild(c) => RefuseChildKeepsSound(s, c);
        case CommitCall(c) => CommitCallKeepsSound(s, c);
        case EndChild(c) => EndChildKeepsSound(s, c);
      }
    }
  }

  // ----- What a recurse call reports.

  /** Accepted usages of the execution's own frame and of every frame below it. */
  ghost predicate InSubtree(frames: seq<Frame>, k: nat, e: Entry) { e.accepted && Under(frames, k, e.frame) }

  /** Accepted usages that an earlier execution of the same call settles late. */
  ghost predicate Late(frames: seq<Frame>, k: nat, e: Entry) {
    e.accepted && e.frame < |frames| && !Under(frames, k, e.frame)
    && exists i {:trigger Under(frames, i, e.frame)} | 0 < i < k && k < |frames| ::
         frames[i].callId == frames[k].callId && Under(frames, i, e.frame)
  }

  /** Since an execution opened, its scope sees its own subtree and late settlements of earlier executions. */
  lemma ScopeSees(s: State, c: CallId, j: nat)
    requires Sound(s) && c in s.inflight && j < |s.log|
    ensures InScope(s.frames, c, s.log[j]) <==>
            InSubtree(s.frames, s.inflight[c], s.log[j]) || Late(s.frames, s.inflight[c], s.log[j])
  {
    var k, e := s.inflight[c], s.log[j];
    assert ScopeOk(s, c) && EntryOk(s.frames, s.log, j);
    var i := ScopesNameExecutions(s.frames, e.frame, c);
    if Under(s.frames, k, e.frame) { ExecutionsAreScopes(s.frames, k, e.frame); }
    if Late(s.frames, k, e) {
      var earlier :| 0 < earlier < k && s.frames[earlier].callId == c && Under(s.frames, earlier, e.frame);
      ExecutionsAreScopes(s.frames, earlier, e.frame);
    }
  }

  lemma SubtreeIsRecent(s: State, k: nat, j: nat)
    requires Sound(s) && 0 < k < |s.frames| && j < s.frames[k].start <= |s.log|
    ensures !InSubtree(s.frames, k, s.log[j])
  {
    assert EntryOk(s.frames, s.log, j);
    if Under(s.frames, k, s.log[j].frame) { ExecutionsAreScopes(s.frames, k, s.log[j].frame); }
  }

  ghost function SubtreeOf(frames: seq<Frame>, k: nat): Entry -> bool { e => InSubtree(frames, k, e) }

  ghost function LateOf(frames: seq<Frame>, k: nat): Entry -> bool { e => Late(frames, k, e) }

  /** The sum that a scope holds, taken apart. */
  lemma ScopeIsSubtreePlusLate(s: State, c: CallId)
    requires Sound(s) && c in s.inflight
    ensures var k := s.inflight[c];
            && k < |s.frames| && s.frames[k].start <= |s.log| && c in s.scopeUsage
            && s.scopeUsage[c] == Plus(SumUsage(Usages(s.log, SubtreeOf(s.frames, k))),
                                       SumUsage(Usages(s.log[s.frames[k].start..], LateOf(s.frames, k))))
  {
    assert ScopeOk(s, c);
    var k := s.inflight[c];
    var start := s.frames[k].start;
    var recent := s.log[start..];
    AccumulateExact(Usages(recent, ScopeOf(s.frames, c)));
    forall e | e in recent
      ensures InScope(s.frames, c, e) <==> InSubtree(s.frames, k, e) || Late(s.frames, k, e)
    {
      var j :| 0 <= j < |s.log| && s.log[j] == e;
      ScopeSees(s, c, j);
    }
    SumSplits(recent, SubtreeOf(s.frames, k), LateOf(s.frames, k), ScopeOf(s.frames, c));
    forall j | 0 <= j < start ensures !InSubtree(s.frames, k, s.log[j]) { SubtreeIsRecent(s, k, j); }
    UsagesAfter(s.log, start, SubtreeOf(s.frames, k));
  }

  /**
   * Recursive usage conservation: at every moment of every interleaving, the usage that an execution in flight would
   * report is the sum of what its frame and every frame below it settled, plus what earlier executions of the same
   * call settled after it opened.
   */
  lemma ReportedUsage(actions: seq<Action>, c: CallId)
    requires c in ApplyAll(Start(), actions).inflight
    ensures var s := ApplyAll(Start(), actions);
            var k := s.inflight[c];
            && k < |s.frames| && s.frames[k].start <= |s.log| && c in s.scopeUsage
            && s.scopeUsage[c] == Plus(SumUsage(Usages(s.log, SubtreeOf(s.frames, k))),
                                       SumUsage(Usages(s.log[s.frames[k].start..], LateOf(s.frames, k))))
  {
    RunKeepsSound(actions);
    ScopeIsSubtreePlusLate(ApplyAll(Start(), actions), c);
  }

  // ----- When the report is exactly the subtree's total.

  ghost function BelowOf(frames: seq<Frame>, k: nat): Entry -> bool { (e: Entry) => Under(frames, k, e.frame) }

  /** Accounting accepted everything that settled in the execution's frame or below it. */
  ghost predicate AllAccepted(s: State, k: nat) {
    forall e <- s.log :: Under(s.frames, k, e.frame) ==> e.accepted
  }

  /** Since the execution opened, no earlier execution of the call has settled anything. */
  ghost predicate NothingLate(s: State, k: nat)
    requires k < |s.frames| && s.frames[k].start <= |s.log|
  {
    forall e <- s.log[s.frames[k].start..] :: !Late(s.frames, k, e)
  }

  lemma {:induction false} NoUsages(log: seq<Entry>, p: Entry -> bool)
    requires forall e <- log :: !p(e)
    ensures Usages(log, p) == []
  {
    if log != [] { NoUsages(log[..|log| - 1], p); }
  }

  /** Every settled usage counts its attempt, so a sum without attempts is a sum of nothing. */
  lemma {:induction false} AttemptsCount(log: seq<Entry>, p: Entry -> bool)
    requires forall e <- log :: e.usage.attempts >= 1
    ensures SumUsage(Usages(log, p)).attempts >= 0
    ensures SumUsage(Usages(log, p)).attempts == 0 ==> forall e <- log :: !p(e)
  {
    if log != [] {
      assert log == log[..|log| - 1] + [log[|log| - 1]];
      assert log[|log| - 1] in log;
      AttemptsCount(log[..|log| - 1], p);
      SumStep(log, p);
    }
  }

  lemma SubtreeIsBelow(s: State, k: nat)
    requires AllAccepted(s, k)
    ensures Usages(s.log, SubtreeOf(s.frames, k)) == Usages(s.log, BelowOf(s.frames, k))
  {
    UsagesSame(s.log, SubtreeOf(s.frames, k), BelowOf(s.frames, k));
  }

  lemma PlusNothing(reported: CallUsage, subtree: CallUsage, late: CallUsage)
    requires reported == Plus(subtree, late)
    ensures late == ZERO_CALL_USAGE ==> reported == subtree
    ensures reported == subtree ==> late.attempts == 0
  {
  }

  /**
   * Then the report is the sum of all settlements of the frame and of every frame below it, whenever made, if and only
   * if no earlier execution of the call has settled late since the opening.
   */
  lemma ReportIsSubtreeTotal(actions: seq<Action>, c: CallId)
    requires c in ApplyAll(Start(), actions).inflight
    requires AllAccepted(ApplyAll(Start(), actions), ApplyAll(Start(), actions).inflight[c])
    ensures var s := ApplyAll(Start(), actions);
            var k := s.inflight[c];
            var total := SumUsage(Usages(s.log, BelowOf(s.frames, k)));
            && k < |s.frames| && s.frames[k].start <= |s.log| && c in s.scopeUsage
            && (NothingLate(s, k) ==> s.scopeUsage[c] == total)
            && ((forall e <- s.log :: e.usage.attempts >= 1) && s.scopeUsage[c] == total ==> NothingLate(s, k))
  {
    RunKeepsSound(actions);
    var s := ApplyAll(Start(), actions);
    var k := s.inflight[c];
    ScopeIsSubtreePlusLate(s, c);
    SubtreeIsBelow(s, k);
    var recent := s.log[s.frames[k].start..];
    PlusNothing(s.scopeUsage[c], SumUsage(Usages(s.log, BelowOf(s.frames, k))),
                SumUsage(Usages(recent, LateOf(s.frames, k))));
    if NothingLate(s, k) { NoUsages(recent, LateOf(s.frames, k)); }
    if forall e <- s.log :: e.usage.attempts >= 1 {
      forall e | e in recent ensures e.usage.attempts >= 1 { assert e in s.log; }
      AttemptsCount(recent, LateOf(s.frames, k));
    }
  }

  // ----- What a committed call carries.

  /** The usage is what the execution and the frames below it had settled when it was read, and what was late by then. */
  ghost predicate CommitOk(frames: seq<Frame>, log: seq<Entry>, x: Commit) {
    && 0 < x.execution < |frames| && frames[x.execution].start <= x.at <= |log|
    && x.usage == Plus(SumUsage(Usages(log[..x.at], SubtreeOf(frames, x.execution))),
                       SumUsage(Usages(log[frames[x.execution].start..x.at], LateOf(frames, x.execution))))
  }

  lemma LateKept(frames: seq<Frame>, last: Frame, k: nat, e: Entry)
    requires k < |frames| && e.frame < |frames|
    ensures Late(frames + [last], k, e) <==> Late(frames, k, e)
  {
    var frames' := frames + [last];
    forall i: nat ensures Under(frames', i, e.frame) <==> Under(frames, i, e.frame) {
      UnderKept(frames, last, i, e.frame);
    }
  }

  lemma CommitKeptByFrame(frames: seq<Frame>, log: seq<Entry>, last: Frame, x: Commit)
    requires CommitOk(frames, log, x) && forall e <- log :: e.frame < |frames|
    ensures CommitOk(frames + [last], log, x)
  {
    var k := x.execution;
    var recent := log[frames[k].start..x.at];
    forall e | e in log[..x.at] ensures SubtreeOf(frames, k)(e) == SubtreeOf(frames + [last], k)(e) {
      UnderKept(frames, last, k, e.frame);
    }
    UsagesSame(log[..x.at], SubtreeOf(frames, k), SubtreeOf(frames + [last], k));
    forall e | e in recent ensures LateOf(frames, k)(e) == LateOf(frames + [last], k)(e) {
      assert e in log;
      LateKept(frames, last, k, e);
    }
    UsagesSame(recent, LateOf(frames, k), LateOf(frames + [last], k));
  }

  lemma CommitKeptByEntry(frames: seq<Frame>, log: seq<Entry>, e: Entry, x: Commit)
    requires CommitOk(frames, log, x)
    ensures CommitOk(frames, log + [e], x)
  {
    assert (log + [e])[..x.at] == log[..x.at];
    assert (log + [e])[frames[x.execution].start..x.at] == log[frames[x.execution].start..x.at];
  }

  ghost predicate CommitsOk(s: State) {
    forall j {:trigger s.commits[j]} | 0 <= j < |s.commits| :: CommitOk(s.frames, s.log, s.commits[j])
  }

  lemma CommitNow(frames: seq<Frame>, log: seq<Entry>, k: nat, usage: CallUsage)
    requires 0 < k < |frames| && frames[k].start <= |log|
    requires usage == Plus(SumUsage(Usages(log, SubtreeOf(frames, k))),
                           SumUsage(Usages(log[frames[k].start..], LateOf(frames, k))))
    ensures CommitOk(frames, log, Commit(k, usage, |log|))
  {
    assert log[..|log|] == log && log[frames[k].start..|log|] == log[frames[k].start..];
  }

  lemma NewCommitOk(s: State, c: CallId)
    requires Sound(s) && c in s.inflight
    ensures CommitOk(s.frames, s.log, Commit(s.inflight[c], Current(s.scopeUsage, c), |s.log|))
  {
    assert ScopeOk(s, c);
    ScopeIsSubtreePlusLate(s, c);
    CommitNow(s.frames, s.log, s.inflight[c], Current(s.scopeUsage, c));
  }

  lemma CommitsKeptByFrame(s: State, parent: nat, c: CallId)
    requires Sound(s) && CommitsOk(s) && parent < |s.frames|
    ensures CommitsOk(DoOpenChild(s, parent, c))
  {
    var s' := DoOpenChild(s, parent, c);
    if c !in s.inflight {
      forall e | e in s.log ensures e.frame < |s.frames| {
        var i :| 0 <= i < |s.log| && s.log[i] == e;
        assert EntryOk(s.frames, s.log, i);
      }
      forall j | 0 <= j < |s'.commits| ensures CommitOk(s'.frames, s'.log, s'.commits[j]) {
        CommitKeptByFrame(s.frames, s.log, s'.frames[|s.frames|], s.commits[j]);
      }
    }
  }

  lemma CommitsKeptByEntry(s: State, frame: nat, u: CallUsage, aggregateOk: bool)
    requires CommitsOk(s) && frame < |s.frames|
    ensures CommitsOk(DoAccount(s, frame, u, aggregateOk))
  {
    var s' := DoAccount(s, frame, u, aggregateOk);
    forall j | 0 <= j < |s'.commits| ensures CommitOk(s'.frames, s'.log, s'.commits[j]) {
      CommitKeptByEntry(s.frames, s.log, s'.log[|s.log|], s.commits[j]);
    }
  }

  lemma CommitsKept(s: State, s': State)
    requires CommitsOk(s) && s'.frames == s.frames && s'.log == s.log && s'.commits == s.commits
    ensures CommitsOk(s')
  {
    forall j | 0 <= j < |s'.commits| ensures CommitOk(s'.frames, s'.log, s'.commits[j]) {
      assert CommitOk(s.frames, s.log, s.commits[j]);
    }
  }

  lemma CommitsAppend(s: State, s': State, x: Commit)
    requires CommitsOk(s) && s' == s.(commits := s.commits + [x]) && CommitOk(s.frames, s.log, x)
    ensures CommitsOk(s')
  {
    forall j | 0 <= j < |s'.commits| ensures CommitOk(s'.frames, s'.log, s'.commits[j]) {
      if j < |s.commits| { assert CommitOk(s.frames, s.log, s.commits[j]); }
    }
  }

  lemma CommitCallKeepsCommits(s: State, c: CallId)
    requires Sound(s) && CommitsOk(s) && c in s.inflight
    ensures CommitsOk(DoCommitCall(s, c))
  {
    NewCommitOk(s, c);
    CommitsAppend(s, DoCommitCall(s, c), Commit(s.inflight[c], Current(s.scopeUsage, c), |s.log|));
  }

  lemma StepKeepsCommits(s: State, a: Action)
    requires Sound(s) && CommitsOk(s)
    ensures CommitsOk(Apply(s, a))
  {
    match a {
      case OpenChild(parent, c) => if parent < |s.frames| { CommitsKeptByFrame(s, parent, c); }
      case Account(frame, u, ok) => if frame < |s.frames| { CommitsKeptByEntry(s, frame, u, ok); }
      case CommitCall(c) => if c in s.inflight { CommitCallKeepsCommits(s, c); }
      case _ => CommitsKept(s, Apply(s, a));
    }
  }

  /**
   * In every run the usage that a committed recurse call carries is the sum of what its frame and every frame below it
   * had settled when it was read, plus what earlier executions of the call had settled late since the opening.
   */
  lemma {:induction false} CommittedUsage(actions: seq<Action>)
    ensures CommitsOk(ApplyAll(Start(), actions))
  {
    if actions != [] {
      CommittedUsage(actions[..|actions| - 1]);
      RunKeepsSound(actions[..|actions| - 1]);
      StepKeepsCommits(ApplyAll(Start(), actions[..|actions| - 1]), actions[|actions| - 1]);
    }
  }

  /** Nothing below the execution settles once its usage is read, accounting accepted all of it, and nothing was late. */
  ghost predicate Conserved(s: State, x: Commit)
    requires CommitOk(s.frames, s.log, x)
  {
    && AllAccepted(s, x.execution)
    && (forall i | x.at <= i < |s.log| :: !Under(s.frames, x.execution, s.log[i].frame))
    && (forall e <- s.log[s.frames[x.execution].start..x.at] :: !Late(s.frames, x.execution, e))
  }

  lemma {:induction false} UsagesBefore(log: seq<Entry>, n: nat, p: Entry -> bool)
    requires n <= |log| && forall i | n <= i < |log| :: !p(log[i])
    ensures Usages(log, p) == Usages(log[..n], p)
  {
    if n == |log| {
      assert log[..n] == log;
    } else {
      assert log[..|log| - 1][..n] == log[..n];
      UsagesBefore(log[..|log| - 1], n, p);
    }
  }

  /** Then it is the sum of all settlements of the run in that frame and below, earlier and later ones. */
  lemma CommittedIsSubtreeTotal(actions: seq<Action>, j: nat)
    requires j < |ApplyAll(Start(), actions).commits|
    ensures var s := ApplyAll(Start(), actions);
            var x := s.commits[j];
            && CommitOk(s.frames, s.log, x)
            && (Conserved(s, x) ==> x.usage == SumUsage(Usages(s.log, BelowOf(s.frames, x.execution))))
  {
    CommittedUsage(actions);
    var s := ApplyAll(Start(), actions);
    var x := s.commits[j];
    if Conserved(s, x) { ConservedTotal(s, x); }
  }

  lemma ConservedTotal(s: State, x: Commit)
    requires CommitOk(s.frames, s.log, x) && Conserved(s, x)
    ensures x.usage == SumUsage(Usages(s.log, BelowOf(s.frames, x.execution)))
  {
    var k := x.execution;
    var recent := s.log[s.frames[k].start..x.at];
    NoUsages(recent, LateOf(s.frames, k));
    forall e | e in s.log[..x.at] ensures SubtreeOf(s.frames, k)(e) == BelowOf(s.frames, k)(e) { assert e in s.log; }
    UsagesSame(s.log[..x.at], SubtreeOf(s.frames, k), BelowOf(s.frames, k));
    UsagesBefore(s.log, x.at, BelowOf(s.frames, k));
    PlusNothing(x.usage, SumUsage(Usages(s.log[..x.at], SubtreeOf(s.frames, k))),
                SumUsage(Usages(recent, LateOf(s.frames, k))));
  }

  // ----- When a scope outlives its execution.

  /** The action settles a usage that every scope of its frame accepts, the call's among them. */
  predicate AcceptedIn(s: State, a: Action, c: CallId) {
    && a.Account? && a.frame < |s.frames| && c in s.frames[a.frame].scopes
    && a.aggregateOk && ScopesAccept(s.scopeUsage, s.frames[a.frame].scopes, a.usage)
  }

  /** The condition holds of what was done up to action `i` and ever since. */
  ghost predicate Since(p: seq<Action> -> bool, actions: seq<Action>, i: nat) {
    forall j | i <= j <= |actions| :: p(actions[..j])
  }

  lemma SinceStep(p: seq<Action> -> bool, actions: seq<Action>, i: nat)
    requires i < |actions|
    ensures Since(p, actions, i) <==> Since(p, actions[..|actions| - 1], i) && p(actions)
  {
    var front := actions[..|actions| - 1];
    assert actions[..|actions|] == actions;
    assert forall j | i <= j <= |front| :: actions[..j] == front[..j];
    if Since(p, front, i) && p(actions) {
      forall j | i <= j <= |actions| ensures p(actions[..j]) {
        if j <= |front| { assert p(front[..j]); }
      }
    }
    if Since(p, actions, i) {
      forall j | i <= j <= |front| ensures p(front[..j]) { assert p(actions[..j]); }
    }
  }

  lemma SinceNow(p: seq<Action> -> bool, actions: seq<Action>)
    ensures Since(p, actions, |actions|) <==> p(actions)
  {
    assert actions[..|actions|] == actions;
  }

  ghost function NotExecuting(c: CallId): seq<Action> -> bool {
    (actions: seq<Action>) => c !in ApplyAll(Start(), actions).inflight
  }

  function NotRefused(c: CallId): seq<Action> -> bool {
    (actions: seq<Action>) => actions != [] ==> actions[|actions| - 1] != RefuseChild(c)
  }

  /** Action `i` settles for a call that is not executing, and the call is neither executed nor refused again. */
  ghost predicate LeftBehind(actions: seq<Action>, i: nat, c: CallId)
    requires i < |actions|
  {
    AcceptedAt(actions, i, c) && Since(NotExecuting(c), actions, i) && Since(NotRefused(c), actions, i + 1)
  }

  ghost predicate AcceptedAt(actions: seq<Action>, i: nat, c: CallId)
    requires i < |actions|
  {
    AcceptedIn(ApplyAll(Start(), actions[..i]), actions[i], c)
  }

  lemma AcceptedEarlier(actions: seq<Action>, i: nat, c: CallId)
    requires i < |actions| - 1
    ensures AcceptedAt(actions, i, c) <==> AcceptedAt(actions[..|actions| - 1], i, c)
  {
    assert actions[..|actions| - 1][..i] == actions[..i];
  }

  lemma StillLeft(actions: seq<Action>, i: nat, c: CallId)
    requires i < |actions|
    ensures Since(NotExecuting(c), actions, i) <==>
              Since(NotExecuting(c), actions[..|actions| - 1], i) && c !in ApplyAll(Start(), actions).inflight
    ensures i < |actions| - 1 ==>
              (Since(NotRefused(c), actions, i + 1) <==>
                Since(NotRefused(c), actions[..|actions| - 1], i + 1) && actions[|actions| - 1] != RefuseChild(c))
  {
    SinceStep(NotExecuting(c), actions, i);
    if i < |actions| - 1 { SinceStep(NotRefused(c), actions, i + 1); }
  }

  lemma ScopeStep(s: State, a: Action, c: CallId)
    requires Sound(s)
    ensures var s' := Apply(s, a);
            c in s'.scopeUsage <==>
              c in s'.inflight
              || (c !in s.inflight && a != RefuseChild(c) && (c in s.scopeUsage || AcceptedIn(s, a, c)))
  {
    if c in s.inflight { assert ScopeOk(s, c); }
  }

  /** The action neither executes the call nor refuses it. */
  ghost predicate LeavesAlone(actions: seq<Action>, c: CallId)
    requires actions != []
  {
    c !in ApplyAll(Start(), actions).inflight && actions[|actions| - 1] != RefuseChild(c)
  }

  lemma LeftBehindEarlier(actions: seq<Action>, i: nat, c: CallId)
    requires i < |actions| - 1
    ensures LeftBehind(actions, i, c) <==>
              LeftBehind(actions[..|actions| - 1], i, c) && LeavesAlone(actions, c)
  {
    StillLeft(actions, i, c);
    AcceptedEarlier(actions, i, c);
  }

  lemma LeftBehindLast(actions: seq<Action>, c: CallId)
    requires actions != []
    ensures var i, before := |actions| - 1, ApplyAll(Start(), actions[..|actions| - 1]);
            LeftBehind(actions, i, c) <==>
              AcceptedIn(before, actions[i], c) && c !in before.inflight && LeavesAlone(actions, c)
  {
    SinceNow(NotRefused(c), actions);
    SinceStep(NotExecuting(c), actions, |actions| - 1);
    SinceNow(NotExecuting(c), actions[..|actions| - 1]);
  }

  ghost function LeftAt(actions: seq<Action>, c: CallId): nat -> bool {
    (i: nat) => i < |actions| && LeftBehind(actions, i, c)
  }

  ghost predicate AtSome(p: nat -> bool) { exists i: nat :: p(i) }

  lemma AtSomeStep(p: nat -> bool, q: nat -> bool, n: nat, last: bool, still: bool)
    requires forall i: nat | i < n :: p(i) <==> q(i) && still
    requires p(n) <==> last && still
    requires forall i: nat | p(i) :: i <= n
    requires forall i: nat | q(i) :: i < n
    ensures AtSome(p) <==> still && (AtSome(q) || last)
  {
    if AtSome(p) { var i: nat :| p(i); if i < n { assert q(i); } }
    if still && AtSome(q) { var i: nat :| q(i); assert p(i); }
  }

  /** Some action of the run was left behind. */
  ghost predicate SomethingLeft(actions: seq<Action>, c: CallId) { AtSome(LeftAt(actions, c)) }

  lemma SomethingLeftStep(actions: seq<Action>, c: CallId)
    requires actions != []
    ensures var front := actions[..|actions| - 1]; var before := ApplyAll(Start(), front);
            SomethingLeft(actions, c) <==>
              && LeavesAlone(actions, c)
              && (SomethingLeft(front, c)
                  || (c !in before.inflight && AcceptedIn(before, actions[|actions| - 1], c)))
  {
    var front, last := actions[..|actions| - 1], |actions| - 1;
    var before := ApplyAll(Start(), front);
    LeftBehindLast(actions, c);
    forall i: nat | i < last ensures LeftAt(actions, c)(i) <==> LeftAt(front, c)(i) && LeavesAlone(actions, c) {
      LeftBehindEarlier(actions, i, c);
    }
    AtSomeStep(LeftAt(actions, c), LeftAt(front, c), last, c !in before.inflight && AcceptedIn(before, actions[last], c),
               LeavesAlone(actions, c));
  }

  /**
   * A call has a usage scope exactly while it is executing, or after a settlement in its scope was accepted when it was
   * not executing, and it has been neither executed nor refused since.
   */
  lemma {:induction false} ScopeOutlivesExecution(actions: seq<Action>, c: CallId)
    ensures var s := ApplyAll(Start(), actions);
            c in s.scopeUsage <==> c in s.inflight || SomethingLeft(actions, c)
  {
    if actions != [] {
      var front := actions[..|actions| - 1];
      RunKeepsSound(front);
      ScopeStep(ApplyAll(Start(), front), actions[|actions| - 1], c);
      ScopeOutlivesExecution(front, c);
      SomethingLeftStep(actions, c);
    }
  }

  /** With nothing executing, no scope stands in the way of a checkpoint exactly when no settlement was left behind. */
  lemma IdleScopes(actions: seq<Action>)
    requires ApplyAll(Start(), actions).inflight == map[]
    ensures ApplyAll(Start(), actions).scopeUsage == map[] <==> forall c :: !SomethingLeft(actions, c)
  {
    var s := ApplyAll(Start(), actions);
    if c :| c in s.scopeUsage { ScopeOutlivesExecution(actions, c); }
    if c :| SomethingLeft(actions, c) { ScopeOutlivesExecution(actions, c); }
  }

  lemma AfterOneMore(actions: seq<Action>, a: Action)
    ensures ApplyAll(Start(), actions + [a]) == Apply(ApplyAll(Start(), actions), a)
  {
    assert (actions + [a])[..|actions|] == actions;
  }

  lemma Ended(c: CallId)
    ensures ApplyAll(Start(), [OpenChild(0, c), EndChild(c)]) ==
            State([Frame(0, OtherCallId(""), [], 0), Frame(0, c, [c], 0)], [], map[], map[], [])
  {
    assert [] + [OpenChild(0, c)] == [OpenChild(0, c)];
    AfterOneMore([], OpenChild(0, c));
    assert [OpenChild(0, c)] + [EndChild(c)] == [OpenChild(0, c), EndChild(c)];
    AfterOneMore([OpenChild(0, c)], EndChild(c));
    var executing := DoOpenChild(Start(), 0, c);
    assert executing.frames[1] == Frame(0, c, [c], 0);
    assert executing.scopeUsage - {c} == map[] && executing.inflight - {c} == map[];
  }

  lemma Reopened(c: CallId)
    ensures ApplyAll(Start(), [OpenChild(0, c), EndChild(c), OpenChild(0, c)]) ==
            State([Frame(0, OtherCallId(""), [], 0), Frame(0, c, [c], 0), Frame(0, c, [c], 0)], [],
                  map[c := ZERO_CALL_USAGE], map[c := 2], [])
  {
    Ended(c);
    var before := [OpenChild(0, c), EndChild(c)];
    AfterOneMore(before, OpenChild(0, c));
    var ended := ApplyAll(Start(), before);
    assert DoOpenChild(ended, 0, c).frames[2] == Frame(0, c, [c], 0);
    assert before + [OpenChild(0, c)] == [OpenChild(0, c), EndChild(c), OpenChild(0, c)];
  }

  /** A settlement after its execution ended brings the deleted scope back. */
  lemma LateSettlementRecreatesScope(c: CallId, u: CallUsage)
    requires AddUsage(ZERO_CALL_USAGE, u).Ok?
    ensures var s := ApplyAll(Start(), [OpenChild(0, c), EndChild(c), Account(1, u, true)]);
            s.inflight == map[] && c in s.scopeUsage
  {
    Ended(c);
    var before := [OpenChild(0, c), EndChild(c)];
    AfterOneMore(before, Account(1, u, true));
    assert before + [Account(1, u, true)] == [OpenChild(0, c), EndChild(c), Account(1, u, true)];
  }

  /** Settled after the call opened again, such a usage is reported although the execution itself settled nothing. */
  lemma LateSettlementIsReported(c: CallId, u: CallUsage)
    requires AddUsage(ZERO_CALL_USAGE, u).Ok?
    ensures var s := ApplyAll(Start(), [OpenChild(0, c), EndChild(c), OpenChild(0, c), Account(1, u, true)]);
            && c in s.inflight && s.inflight[c] == 2 && c in s.scopeUsage && s.scopeUsage[c] == u
            && s.log != [] && forall e <- s.log :: !Under(s.frames, 2, e.frame)
  {
    AddUsageExact(ZERO_CALL_USAGE, u, ADD_USAGE_LIMITS);
    Reopened(c);
    var before := [OpenChild(0, c), EndChild(c), OpenChild(0, c)];
    AfterOneMore(before, Account(1, u, true));
    assert before + [Account(1, u, true)] == [OpenChild(0, c), EndChild(c), OpenChild(0, c), Account(1, u, true)];
  }

  /** A refused attempt of the same call wipes such a scope without executing anything. */
  lemma RefusalWipesScope(c: CallId, u: CallUsage)
    requires AddUsage(ZERO_CALL_USAGE, u).Ok?
    ensures var s := ApplyAll(Start(), [OpenChild(0, c), EndChild(c), Account(1, u, true), RefuseChild(c)]);
            s.inflight == map[] && c !in s.scopeUsage
  {
    LateSettlementRecreatesScope(c, u);
    var before := [OpenChild(0, c), EndChild(c), Account(1, u, true)];
    AfterOneMore(before, RefuseChild(c));
    assert before + [RefuseChild(c)] == [OpenChild(0, c), EndChild(c), Account(1, u, true), RefuseChild(c)];
  }
}
