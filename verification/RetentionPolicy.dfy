/** Which managed runs a cleanup removes: three greedy passes over the terminal runs (src/runtime/run-retention-policy.ts). */
module RetentionPolicy {

  datatype Activity = Inactive | Stale | ActiveWriter | Unknown

  datatype Lifecycle = Active(updatedAtMs: int) | Terminal(terminalAtMs: int)

  /** `collation` is the place of the name in the host's string order. */
  datatype Run = Run(name: string, collation: int, bytes: nat, activity: Activity, lifecycle: Lifecycle)

  datatype Policy = Policy(
    terminalMaxAgeMs: int, maxTerminalRuns: nat, maxTerminalBytes: nat, abandonedGraceMs: int)

  predicate Removable(run: Run) { run.activity.Inactive? || run.activity.Stale? }

  predicate Aged(run: Run, policy: Policy, now: int, force: bool)
    requires run.lifecycle.Terminal?
  {
    force || now - run.lifecycle.terminalAtMs >= policy.terminalMaxAgeMs
  }

  predicate NoLater(a: Run, b: Run)
    requires a.lifecycle.Terminal? && b.lifecycle.Terminal?
  {
    || a.lifecycle.terminalAtMs < b.lifecycle.terminalAtMs
    || (a.lifecycle.terminalAtMs == b.lifecycle.terminalAtMs && a.collation <= b.collation)
  }

  predicate AllTerminal(runs: seq<Run>) { forall run <- runs :: run.lifecycle.Terminal? }

  predicate OldestFirst(runs: seq<Run>)
    requires AllTerminal(runs)
  {
    forall i, j | 0 <= i < j < |runs| :: NoLater(runs[i], runs[j])
  }

  predicate DistinctNames(runs: seq<Run>) { forall i, j | 0 <= i < j < |runs| :: runs[i].name != runs[j].name }

  function InsertByAge(sorted: seq<Run>, run: Run): (r: seq<Run>)
    requires AllTerminal(sorted) && OldestFirst(sorted) && run.lifecycle.Terminal?
    ensures |r| == |sorted| + 1 && forall other :: other in r <==> other in sorted || other == run
    ensures AllTerminal(r) && OldestFirst(r)
  {
    if sorted == [] || NoLater(sorted[|sorted| - 1], run) then sorted + [run]
    else
      var front, last := sorted[..|sorted| - 1], sorted[|sorted| - 1];
      assert sorted == front + [last];
      var inserted := InsertByAge(front, run);
      assert forall i | 0 <= i < |inserted| :: inserted[i] in inserted && NoLater(inserted[i], last);
      inserted + [last]
  }

  /** The terminal runs, oldest first. */
  function TerminalRuns(runs: seq<Run>): (r: seq<Run>)
    ensures AllTerminal(r) && OldestFirst(r)
    ensures forall run :: run in r <==> run in runs && run.lifecycle.Terminal?
  {
    if runs == [] then []
    else
      var front, last := TerminalRuns(runs[..|runs| - 1]), runs[|runs| - 1];
      assert runs == runs[..|runs| - 1] + [last];
      if last.lifecycle.Terminal? then InsertByAge(front, last) else front
  }

  lemma {:induction false} TerminalRunsDistinct(runs: seq<Run>)
    requires DistinctNames(runs)
    ensures DistinctNames(TerminalRuns(runs))
  {
    if runs != [] {
      var front, last := runs[..|runs| - 1], runs[|runs| - 1];
      TerminalRunsDistinct(front);
      if last.lifecycle.Terminal? {
        forall run | run in TerminalRuns(front) ensures run.name != last.name { assert run in front; }
        InsertDistinct(TerminalRuns(front), last);
      }
    }
  }

  lemma {:induction false} InsertDistinct(sorted: seq<Run>, run: Run)
    requires AllTerminal(sorted) && OldestFirst(sorted) && run.lifecycle.Terminal?
    requires DistinctNames(sorted) && forall other <- sorted :: other.name != run.name
    ensures DistinctNames(InsertByAge(sorted, run))
  {
    if sorted != [] && !NoLater(sorted[|sorted| - 1], run) {
      var front, last := sorted[..|sorted| - 1], sorted[|sorted| - 1];
      InsertDistinct(front, run);
      var inserted := InsertByAge(front, run);
      forall i | 0 <= i < |inserted| ensures inserted[i].name != last.name {
        assert inserted[i] in inserted && (inserted[i] in front || inserted[i] == run);
      }
    }
  }

  // What removing the removable ones among the first `n` runs removes: names, count and bytes.

  function RemovableNames(runs: seq<Run>, n: nat): set<string>
    requires n <= |runs|
  {
    set i | 0 <= i < n && Removable(runs[i]) :: runs[i].name
  }

  function RemovableCount(runs: seq<Run>, n: nat): nat
    requires n <= |runs|
  {
    if n == 0 then 0 else RemovableCount(runs, n - 1) + (if Removable(runs[n - 1]) then 1 else 0)
  }

  function RemovableBytes(runs: seq<Run>, n: nat): nat
    requires n <= |runs|
  {
    if n == 0 then 0 else RemovableBytes(runs, n - 1) + (if Removable(runs[n - 1]) then runs[n - 1].bytes else 0)
  }

  function Bytes(runs: seq<Run>, n: nat): nat
    requires n <= |runs|
  {
    if n == 0 then 0 else Bytes(runs, n - 1) + runs[n - 1].bytes
  }

  function Abandoned(runs: seq<Run>, policy: Policy, now: int): set<string> {
    set run <- runs | run.lifecycle.Active? && Removable(run)
                      && now - run.lifecycle.updatedAtMs >= policy.abandonedGraceMs :: run.name
  }

  // ----- The one-pass specification.

  /** Removing only the removable runs among the oldest `cut` leaves something to be removed. */
  predicate Wanting(terminal: seq<Run>, cut: nat, policy: Policy, now: int, force: bool)
    requires cut <= |terminal| && AllTerminal(terminal)
  {
    || (exists i | cut <= i < |terminal| :: Removable(terminal[i]) && Aged(terminal[i], policy, now, force))
    || |terminal| - RemovableCount(terminal, cut) > policy.maxTerminalRuns
    || Bytes(terminal, |terminal|) - RemovableBytes(terminal, cut) > policy.maxTerminalBytes
  }

  /** The least cut that leaves nothing to be removed, or all runs. */
  function ShortestCut(terminal: seq<Run>, from: nat, policy: Policy, now: int, force: bool): (cut: nat)
    requires from <= |terminal| && AllTerminal(terminal)
    ensures from <= cut <= |terminal|
    ensures cut == |terminal| || !Wanting(terminal, cut, policy, now, force)
    ensures forall m | from <= m < cut :: Wanting(terminal, m, policy, now, force)
    decreases |terminal| - from
  {
    if from == |terminal| || !Wanting(terminal, from, policy, now, force) then from
    else ShortestCut(terminal, from + 1, policy, now, force)
  }

  // ----- Facts about prefixes.

  /** No removable run between two cuts, so they select the same runs. */
  predicate NoneBetween(terminal: seq<Run>, from: nat, to: nat)
    requires to <= |terminal|
  {
    forall i | from <= i < to :: !Removable(terminal[i])
  }

  lemma {:induction false} RemovablesGrow(runs: seq<Run>, m: nat, n: nat)
    requires m <= n <= |runs|
    ensures RemovableCount(runs, m) <= RemovableCount(runs, n)
    ensures RemovableBytes(runs, m) <= RemovableBytes(runs, n)
    ensures NoneBetween(runs, m, n) ==>
              && RemovableCount(runs, m) == RemovableCount(runs, n)
              && RemovableBytes(runs, m) == RemovableBytes(runs, n)
              && RemovableNames(runs, m) == RemovableNames(runs, n)
    decreases n
  {
    if m < n { RemovablesGrow(runs, m, n - 1); }
  }

  /** Wanting is monotone: a shorter cut wants whatever a longer one still wants. */
  lemma WantingBefore(terminal: seq<Run>, m: nat, n: nat, policy: Policy, now: int, force: bool)
    requires m <= n <= |terminal| && AllTerminal(terminal) && Wanting(terminal, n, policy, now, force)
    ensures Wanting(terminal, m, policy, now, force)
  {
    RemovablesGrow(terminal, m, n);
  }

  /** A run is selected exactly when it is removable and inside the cut. */
  lemma SelectedIsInCut(terminal: seq<Run>, cut: nat, k: nat)
    requires cut <= |terminal| && k < |terminal| && DistinctNames(terminal)
    ensures terminal[k].name in RemovableNames(terminal, cut) <==> k < cut && Removable(terminal[k])
  {
    if terminal[k].name in RemovableNames(terminal, cut) {
      var i :| 0 <= i < cut && Removable(terminal[i]) && terminal[i].name == terminal[k].name;
    }
  }

  lemma {:induction false} NamesCount(runs: seq<Run>, n: nat)
    requires n <= |runs| && DistinctNames(runs)
    ensures |RemovableNames(runs, n)| == RemovableCount(runs, n)
  {
    if n > 0 {
      NamesCount(runs, n - 1);
      SelectedIsInCut(runs, n - 1, n - 1);
      assert RemovableNames(runs, n) ==
             RemovableNames(runs, n - 1) + (if Removable(runs[n - 1]) then {runs[n - 1].name} else {});
    }
  }

  // ----- The three passes.

  /** What the passes have selected so far: the removable runs inside a cut, none of them needlessly. */
  predicate Selected(terminal: seq<Run>, selected: set<string>, cut: nat, policy: Policy, now: int, force: bool)
    requires AllTerminal(terminal)
  {
    && cut <= |terminal|
    && selected == RemovableNames(terminal, cut)
    && (cut > 0 ==> Removable(terminal[cut - 1]) && Wanting(terminal, cut - 1, policy, now, force))
  }

  /** Selecting the next removable run while something is still wanting moves the cut right behind it. */
  lemma SelectNext(terminal: seq<Run>, selected: set<string>, cut: nat, k: nat, policy: Policy, now: int, force: bool)
    requires AllTerminal(terminal) && Selected(terminal, selected, cut, policy, now, force)
    requires cut <= k < |terminal| && NoneBetween(terminal, cut, k)
    requires Removable(terminal[k]) && Wanting(terminal, k, policy, now, force)
    ensures Selected(terminal, selected + {terminal[k].name}, k + 1, policy, now, force)
    ensures RemovableCount(terminal, k + 1) == RemovableCount(terminal, cut) + 1
    ensures RemovableBytes(terminal, k + 1) == RemovableBytes(terminal, cut) + terminal[k].bytes
  {
    RemovablesGrow(terminal, cut, k);
    assert RemovableNames(terminal, k + 1) == RemovableNames(terminal, k) + {terminal[k].name};
  }

  /** A cut still wants more when its count or its bytes exceed their limits. */
  lemma StillWanting(terminal: seq<Run>, cut: nat, k: nat, policy: Policy, now: int, force: bool)
    requires AllTerminal(terminal) && cut <= k < |terminal| && NoneBetween(terminal, cut, k)
    requires || |terminal| - RemovableCount(terminal, cut) > policy.maxTerminalRuns
             || Bytes(terminal, |terminal|) - RemovableBytes(terminal, cut) > policy.maxTerminalBytes
    ensures Wanting(terminal, k, policy, now, force)
  {
    RemovablesGrow(terminal, cut, k);
  }

  /** One look at the run at `k`, while count or bytes still exceed their limits: it joins the selection or stays out. */
  lemma LookAt(terminal: seq<Run>, selected: set<string>, cut: nat, k: nat, policy: Policy, now: int, force: bool)
    returns (cut': nat)
    requires AllTerminal(terminal) && Selected(terminal, selected, cut, policy, now, force)
    requires k < |terminal| && NoneBetween(terminal, cut, k)
    requires terminal[k].name in selected <==> k < cut && Removable(terminal[k])
    requires || |terminal| - RemovableCount(terminal, cut) > policy.maxTerminalRuns
             || Bytes(terminal, |terminal|) - RemovableBytes(terminal, cut) > policy.maxTerminalBytes
    ensures cut <= cut' <= |terminal| && NoneBetween(terminal, cut', k + 1)
    ensures var picked := terminal[k].name !in selected && Removable(terminal[k]);
            && Selected(terminal, if picked then selected + {terminal[k].name} else selected, cut', policy, now, force)
            && RemovableCount(terminal, cut') == RemovableCount(terminal, cut) + (if picked then 1 else 0)
            && RemovableBytes(terminal, cut') ==
               RemovableBytes(terminal, cut) + (if picked then terminal[k].bytes else 0)
  {
    cut' := cut;
    if terminal[k].name !in selected && Removable(terminal[k]) {
      StillWanting(terminal, cut, k, policy, now, force);
      SelectNext(terminal, selected, cut, k, policy, now, force);
      cut' := k + 1;
    }
  }

  method SelectAged(terminal: seq<Run>, policy: Policy, now: int, force: bool)
    returns (selected: set<string>, ghost cut: nat)
    requires AllTerminal(terminal) && OldestFirst(terminal) && DistinctNames(terminal)
    ensures Selected(terminal, selected, cut, policy, now, force)
    ensures forall i | cut <= i < |terminal| :: !(Removable(terminal[i]) && Aged(terminal[i], policy, now, force))
  {
    selected, cut := {}, 0;
    for k := 0 to |terminal|
      invariant cut <= k && Selected(terminal, selected, cut, policy, now, force)
      invariant forall i | cut <= i < k :: !(Removable(terminal[i]) && Aged(terminal[i], policy, now, force))
    {
      assert terminal[k] in terminal;
      if Removable(terminal[k]) && Aged(terminal[k], policy, now, force) {
        forall i | cut <= i < k ensures !Removable(terminal[i]) { assert NoLater(terminal[i], terminal[k]); }
        SelectNext(terminal, selected, cut, k, policy, now, force);
        selected := selected + {terminal[k].name};
        cut := k + 1;
      }
    }
  }

  /** The second pass: oldest first, until the count is within its limit. */
  method SelectForCount(terminal: seq<Run>, aged: set<string>, ghost agedCut: nat, policy: Policy, now: int, force: bool)
    returns (selected: set<string>, ghost cut: nat)
    requires AllTerminal(terminal) && DistinctNames(terminal)
    requires Selected(terminal, aged, agedCut, policy, now, force)
    ensures agedCut <= cut && Selected(terminal, selected, cut, policy, now, force)
    ensures || |terminal| - RemovableCount(terminal, cut) <= policy.maxTerminalRuns
            || NoneBetween(terminal, cut, |terminal|)
  {
    SelectedCount(terminal, aged, agedCut);
    selected, cut := aged, agedCut;
    var remainingCount: int := |terminal| - |selected|;
    var k := 0;
    while k < |terminal| && remainingCount > policy.maxTerminalRuns
      invariant k <= |terminal| && agedCut <= cut && Selected(terminal, selected, cut, policy, now, force)
      invariant remainingCount == |terminal| - RemovableCount(terminal, cut)
      invariant NoneBetween(terminal, cut, k)
    {
      SelectedIsInCut(terminal, cut, k);
      cut := LookAt(terminal, selected, cut, k, policy, now, force);
      if terminal[k].name !in selected && Removable(terminal[k]) {
        selected, remainingCount := selected + {terminal[k].name}, remainingCount - 1;
      }
      k := k + 1;
    }
  }

  lemma SelectedCount(terminal: seq<Run>, selected: set<string>, cut: nat)
    requires DistinctNames(terminal) && cut <= |terminal| && selected == RemovableNames(terminal, cut)
    ensures |selected| == RemovableCount(terminal, cut)
  {
    NamesCount(terminal, cut);
  }

  /** The bytes of the unselected runs among the first `k`. */
  function KeptBytes(terminal: seq<Run>, cut: nat, k: nat): int
    requires k <= |terminal| && cut <= |terminal|
  {
    Bytes(terminal, k) - RemovableBytes(terminal, if k <= cut then k else cut)
  }

  lemma KeptBytesStep(terminal: seq<Run>, selected: set<string>, cut: nat, k: nat)
    requires DistinctNames(terminal) && cut <= |terminal| && k < |terminal|
    requires selected == RemovableNames(terminal, cut)
    ensures KeptBytes(terminal, cut, k + 1) ==
            KeptBytes(terminal, cut, k) + (if terminal[k].name in selected then 0 else terminal[k].bytes)
  {
    SelectedIsInCut(terminal, cut, k);
  }

  /** The bytes of the runs that are not selected. */
  method RemainingBytes(terminal: seq<Run>, selected: set<string>, ghost cut: nat) returns (remaining: int)
    requires DistinctNames(terminal) && cut <= |terminal| && selected == RemovableNames(terminal, cut)
    ensures remaining == Bytes(terminal, |terminal|) - RemovableBytes(terminal, cut)
  {
    remaining := 0;
    for k := 0 to |terminal|
      invariant remaining == KeptBytes(terminal, cut, k)
    {
      KeptBytesStep(terminal, selected, cut, k);
      remaining := remaining + (if terminal[k].name in selected then 0 else terminal[k].bytes);
    }
  }

  /** The third pass: oldest first, until the bytes are within their limit. */
  method SelectForBytes(terminal: seq<Run>, counted: set<string>, ghost countCut: nat, policy: Policy, now: int, force: bool)
    returns (selected: set<string>, ghost cut: nat)
    requires AllTerminal(terminal) && DistinctNames(terminal)
    requires Selected(terminal, counted, countCut, policy, now, force)
    ensures countCut <= cut && Selected(terminal, selected, cut, policy, now, force)
    ensures || Bytes(terminal, |terminal|) - RemovableBytes(terminal, cut) <= policy.maxTerminalBytes
            || NoneBetween(terminal, cut, |terminal|)
  {
    selected, cut := counted, countCut;
    var remainingBytes := RemainingBytes(terminal, selected, cut);
    var k := 0;
    while k < |terminal| && remainingBytes > policy.maxTerminalBytes
      invariant k <= |terminal| && countCut <= cut && Selected(terminal, selected, cut, policy, now, force)
      invariant remainingBytes == Bytes(terminal, |terminal|) - RemovableBytes(terminal, cut)
      invariant NoneBetween(terminal, cut, k)
    {
      SelectedIsInCut(terminal, cut, k);
      cut := LookAt(terminal, selected, cut, k, policy, now, force);
      if terminal[k].name !in selected && Removable(terminal[k]) {
        selected, remainingBytes := selected + {terminal[k].name}, remainingBytes - terminal[k].bytes;
      }
      k := k + 1;
    }
  }

  method SelectAbandoned(runs: seq<Run>, policy: Policy, now: int) returns (selected: set<string>)
    ensures selected == Abandoned(runs, policy, now)
  {
    selected := {};
    for k := 0 to |runs|
      invariant selected == Abandoned(runs[..k], policy, now)
    {
      assert runs[..k + 1] == runs[..k] + [runs[k]];
      if runs[k].lifecycle.Active? && Removable(runs[k]) && now - runs[k].lifecycle.updatedAtMs >= policy.abandonedGraceMs {
        selected := selected + {runs[k].name};
      }
    }
    assert runs[..|runs|] == runs;
  }

  /**
   * The passes together select exactly the abandoned runs and the removable runs of the shortest oldest-first cut that
   * contains all aged ones and brings count and bytes within their limits.
   */
  method SelectRetentionCandidates(runs: seq<Run>, policy: Policy, now: int, force: bool) returns (selected: set<string>)
    requires DistinctNames(runs)
    ensures var terminal := TerminalRuns(runs);
            selected == RemovableNames(terminal, ShortestCut(terminal, 0, policy, now, force))
                        + Abandoned(runs, policy, now)
  {
    var terminal := TerminalRuns(runs);
    TerminalRunsDistinct(runs);
    var aged, agedCut := SelectAged(terminal, policy, now, force);
    var counted, countCut := SelectForCount(terminal, aged, agedCut, policy, now, force);
    var sized, cut := SelectForBytes(terminal, counted, countCut, policy, now, force);
    PassesSuffice(terminal, agedCut, countCut, cut, policy, now, force);
    CutIsShortest(terminal, sized, cut, policy, now, force);
    var abandoned := SelectAbandoned(runs, policy, now);
    selected := sized + abandoned;
  }

  lemma PassesSuffice(terminal: seq<Run>, agedCut: nat, countCut: nat, cut: nat, policy: Policy, now: int, force: bool)
    requires AllTerminal(terminal) && agedCut <= countCut <= cut <= |terminal|
    requires forall i | agedCut <= i < |terminal| :: !(Removable(terminal[i]) && Aged(terminal[i], policy, now, force))
    requires || |terminal| - RemovableCount(terminal, countCut) <= policy.maxTerminalRuns
             || NoneBetween(terminal, countCut, |terminal|)
    requires || Bytes(terminal, |terminal|) - RemovableBytes(terminal, cut) <= policy.maxTerminalBytes
             || NoneBetween(terminal, cut, |terminal|)
    ensures !Wanting(terminal, cut, policy, now, force) || NoneBetween(terminal, cut, |terminal|)
  {
    RemovablesGrow(terminal, countCut, cut);
  }

  /** A cut without needless selections that satisfies all limits, or is exhausted, selects what the shortest cut does. */
  lemma CutIsShortest(terminal: seq<Run>, selected: set<string>, cut: nat, policy: Policy, now: int, force: bool)
    requires AllTerminal(terminal) && Selected(terminal, selected, cut, policy, now, force)
    requires !Wanting(terminal, cut, policy, now, force) || NoneBetween(terminal, cut, |terminal|)
    ensures selected == RemovableNames(terminal, ShortestCut(terminal, 0, policy, now, force))
  {
    var shortest := ShortestCut(terminal, 0, policy, now, force);
    if shortest < cut {
      WantingBefore(terminal, shortest, cut - 1, policy, now, force);
    } else if cut < shortest {
      RemovablesGrow(terminal, cut, shortest);
    }
  }

  /** Nothing with a live or undetermined writer is ever selected, and names do not confuse two runs. */
  lemma OnlyRemovableRunsSelected(runs: seq<Run>, policy: Policy, now: int, force: bool, k: nat)
    requires DistinctNames(runs) && k < |runs|
    requires var terminal := TerminalRuns(runs);
             runs[k].name in RemovableNames(terminal, ShortestCut(terminal, 0, policy, now, force))
                             + Abandoned(runs, policy, now)
    ensures Removable(runs[k])
  {
    var terminal := TerminalRuns(runs);
    var cut := ShortestCut(terminal, 0, policy, now, force);
    if runs[k].name in RemovableNames(terminal, cut) {
      var i :| 0 <= i < cut && Removable(terminal[i]) && terminal[i].name == runs[k].name;
      assert terminal[i] in terminal;
    }
  }
}
