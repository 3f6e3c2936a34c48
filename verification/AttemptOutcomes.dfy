/**
 * What an attempt settles and what its operation sums up (src/runtime/provider.ts), in every run of the write-ahead
 * protocol: the journaled outcome is the one the external effect ended with, unless accounting failed.
 */
module AttemptOutcomes {
  import opened Usage
  import opened Journal
  import opened Provider
  import opened LedgerConservation
  import ControllerTurns
  import LedgerAgreement

  // ----- The usages charged to an operation.

  predicate InFlight(r: Run, j: nat) { j < |r.items| && r.items[j].Attempt? && r.items[j].phase == Running }

  /** The external effect of a running attempt ends, and the run still has authority. */
  predicate EndsEffect(before: Run, a: Action) { a.ExternalEnded? && before.authority && InFlight(before, a.item) }

  predicate HoldsCharge(r: Run, j: nat) { j < |r.items| && r.items[j].Attempt? && r.items[j].ledger.Charged? }

  /** The action ends an effect of the operation, and the ledger charges its usage. */
  predicate ChargesTo(before: Run, a: Action, k: nat) {
    EndsEffect(before, a) && before.items[a.item].operation == k && HoldsCharge(Apply(before, a), a.item)
  }

  /** The usages charged for the operation, in the order in which its effects ended. */
  function ChargedTo(r: Run, actions: seq<Action>, k: nat): seq<CallUsage> {
    if actions == [] then []
    else
      var front, a := actions[..|actions| - 1], actions[|actions| - 1];
      ChargedTo(r, front, k) + (if ChargesTo(ApplyAll(r, front), a, k) then [a.usage] else [])
  }

  predicate FitsOnto(sum: CallUsage, u: CallUsage) {
    Within(u, ADD_USAGE_LIMITS) && Within(Plus(sum, u), ADD_USAGE_LIMITS)
  }

  /** Those among the usages that fit onto the sum of the fitting ones before them. */
  function Fitting(us: seq<CallUsage>): seq<CallUsage> {
    if us == [] then []
    else
      var before := Fitting(us[..|us| - 1]);
      before + (if FitsOnto(SumUsage(before), us[|us| - 1]) then [us[|us| - 1]] else [])
  }

  function Summed(r: Run, actions: seq<Action>, k: nat): CallUsage { SumUsage(Fitting(ChargedTo(r, actions, k))) }

  lemma SumAppend(us: seq<CallUsage>, u: CallUsage)
    ensures SumUsage(us + [u]) == Plus(SumUsage(us), u)
  {
    assert (us + [u])[..|us|] == us;
  }

  lemma FittingAppend(us: seq<CallUsage>, u: CallUsage)
    ensures SumUsage(Fitting(us + [u])) ==
            if FitsOnto(SumUsage(Fitting(us)), u) then Plus(SumUsage(Fitting(us)), u) else SumUsage(Fitting(us))
  {
    assert (us + [u])[..|us|] == us;
    SumAppend(Fitting(us), u);
    assert Fitting(us) + [] == Fitting(us);
  }

  lemma SummedStep(r: Run, actions: seq<Action>, a: Action, k: nat)
    ensures Summed(r, actions + [a], k) ==
            if ChargesTo(ApplyAll(r, actions), a, k) && FitsOnto(Summed(r, actions, k), a.usage)
            then Plus(Summed(r, actions, k), a.usage)
            else Summed(r, actions, k)
  {
    assert (actions + [a])[..|actions|] == actions;
    if ChargesTo(ApplyAll(r, actions), a, k) {
      FittingAppend(ChargedTo(r, actions, k), a.usage);
    } else {
      assert ChargedTo(r, actions, k) + [] == ChargedTo(r, actions, k);
    }
  }

  // ----- The sum that an operation keeps.

  predicate OfOperation(r: Run, j: nat)
    requires j < |r.items|
  {
    r.items[j].Attempt? ==> r.items[j].operation < |r.operations|
  }

  ghost predicate OperationsListed(r: Run) {
    forall j {:trigger OfOperation(r, j)} | 0 <= j < |r.items| :: OfOperation(r, j)
  }

  lemma StepLists(r: Run, a: Action)
    requires OperationsListed(r)
    ensures OperationsListed(Apply(r, a))
  {
    var r' := Apply(r, a);
    ControllerTurns.ItemAdded(r, a);
    ControllerTurns.OperationAdded(r, a);
    forall j | 0 <= j < |r'.items| ensures OfOperation(r', j) {
      if j < |r.items| {
        assert OfOperation(r, j);
        SameOperationIndex(r, a, j);
      } else {
        NewOperationIndex(r, a);
      }
    }
  }

  lemma SameOperationIndex(r: Run, a: Action, j: nat)
    requires j < |r.items|
    ensures var r' := Apply(r, a);
            && j < |r'.items| && (r'.items[j].Attempt? <==> r.items[j].Attempt?)
            && (r.items[j].Attempt? ==> r'.items[j].operation == r.items[j].operation)
  {
  }

  lemma NewOperationIndex(r: Run, a: Action)
    ensures var r' := Apply(r, a);
            |r'.items| == |r.items| + 1 && r'.items[|r.items|].Attempt? ==>
              a.BeginAttempt? && r'.items[|r.items|].operation == a.operation < |r.operations|
  {
  }

  lemma {:induction false} RunLists(r: Run, actions: seq<Action>)
    requires Started(r)
    ensures OperationsListed(ApplyAll(r, actions))
  {
    if actions != [] {
      RunLists(r, actions[..|actions| - 1]);
      StepLists(ApplyAll(r, actions[..|actions| - 1]), actions[|actions| - 1]);
    }
  }

  lemma EndAggregate(r: Run, j: nat, outcome: Outcome, usage: CallUsage, k: nat)
    requires EndsEffect(r, ExternalEnded(j, outcome, usage)) && OfOperation(r, j)
    requires k < |r.operations| && Within(r.operations[k].aggregate, ADD_USAGE_LIMITS)
    ensures var r' := DoExternalEnded(r, j, outcome, usage);
            && |r'.operations| == |r.operations|
            && r'.operations[k].aggregate ==
               if r.items[j].operation == k && HoldsCharge(r', j) && FitsOnto(r.operations[k].aggregate, usage)
               then Plus(r.operations[k].aggregate, usage)
               else r.operations[k].aggregate
  {
    AddUsageExact(r.operations[k].aggregate, usage, ADD_USAGE_LIMITS);
  }

  lemma OtherAggregate(r: Run, a: Action, k: nat)
    requires k < |r.operations| && !EndsEffect(r, a)
    ensures var r' := Apply(r, a); k < |r'.operations| && r'.operations[k].aggregate == r.operations[k].aggregate
  {
  }

  lemma NewAggregate(r: Run, a: Action)
    ensures var r' := Apply(r, a);
            |r'.operations| > |r.operations| ==>
              && |r'.operations| == |r.operations| + 1 && a.StartOperation?
              && r'.operations[|r.operations|].aggregate == ZERO_CALL_USAGE
  {
    ControllerTurns.OperationAdded(r, a);
  }

  lemma StepAggregate(r: Run, a: Action, k: nat)
    requires OperationsListed(r) && k < |r.operations| && Within(r.operations[k].aggregate, ADD_USAGE_LIMITS)
    ensures var r', sum := Apply(r, a), r.operations[k].aggregate;
            && k < |r'.operations|
            && r'.operations[k].aggregate == if ChargesTo(r, a, k) && FitsOnto(sum, a.usage) then Plus(sum, a.usage) else sum
  {
    if EndsEffect(r, a) {
      assert OfOperation(r, a.item);
      EndAggregate(r, a.item, a.outcome, a.usage, k);
    } else {
      OtherAggregate(r, a, k);
    }
  }

  lemma {:induction false} NothingCharged(r: Run, actions: seq<Action>, k: nat)
    requires Started(r) && k >= |ApplyAll(r, actions).operations|
    ensures ChargedTo(r, actions, k) == []
  {
    if actions != [] {
      var front, a := actions[..|actions| - 1], actions[|actions| - 1];
      var before := ApplyAll(r, front);
      ControllerTurns.OperationAdded(before, a);
      NothingCharged(r, front, k);
      RunLists(r, front);
      if EndsEffect(before, a) { assert OfOperation(before, a.item); }
    }
  }

  /**
   * In every run an operation's sum is that of the usages charged for it whose sums fitted, in the order in which its
   * effects ended.
   */
  lemma {:induction false} AggregateIsSum(r: Run, actions: seq<Action>, k: nat)
    requires Started(r) && k < |ApplyAll(r, actions).operations|
    ensures ApplyAll(r, actions).operations[k].aggregate == Summed(r, actions, k)
    ensures Within(Summed(r, actions, k), ADD_USAGE_LIMITS)
  {
    if actions != [] {
      var front, a := actions[..|actions| - 1], actions[|actions| - 1];
      var before := ApplyAll(r, front);
      assert actions == front + [a];
      if k < |before.operations| {
        AggregateIsSum(r, front, k);
        RunLists(r, front);
        StepAggregate(before, a, k);
        SummedStep(r, front, a, k);
      } else {
        NewAggregate(before, a);
        ControllerTurns.OperationAdded(before, a);
        NothingCharged(r, front, k);
      }
    }
  }

  // ----- What is settled.

  /** The outcome that is reported when the effect of attempt `j` ends after these actions. */
  function Reported(r: Run, actions: seq<Action>, a: Action): Outcome
    requires EndsEffect(ApplyAll(r, actions), a)
  {
    var before := ApplyAll(r, actions);
    if HoldsCharge(Apply(before, a), a.item) && FitsOnto(Summed(r, actions, before.items[a.item].operation), a.usage)
    then a.outcome
    else OutcomeInvalidResult
  }

  /** Action `i` ended the effect of attempt `j` with this usage, and this outcome is reported for it. */
  ghost predicate EndedAs(r: Run, actions: seq<Action>, i: nat, j: nat, outcome: Outcome, usage: CallUsage) {
    && i < |actions| && EndsEffect(ApplyAll(r, actions[..i]), actions[i])
    && actions[i].item == j && actions[i].usage == usage && outcome == Reported(r, actions[..i], actions[i])
  }

  ghost predicate Ended(r: Run, actions: seq<Action>, j: nat, outcome: Outcome, usage: CallUsage) {
    exists i: nat :: EndedAs(r, actions, i, j, outcome, usage)
  }

  lemma EndedKept(r: Run, actions: seq<Action>, a: Action, j: nat, outcome: Outcome, usage: CallUsage)
    requires Ended(r, actions, j, outcome, usage)
    ensures Ended(r, actions + [a], j, outcome, usage)
  {
    var i: nat :| EndedAs(r, actions, i, j, outcome, usage);
    assert (actions + [a])[..i] == actions[..i];
    assert EndedAs(r, actions + [a], i, j, outcome, usage);
  }

  lemma EndReports(r: Run, j: nat, outcome: Outcome, usage: CallUsage)
    requires EndsEffect(r, ExternalEnded(j, outcome, usage)) && OfOperation(r, j)
    requires Within(r.operations[r.items[j].operation].aggregate, ADD_USAGE_LIMITS)
    ensures var r' := DoExternalEnded(r, j, outcome, usage);
            && j < |r'.items| && r'.items[j].Attempt?
            && r'.items[j].phase == AwaitSettlement(
                 if HoldsCharge(r', j) && FitsOnto(r.operations[r.items[j].operation].aggregate, usage) then outcome
                 else OutcomeInvalidResult, usage)
  {
    AddUsageExact(r.operations[r.items[j].operation].aggregate, usage, ADD_USAGE_LIMITS);
  }

  predicate AwaitsSettlement(r: Run, j: nat) { j < |r.items| && r.items[j].Attempt? && r.items[j].phase.AwaitSettlement? }

  lemma StillAwaits(r: Run, a: Action, j: nat)
    requires AwaitsSettlement(Apply(r, a), j) && !(EndsEffect(r, a) && a.item == j)
    ensures AwaitsSettlement(r, j) && Apply(r, a).items[j].phase == r.items[j].phase
  {
  }

  /** What an attempt is about to settle is how its effect ended. */
  lemma {:induction false} AwaitedIsEnded(r: Run, actions: seq<Action>, j: nat)
    requires Started(r) && AwaitsSettlement(ApplyAll(r, actions), j)
    ensures var phase := ApplyAll(r, actions).items[j].phase; Ended(r, actions, j, phase.outcome, phase.usage)
  {
    if actions != [] {
      var front, a := actions[..|actions| - 1], actions[|actions| - 1];
      var before := ApplyAll(r, front);
      assert actions == front + [a];
      if EndsEffect(before, a) && a.item == j {
        RunLists(r, front);
        assert OfOperation(before, j);
        AggregateIsSum(r, front, before.items[j].operation);
        EndReports(before, j, a.outcome, a.usage);
        var phase := ApplyAll(r, actions).items[j].phase;
        assert actions[..|front|] == front;
        assert EndedAs(r, actions, |front|, j, phase.outcome, phase.usage);
      } else {
        StillAwaits(before, a, j);
        AwaitedIsEnded(r, front, j);
        EndedKept(r, front, a, j, before.items[j].phase.outcome, before.items[j].phase.usage);
      }
    }
  }

  /** The settlement of the attempt whose effect ended so. */
  ghost predicate SettlesAttempt(r: Run, actions: seq<Action>, e: Settlement, j: nat) {
    var now := ApplyAll(r, actions);
    && j < |now.items| && now.items[j].Attempt? && e.intentId == now.items[j].intent.intentId
    && e.frameId == now.items[j].intent.identity.frameId && e.runId == now.runId
    && Ended(r, actions, j, e.outcome, e.usage)
  }

  lemma SettlesKept(r: Run, actions: seq<Action>, a: Action, e: Settlement, j: nat)
    requires SettlesAttempt(r, actions, e, j)
    ensures SettlesAttempt(r, actions + [a], e, j)
  {
    assert (actions + [a])[..|actions|] == actions;
    ControllerTurns.ApplyGrows(ApplyAll(r, actions), a);
    assert LedgerAgreement.SameSubject(ApplyAll(r, actions).items[j], ApplyAll(r, actions + [a]).items[j]);
    EndedKept(r, actions, a, j, e.outcome, e.usage);
    SameRun(ApplyAll(r, actions), a);
  }

  lemma SameRun(r: Run, a: Action)
    ensures Apply(r, a).runId == r.runId
  {
  }

  lemma WritesSettlement(r: Run, a: Action)
    ensures var r' := Apply(r, a);
            |r'.journal| > |r.journal| && r'.journal[|r.journal|].OperationSettled? ==>
              var e := r'.journal[|r.journal|].settlement;
              && a.WriteSettlement? && AwaitsSettlement(r, a.item)
              && e.intentId == r.items[a.item].intent.intentId && e.runId == r.runId
              && e.frameId == r.items[a.item].intent.identity.frameId
              && e.outcome == r.items[a.item].phase.outcome && e.usage == r.items[a.item].phase.usage
  {
  }

  /**
   * In every run, each settlement that the run has written carries the usage that the external effect of its attempt
   * ended with, and the effect's own outcome if the ledger charged the usage and the operation's sum fits; else the
   * outcome is an invalid result.
   */
  lemma {:induction false} SettlementReports(r: Run, actions: seq<Action>, p: nat)
    requires Started(r) && |r.journal| <= p < |ApplyAll(r, actions).journal|
    requires ApplyAll(r, actions).journal[p].OperationSettled?
    ensures exists j: nat :: SettlesAttempt(r, actions, ApplyAll(r, actions).journal[p].settlement, j)
  {
    var front, a := actions[..|actions| - 1], actions[|actions| - 1];
    var before := ApplyAll(r, front);
    var e := ApplyAll(r, actions).journal[p].settlement;
    assert actions == front + [a];
    ControllerTurns.ApplyWrites(before, a);
    if p < |before.journal| {
      assert ApplyAll(r, actions).journal[..|before.journal|] == before.journal;
      SettlementReports(r, front, p);
      var j: nat :| SettlesAttempt(r, front, before.journal[p].settlement, j);
      SettlesKept(r, front, a, e, j);
    } else {
      WritesSettlement(before, a);
      AwaitedIsEnded(r, front, a.item);
      assert SettlesAttempt(r, front, e, a.item);
      SettlesKept(r, front, a, e, a.item);
    }
  }
}
