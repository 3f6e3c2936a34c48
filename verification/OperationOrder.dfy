/** What the operation discipline means for the events of a journal. */
module OperationOrder {
  import opened Wrappers
  import opened Usage
  import opened Journal
  import opened RecoveryJournal
  import opened OperationDiscipline

  /** The journal's settlements are exactly the books' settlements, one per attempt. */
  ghost predicate SettledOnce(settlements: seq<Settlement>, book: Book) {
    && (forall i, j | 0 <= i < j < |settlements| :: settlements[i].intentId != settlements[j].intentId)
    && (forall i | 0 <= i < |settlements| ::
          settlements[i].intentId in book.settlements && book.settlements[settlements[i].intentId] == settlements[i])
    && (forall id <- book.settlements :: book.settlements[id] in settlements)
  }

  ghost predicate JournalOk(es: seq<Event>, s: FoldState) {
    && BookOk(Intents(es), s.book, s.totals.tokensReserved)
    && SettledOnce(Settlements(es), s.book)
  }

  lemma OtherEventsKeepBook(m: Manifest, s: FoldState, e: Event)
    requires m.objective.Some? && StepEvent(m, s, e).Ok? && !e.OperationIntended? && !e.OperationSettled?
    ensures StepEvent(m, s, e).value.book == s.book
    ensures StepEvent(m, s, e).value.totals.tokensReserved == s.totals.tokensReserved
  {
  }

  lemma IntendedKeepsJournal(m: Manifest, es: seq<Event>, s: FoldState, frame: FrameRecord, intent: Intent)
    requires JournalOk(es, s) && StepIntended(m, s, frame, intent).Ok?
    ensures JournalOk(es + [OperationIntended(intent)], StepIntended(m, s, frame, intent).value)
  {
    ViewsAppend(es, OperationIntended(intent));
    IntendedStep(m, s, frame, intent);
    IntendKeepsBook(Intents(es), s, intent);
    assert Settlements(es + [OperationIntended(intent)]) == Settlements(es);
  }

  lemma IntendedStep(m: Manifest, s: FoldState, frame: FrameRecord, intent: Intent)
    requires StepIntended(m, s, frame, intent).Ok?
    ensures intent.intentId !in s.book.intents && AttemptInOrder(s, intent.identity)
    ensures var s' := StepIntended(m, s, frame, intent).value;
            && s'.book == Intend(s.book, intent)
            && s'.totals.tokensReserved == s.totals.tokensReserved + intent.identity.reservation.tokens
  {
  }

  lemma SettledStep(m: Manifest, s: FoldState, e: Settlement) returns (usage: CallUsage)
    requires StepSettled(m, s, e).Ok?
    ensures Settles(s.book, e, usage)
    ensures StepSettled(m, s, e).value.book == Settle(s.book, e, usage)
    ensures StepSettled(m, s, e).value.totals.tokensReserved ==
            s.totals.tokensReserved - s.book.intents[e.intentId].identity.reservation.tokens
  {
    usage := AddUsage(SegmentFor(s.book, e.intentId).usage, e.usage).value;
  }

  lemma SettledKeepsJournal(m: Manifest, es: seq<Event>, s: FoldState, e: Settlement)
    requires JournalOk(es, s) && StepSettled(m, s, e).Ok?
    ensures JournalOk(es + [OperationSettled(e)], StepSettled(m, s, e).value)
  {
    ViewsAppend(es, OperationSettled(e));
    var usage := SettledStep(m, s, e);
    SettleKeepsBook(Intents(es), s.book, s.totals.tokensReserved, e, usage);
    SettleKeepsOnce(Settlements(es), s.book, e, usage);
    assert Intents(es + [OperationSettled(e)]) == Intents(es);
  }

  lemma SettleKeepsOnce(settlements: seq<Settlement>, book: Book, e: Settlement, usage: CallUsage)
    requires SettledOnce(settlements, book) && HasSegment(book, e.intentId) && e.intentId !in book.settlements
    ensures SettledOnce(settlements + [e], Settle(book, e, usage))
  {
    var book', settlements' := Settle(book, e, usage), settlements + [e];
    forall id | id in book'.settlements ensures book'.settlements[id] in settlements' {
      if id == e.intentId { assert settlements'[|settlements|] == e; }
      else { assert book.settlements[id] in settlements; }
    }
  }

  lemma ViewsAppend(es: seq<Event>, e: Event)
    ensures Intents(es + [e]) == Intents(es) + (if e.OperationIntended? then [e.intent] else [])
    ensures Settlements(es + [e]) == Settlements(es) + (if e.OperationSettled? then [e.settlement] else [])
  {
    assert (es + [e])[..|es|] == es;
  }

  lemma OtherKeepsJournal(es: seq<Event>, s: FoldState, s': FoldState, e: Event)
    requires JournalOk(es, s) && s'.book == s.book && s'.totals.tokensReserved == s.totals.tokensReserved
    requires !e.OperationIntended? && !e.OperationSettled?
    ensures JournalOk(es + [e], s')
  {
    ViewsAppend(es, e);
    assert Intents(es + [e]) == Intents(es) && Settlements(es + [e]) == Settlements(es);
  }

  lemma StepKeepsJournal(m: Manifest, es: seq<Event>, s: FoldState, e: Event)
    requires m.objective.Some? && JournalOk(es, s) && StepEvent(m, s, e).Ok?
    ensures JournalOk(es + [e], StepEvent(m, s, e).value)
  {
    if e.OperationIntended? {
      IntendedKeepsJournal(m, es, s, s.frames[e.intent.identity.frameId], e.intent);
    } else if e.OperationSettled? {
      SettledKeepsJournal(m, es, s, e.settlement);
    } else {
      OtherEventsKeepBook(m, s, e);
      OtherKeepsJournal(es, s, StepEvent(m, s, e).value, e);
    }
  }

  lemma {:induction false} FoldKeepsJournal(m: Manifest, es: seq<Event>)
    requires m.objective.Some? && Fold(m, es).Ok?
    ensures JournalOk(es, Fold(m, es).value)
  {
    if es != [] {
      var front, last := es[..|es| - 1], es[|es| - 1];
      assert es == front + [last];
      FoldKeepsJournal(m, front);
      StepKeepsJournal(m, front, Fold(m, front).value, last);
    }
  }

  // ----- The discipline, in the journal's own terms.

  /** Some settlement event among `es` answers the intent. */
  ghost predicate SettledIn(es: seq<Event>, intent: Intent) {
    exists p | 0 <= p < |es| ::
      && es[p].OperationSettled?
      && es[p].settlement.intentId == intent.intentId
      && es[p].settlement.frameId == intent.identity.frameId
  }

  lemma {:induction false} SettlementPosition(es: seq<Event>, e: Settlement)
    ensures e in Settlements(es) <==> OperationSettled(e) in es
  {
    if es != [] {
      var front, last := es[..|es| - 1], es[|es| - 1];
      assert es == front + [last];
      SettlementPosition(front, e);
    }
  }

  lemma {:induction false} IntentPosition(es: seq<Event>, intent: Intent)
    ensures intent in Intents(es) <==> OperationIntended(intent) in es
  {
    if es != [] {
      var front, last := es[..|es| - 1], es[|es| - 1];
      assert es == front + [last];
      IntentPosition(front, intent);
    }
  }

  lemma {:induction false} OfMember(intents: seq<Intent>, key: OperationKey, intent: Intent)
    ensures intent in Of(intents, key) <==> intent in intents && intent.OperationKey() == key
  {
    if intents != [] {
      var front, last := intents[..|intents| - 1], intents[|intents| - 1];
      assert intents == front + [last];
      OfMember(front, key, intent);
    }
  }

  lemma FindIntent(es: seq<Event>, s: FoldState, id: IntentId)
    requires JournalOk(es, s) && id in s.book.intents
    ensures OperationIntended(s.book.intents[id]) in es && s.book.intents[id].intentId == id
  {
    IntentPosition(es, s.book.intents[id]);
  }

  lemma FindSettlement(es: seq<Event>, s: FoldState, p: nat)
    requires JournalOk(es, s) && p < |es| && es[p].OperationSettled?
    ensures es[p].settlement.intentId in s.book.settlements
  {
    assert es[p] in es;
    SettlementPosition(es, es[p].settlement);
  }

  lemma BookSettlesIn(es: seq<Event>, s: FoldState, intent: Intent)
    requires JournalOk(es, s) && intent in Intents(es)
    ensures intent.intentId in s.book.settlements <==> SettledIn(es, intent)
  {
    var id := intent.intentId;
    if id in s.book.settlements {
      var e := s.book.settlements[id];
      assert SettlementOk(s.book, id);
      SettlementPosition(es, e);
      var p :| 0 <= p < |es| && es[p] == OperationSettled(e);
    }
    if SettledIn(es, intent) {
      var p :| 0 <= p < |es| && es[p].OperationSettled? && es[p].settlement.intentId == id;
      FindSettlement(es, s, p);
    }
  }

  /** For each frame and operation the attempts are 1, 2, 3, ... under one kind and key. */
  lemma AttemptsAreContiguous(m: Manifest, es: seq<Event>, key: OperationKey, k: nat)
    requires m.objective.Some? && Fold(m, es).Ok? && k < |Of(Intents(es), key)|
    ensures var attempts := Of(Intents(es), key);
            && attempts[k].identity.attempt == k + 1
            && attempts[k].identity.kind == attempts[0].identity.kind
            && attempts[k].identity.key == attempts[0].identity.key
  {
    FoldKeepsJournal(m, es);
    assert KeyOk(Intents(es), Fold(m, es).value.book, key);
  }

  /** No two intents of a journal share an id. */
  lemma IntentsDistinct(m: Manifest, es: seq<Event>, i: nat, j: nat)
    requires m.objective.Some? && Fold(m, es).Ok? && i < j < |es|
    requires es[i].OperationIntended? && es[j].OperationIntended?
    ensures es[i].intent.intentId != es[j].intent.intentId
  {
    FoldAt(m, es, j);
    FoldKeepsJournal(m, es[..j]);
    assert es[..j][i] == es[i];
    IntentPosition(es[..j], es[i].intent);
    IntendedStepFacts(m, Fold(m, es[..j]).value, es[j].intent);
  }

  /** No two settlements of a journal share an id. */
  lemma SettlementsDistinct(m: Manifest, es: seq<Event>, p: nat, q: nat)
    requires m.objective.Some? && Fold(m, es).Ok? && p < q < |es|
    requires es[p].OperationSettled? && es[q].OperationSettled?
    ensures es[p].settlement.intentId != es[q].settlement.intentId
  {
    FoldAt(m, es, q);
    FoldKeepsJournal(m, es[..q]);
    assert es[..q][p] == es[p];
    SettledAt(es[..q], Fold(m, es[..q]).value, m, es[q].settlement);
  }

  /** The events at the two positions are an intent and its own settlement, and no other event carries their id. */
  ghost predicate Pair(es: seq<Event>, i: nat, p: nat) {
    && i < p < |es| && es[i].OperationIntended? && es[p].OperationSettled?
    && es[p].settlement.intentId == es[i].intent.intentId
    && es[p].settlement.frameId == es[i].intent.identity.frameId
    && (forall j | 0 <= j < |es| && j != i && es[j].OperationIntended? :: es[j].intent.intentId != es[i].intent.intentId)
    && (forall q | 0 <= q < |es| && q != p && es[q].OperationSettled? ::
          es[q].settlement.intentId != es[i].intent.intentId)
  }

  lemma PairIsAlone(m: Manifest, es: seq<Event>, i: nat, p: nat)
    requires m.objective.Some? && Fold(m, es).Ok? && i < p < |es|
    requires es[i].OperationIntended? && es[p].OperationSettled?
    requires es[p].settlement.intentId == es[i].intent.intentId
    requires es[p].settlement.frameId == es[i].intent.identity.frameId
    ensures Pair(es, i, p)
  {
    forall j | 0 <= j < |es| && j != i && es[j].OperationIntended?
      ensures es[j].intent.intentId != es[i].intent.intentId
    {
      if j < i { IntentsDistinct(m, es, j, i); } else { IntentsDistinct(m, es, i, j); }
    }
    forall q | 0 <= q < |es| && q != p && es[q].OperationSettled?
      ensures es[q].settlement.intentId != es[i].intent.intentId
    {
      if q < p { SettlementsDistinct(m, es, q, p); } else { SettlementsDistinct(m, es, p, q); }
    }
  }

  /** Each settlement answers exactly one intent, an earlier one of the same frame, and no intent is settled twice. */
  lemma SettlementsAnswerIntents(m: Manifest, es: seq<Event>, p: nat) returns (i: nat)
    requires m.objective.Some? && Fold(m, es).Ok? && p < |es| && es[p].OperationSettled?
    ensures Pair(es, i, p)
  {
    FoldAt(m, es, p);
    FoldKeepsJournal(m, es[..p]);
    SettledAt(es[..p], Fold(m, es[..p]).value, m, es[p].settlement);
    var intent :| OperationIntended(intent) in es[..p] && intent.intentId == es[p].settlement.intentId
                  && intent.identity.frameId == es[p].settlement.frameId;
    i :| 0 <= i < p && es[..p][i] == OperationIntended(intent);
    PairIsAlone(m, es, i, p);
  }

  lemma SettledAt(es: seq<Event>, s: FoldState, m: Manifest, e: Settlement)
    requires m.objective.Some? && JournalOk(es, s) && StepEvent(m, s, OperationSettled(e)).Ok?
    ensures exists intent ::
              && OperationIntended(intent) in es && intent.intentId == e.intentId
              && intent.identity.frameId == e.frameId
    ensures forall q | 0 <= q < |es| && es[q].OperationSettled? :: es[q].settlement.intentId != e.intentId
  {
    SettledStepFacts(m, s, e);
    FindIntent(es, s, e.intentId);
    forall q | 0 <= q < |es| && es[q].OperationSettled? ensures es[q].settlement.intentId != e.intentId {
      FindSettlement(es, s, q);
    }
  }

  lemma SettledStepFacts(m: Manifest, s: FoldState, e: Settlement)
    requires m.objective.Some? && StepEvent(m, s, OperationSettled(e)).Ok?
    ensures e.intentId in s.book.intents && e.intentId !in s.book.settlements
    ensures s.book.intents[e.intentId].identity.frameId == e.frameId
  {
  }

  /** An attempt settles before the next attempt of its operation is intended. */
  lemma SettledBeforeNextAttempt(m: Manifest, es: seq<Event>, i: nat, j: nat) returns (p: nat)
    requires m.objective.Some? && Fold(m, es).Ok? && i < j < |es|
    requires es[i].OperationIntended? && es[j].OperationIntended?
    requires es[i].intent.OperationKey() == es[j].intent.OperationKey()
    ensures i < p < j && es[p].OperationSettled? && es[p].settlement.intentId == es[i].intent.intentId
  {
    p := SettledByPosition(m, es, i, j);
    if p < i {
      IntendedOnce(m, es, p, i);
    }
  }

  lemma SettledByPosition(m: Manifest, es: seq<Event>, i: nat, j: nat) returns (p: nat)
    requires m.objective.Some? && Fold(m, es).Ok? && i < j < |es|
    requires es[i].OperationIntended? && es[j].OperationIntended?
    requires es[i].intent.OperationKey() == es[j].intent.OperationKey()
    ensures p < j && es[p].OperationSettled? && es[p].settlement.intentId == es[i].intent.intentId
  {
    FoldAt(m, es, j);
    FoldKeepsJournal(m, es[..j]);
    assert es[..j][i] == es[i];
    EarlierAttemptsSettled(es[..j], Fold(m, es[..j]).value, m, es[i].intent, es[j].intent);
    p :| 0 <= p < j && es[..j][p].OperationSettled? && es[..j][p].settlement.intentId == es[i].intent.intentId;
  }

  /** When an operation intends its next attempt, each of its earlier attempts has settled. */
  lemma EarlierAttemptsSettled(es: seq<Event>, s: FoldState, m: Manifest, earlier: Intent, next: Intent)
    requires m.objective.Some? && JournalOk(es, s) && StepEvent(m, s, OperationIntended(next)).Ok?
    requires OperationIntended(earlier) in es && earlier.OperationKey() == next.OperationKey()
    ensures SettledIn(es, earlier)
  {
    IntendedStepFacts(m, s, next);
    IntentPosition(es, earlier);
    OfMember(Intents(es), next.OperationKey(), earlier);
    AttemptsSettled(Intents(es), s, earlier, next);
    BookSettlesIn(es, s, earlier);
  }

  lemma AttemptsSettled(intents: seq<Intent>, s: FoldState, earlier: Intent, next: Intent)
    requires IndexOk(intents, s.book) && OperationsOk(intents, s.book) && AttemptInOrder(s, next.identity)
    requires earlier in Of(intents, next.OperationKey())
    ensures earlier.intentId in s.book.settlements
  {
    assert KeyOk(intents, s.book, next.OperationKey());
  }

  /** An intent is never preceded by a settlement of its own id. */
  lemma IntendedOnce(m: Manifest, es: seq<Event>, p: nat, i: nat)
    requires m.objective.Some? && Fold(m, es).Ok? && p < i < |es|
    requires es[p].OperationSettled? && es[i].OperationIntended?
    ensures es[p].settlement.intentId != es[i].intent.intentId
  {
    FoldAt(m, es, i);
    FoldKeepsJournal(m, es[..i]);
    assert es[..i][p] == es[p];
    FindSettlement(es[..i], Fold(m, es[..i]).value, p);
    IntendedStepFacts(m, Fold(m, es[..i]).value, es[i].intent);
  }

  lemma IntendedStepFacts(m: Manifest, s: FoldState, intent: Intent)
    requires m.objective.Some? && StepEvent(m, s, OperationIntended(intent)).Ok?
    ensures intent.intentId !in s.book.intents && AttemptInOrder(s, intent.identity)
  {
  }

  // ----- Reservations.

  /** The running reservation is the sum over unsettled attempts; with none unsettled it is zero. */
  lemma ReservationsAreOutstanding(m: Manifest, es: seq<Event>)
    requires m.objective.Some? && Fold(m, es).Ok?
    ensures var s := Fold(m, es).value;
            && s.totals.tokensReserved == UnsettledTokens(Intents(es), s.book.settlements.Keys)
            && (!Unresolved(s) ==> s.totals.tokensReserved == 0)
  {
    var s := Fold(m, es).value;
    FoldKeepsJournal(m, es);
    if !Unresolved(s) {
      AllSettled(Intents(es), s.book.settlements.Keys);
    }
  }

  lemma ResolvedIntentSettles(m: Manifest, es: seq<Event>, i: nat) returns (p: nat)
    requires m.objective.Some? && Fold(m, es).Ok? && !Unresolved(Fold(m, es).value)
    requires i < |es| && es[i].OperationIntended?
    ensures Pair(es, i, p)
  {
    p := SettlementOfIntent(m, es, Fold(m, es).value, i);
    if p < i { IntendedOnce(m, es, p, i); }
    PairIsAlone(m, es, i, p);
  }

  lemma SettlementOfIntent(m: Manifest, es: seq<Event>, s: FoldState, i: nat) returns (p: nat)
    requires m.objective.Some? && Fold(m, es) == Ok(s) && !Unresolved(s)
    requires i < |es| && es[i].OperationIntended?
    ensures p < |es| && es[p].OperationSettled? && es[p].settlement.intentId == es[i].intent.intentId
    ensures es[p].settlement.frameId == es[i].intent.identity.frameId
  {
    IntentPosition(es, es[i].intent);
    FoldKeepsJournal(m, es);
    BookSettlesIn(es, s, es[i].intent);
    p :| 0 <= p < |es| && es[p].OperationSettled? && es[p].settlement.intentId == es[i].intent.intentId
         && es[p].settlement.frameId == es[i].intent.identity.frameId;
  }

  /**
   * In an accepted journal intents and settlements are in bijection: every intent has exactly one settlement, a later
   * one of the same frame, no other event carries its id, and the reservations have run down to zero.
   */
  lemma AcceptedJournalSettlesEverything(m: Manifest, events: seq<Event>, i: nat) returns (p: nat)
    requires Validate(m, events).Ok? && i < |events| - 1 && events[1..][i].OperationIntended?
    ensures m.objective.Some? && Fold(m, events[1..]).Ok? && Pair(events[1..], i, p)
    ensures Fold(m, events[1..]).value.totals.tokensReserved == 0
  {
    AcceptedFolds(m, events);
    p := ResolvedJournalSettles(m, events[1..], i);
  }

  lemma AcceptedFolds(m: Manifest, events: seq<Event>)
    requires Validate(m, events).Ok?
    ensures events != [] && m.objective.Some? && Fold(m, events[1..]).Ok? && !Unresolved(Fold(m, events[1..]).value)
  {
    FinishFacts(m, Fold(m, events[1..]).value);
  }

  lemma FinishFacts(m: Manifest, s: FoldState)
    requires Finish(m, s).Ok?
    ensures !Unresolved(s)
  {
  }

  lemma ResolvedJournalSettles(m: Manifest, es: seq<Event>, i: nat) returns (p: nat)
    requires m.objective.Some? && Fold(m, es).Ok? && !Unresolved(Fold(m, es).value)
    requires i < |es| && es[i].OperationIntended?
    ensures Pair(es, i, p) && Fold(m, es).value.totals.tokensReserved == 0
  {
    ReservationsAreOutstanding(m, es);
    p := ResolvedIntentSettles(m, es, i);
  }

  // ----- Logical calls.

  /** The attempts from the last one that reserved a logical call onwards. */
  function LastLogicalCall(attempts: seq<Intent>): seq<Intent> {
    if attempts == [] then []
    else
      var last := attempts[|attempts| - 1];
      if last.identity.reservation.logicalCalls == 1 then [last]
      else LastLogicalCall(attempts[..|attempts| - 1]) + [last]
  }

  function SettledUsages(book: Book, attempts: seq<Intent>): seq<CallUsage>
    requires forall k | 0 <= k < |attempts| :: attempts[k].intentId in book.settlements
  {
    seq(|attempts|, k requires 0 <= k < |attempts| => book.settlements[attempts[k].intentId].usage)
  }

  lemma {:induction false} LastCallIsSegment(earlier: seq<Intent>, segment: seq<Intent>)
    requires |segment| >= 1
    requires forall j | 0 <= j < |segment| ::
      segment[j].identity.reservation.logicalCalls == (if j == 0 then 1 else 0)
    ensures LastLogicalCall(earlier + segment) == segment
  {
    var all := earlier + segment;
    if |segment| > 1 {
      var front := segment[..|segment| - 1];
      assert all[..|all| - 1] == earlier + front;
      LastCallIsSegment(earlier, front);
    }
  }

  /** The last segment of an operation holds its last logical call and, once complete, its exact settled usage. */
  lemma LastSegmentUsage(key: OperationKey, op: Operation, attempts: seq<Intent>, book: Book)
    requires OperationOk(key, op, attempts, book)
    ensures LastLogicalCall(attempts) == op.segments[|op.segments| - 1].intents
    ensures op.segments[|op.segments| - 1].Complete() ==>
              && (forall k | 0 <= k < |LastLogicalCall(attempts)| ::
                    LastLogicalCall(attempts)[k].intentId in book.settlements)
              && op.segments[|op.segments| - 1].usage == SumUsage(SettledUsages(book, LastLogicalCall(attempts)))
  {
    var segment := op.segments[|op.segments| - 1];
    assert SegmentOk(key, segment, book);
    LastCallIsSegment(Flatten(op.segments[..|op.segments| - 1]), segment.intents);
    if segment.Complete() {
      assert Usages(segment.outcomes) == SettledUsages(book, segment.intents);
      AccumulateExact(Usages(segment.outcomes));
    }
  }

  /**
   * A newly committed llm or agent call reports exactly the sum of the settlements of its last logical call,
   * every attempt of which has settled.
   */
  lemma CommittedCallUsage(m: Manifest, es: seq<Event>, c: Call)
    requires m.objective.Some? && Fold(m, es + [CallCommitted(c)]).Ok?
    requires c.kind == LlmCall || c.kind == AgentCall
    requires Fold(m, es + [CallCommitted(c)]) != Fold(m, es)
    ensures Fold(m, es).Ok?
    ensures var book := Fold(m, es).value.book;
            var attempts := LastLogicalCall(Of(Intents(es), OpKey(c.frameId, CallOperation(c.callId))));
            && |attempts| >= 1
            && (forall k | 0 <= k < |attempts| :: attempts[k].intentId in book.settlements)
            && c.usage == SumUsage(SettledUsages(book, attempts))
  {
    LastStep(m, es, CallCommitted(c));
    var s := Fold(m, es).value;
    CallStepFacts(m, s, c);
    FoldKeepsJournal(m, es);
    var key := OpKey(c.frameId, CallOperation(c.callId));
    assert KeyOk(Intents(es), s.book, key);
    LastSegmentUsage(key, s.book.operations[key], Of(Intents(es), key), s.book);
  }

  lemma CallStepFacts(m: Manifest, s: FoldState, c: Call)
    requires m.objective.Some? && StepEvent(m, s, CallCommitted(c)).Ok?
    requires c.kind == LlmCall || c.kind == AgentCall
    requires StepEvent(m, s, CallCommitted(c)).value != s
    ensures BackedByOperation(m, s, c)
  {
  }

  /**
   * A newly committed cell reports exactly what its controller operation settled: the sum over all attempts of
   * that turn, all of them settled, or nothing when no provider served the turn.
   */
  lemma CommittedCellUsage(m: Manifest, es: seq<Event>, c: Cell)
    requires m.objective.Some? && Fold(m, es + [CellCommitted(c)]).Ok?
    requires Fold(m, es + [CellCommitted(c)]) != Fold(m, es)
    ensures Fold(m, es).Ok?
    ensures var book := Fold(m, es).value.book;
            var attempts := Of(Intents(es), OpKey(c.frameId, ControllerOperation(c.frameId, c.iteration)));
            && (forall k | 0 <= k < |attempts| :: attempts[k].intentId in book.settlements)
            && c.usage.GetOr(ZERO_CALL_USAGE) == SumUsage(SettledUsages(book, attempts))
  {
    LastStep(m, es, CellCommitted(c));
    var s := Fold(m, es).value;
    CellStepFacts(m, s, c);
    FoldKeepsJournal(m, es);
    assert KeyOk(Intents(es), s.book, OpKey(c.frameId, ControllerOperation(c.frameId, c.iteration)));
    ControllerUsageIsSettled(Intents(es), s, c);
  }

  lemma ControllerUsageIsSettled(intents: seq<Intent>, s: FoldState, c: Cell)
    requires KeyOk(intents, s.book, OpKey(c.frameId, ControllerOperation(c.frameId, c.iteration)))
    requires var key := OpKey(c.frameId, ControllerOperation(c.frameId, c.iteration));
             key in s.book.operations ==> ControllerComplete(s.book.operations[key])
    ensures var attempts := Of(intents, OpKey(c.frameId, ControllerOperation(c.frameId, c.iteration)));
            && (forall k | 0 <= k < |attempts| :: attempts[k].intentId in s.book.settlements)
            && ControllerUsage(s, c) == SumUsage(SettledUsages(s.book, attempts))
  {
    var key := OpKey(c.frameId, ControllerOperation(c.frameId, c.iteration));
    if key in s.book.operations {
      OnlySegmentUsage(key, s.book.operations[key], Of(intents, key), s.book);
    } else {
      assert Of(intents, key) == [];
      assert SettledUsages(s.book, []) == [];
    }
  }

  lemma OnlySegmentUsage(key: OperationKey, op: Operation, attempts: seq<Intent>, book: Book)
    requires OperationOk(key, op, attempts, book) && ControllerComplete(op)
    ensures forall k | 0 <= k < |attempts| :: attempts[k].intentId in book.settlements
    ensures op.segments[0].usage == SumUsage(SettledUsages(book, attempts))
  {
    LastSegmentUsage(key, op, attempts, book);
    assert op.segments[..|op.segments| - 1] == [];
    assert Flatten(op.segments[..|op.segments| - 1]) == [];
    assert attempts == op.segments[0].intents;
  }

  lemma CellStepFacts(m: Manifest, s: FoldState, c: Cell)
    requires m.objective.Some? && StepEvent(m, s, CellCommitted(c)).Ok?
    requires StepEvent(m, s, CellCommitted(c)).value != s
    ensures var key := OpKey(c.frameId, ControllerOperation(c.frameId, c.iteration));
            key in s.book.operations ==> ControllerComplete(s.book.operations[key])
    ensures c.usage.GetOr(ZERO_CALL_USAGE) == ControllerUsage(s, c)
  {
  }
}
