/** The order in which a journal that folds intends and settles its external operations. */
module OperationDiscipline {
  import opened Wrappers
  import opened Usage
  import opened Journal
  import opened RecoveryJournal

  /** The attempts of one operation, in journal order. */
  function Of(intents: seq<Intent>, key: OperationKey): seq<Intent> {
    if intents == [] then []
    else
      var last := intents[|intents| - 1];
      Of(intents[..|intents| - 1], key) + (if last.OperationKey() == key then [last] else [])
  }

  function Flatten(segments: seq<Segment>): seq<Intent> {
    if segments == [] then []
    else Flatten(segments[..|segments| - 1]) + segments[|segments| - 1].intents
  }

  function Usages(outcomes: seq<Settlement>): seq<CallUsage> {
    seq(|outcomes|, k requires 0 <= k < |outcomes| => outcomes[k].usage)
  }

  /** Token reservations of the attempts that have not settled. */
  function UnsettledTokens(intents: seq<Intent>, settled: set<IntentId>): int {
    if intents == [] then 0
    else
      var last := intents[|intents| - 1];
      UnsettledTokens(intents[..|intents| - 1], settled) +
      (if last.intentId in settled then 0 else last.identity.reservation.tokens)
  }

  ghost predicate DistinctIds(intents: seq<Intent>) {
    forall i, j | 0 <= i < j < |intents| :: intents[i].intentId != intents[j].intentId
  }

  /** One logical call: its first attempt alone reserves it, and its settled attempts come first, in order. */
  ghost predicate SegmentOk(key: OperationKey, segment: Segment, book: Book) {
    && 1 <= |segment.intents| <= |segment.outcomes| + 1 <= |segment.intents| + 1
    && (forall j | 0 <= j < |segment.intents| ::
          var intent := segment.intents[j];
          && intent.OperationKey() == key
          && intent.intentId in book.intents && book.intents[intent.intentId] == intent
          && intent.identity.reservation.logicalCalls == (if j == 0 then 1 else 0)
          && (intent.intentId in book.settlements <==> j < |segment.outcomes|))
    && (forall j | 0 <= j < |segment.outcomes| ::
          segment.outcomes[j] == book.settlements[segment.intents[j].intentId])
    && Accumulate(Usages(segment.outcomes)) == Ok(segment.usage)
  }

  /** One operation: attempts 1..n, all but the last settled, cut into logical calls. */
  ghost predicate OperationOk(key: OperationKey, op: Operation, attempts: seq<Intent>, book: Book) {
    && |attempts| >= 1 && |op.segments| >= 1
    && Flatten(op.segments) == attempts
    && op.lastAttempt == |attempts|
    && op.lastIntentId == attempts[|attempts| - 1].intentId
    && (forall k | 0 <= k < |attempts| ::
          var i := attempts[k].identity;
          i.attempt == k + 1 && i.kind == op.kind && i.key == op.key)
    && (forall k | 0 <= k < |attempts| - 1 :: attempts[k].intentId in book.settlements)
    && (forall k | 0 <= k < |op.segments| :: SegmentOk(key, op.segments[k], book))
    && (forall k | 0 <= k < |op.segments| - 1 :: op.segments[k].Complete())
  }

  ghost predicate AttemptOk(book: Book, id: IntentId)
    requires id in book.attemptRecords && id in book.intents
  {
    var a := book.attemptRecords[id];
    && a.operation == book.intents[id].OperationKey()
    && a.operation in book.operations
    && a.segment < |book.operations[a.operation].segments|
    && book.intents[id] in book.operations[a.operation].segments[a.segment].intents
  }

  ghost predicate SettlementOk(book: Book, id: IntentId)
    requires id in book.settlements && id in book.intents
  {
    var e := book.settlements[id];
    && e.intentId == id
    && e.frameId == book.intents[id].identity.frameId
    && Within(e.usage, CALL_USAGE_LIMITS)
  }

  /** The books list exactly the journal's intents, and only settle what they list. */
  ghost predicate IndexOk(intents: seq<Intent>, book: Book) {
    && DistinctIds(intents)
    && (forall k | 0 <= k < |intents| ::
          intents[k].intentId in book.intents && book.intents[intents[k].intentId] == intents[k])
    && (forall id <- book.intents :: book.intents[id].intentId == id && book.intents[id] in intents)
    && book.attemptRecords.Keys == book.intents.Keys
    && book.settlements.Keys <= book.intents.Keys
    && (forall id {:trigger SettlementOk(book, id)} | id in book.settlements :: SettlementOk(book, id))
  }

  ghost predicate KeyOk(intents: seq<Intent>, book: Book, key: OperationKey) {
    && (key in book.operations <==> Of(intents, key) != [])
    && (key in book.operations ==> OperationOk(key, book.operations[key], Of(intents, key), book))
  }

  ghost predicate OperationsOk(intents: seq<Intent>, book: Book)
    requires book.attemptRecords.Keys == book.intents.Keys
  {
    && (forall id {:trigger AttemptOk(book, id)} | id in book.intents :: AttemptOk(book, id))
    && (forall key {:trigger KeyOk(intents, book, key)} :: KeyOk(intents, book, key))
  }

  ghost predicate BookOk(intents: seq<Intent>, book: Book, tokensReserved: int) {
    && IndexOk(intents, book)
    && OperationsOk(intents, book)
    && tokensReserved == UnsettledTokens(intents, book.settlements.Keys)
  }

  lemma OfAppend(intents: seq<Intent>, intent: Intent, key: OperationKey)
    ensures Of(intents + [intent], key) ==
            Of(intents, key) + (if intent.OperationKey() == key then [intent] else [])
  {
    assert (intents + [intent])[..|intents|] == intents;
  }

  lemma {:induction false} FlattenSameIntents(a: seq<Segment>, b: seq<Segment>)
    requires |a| == |b| && forall k | 0 <= k < |a| :: a[k].intents == b[k].intents
    ensures Flatten(a) == Flatten(b)
  {
    if a != [] { FlattenSameIntents(a[..|a| - 1], b[..|b| - 1]); }
  }

  lemma UsagesAppend(outcomes: seq<Settlement>, e: Settlement)
    ensures Usages(outcomes + [e]) == Usages(outcomes) + [e.usage]
  {
  }

  lemma {:induction false} UnsettledAppend(intents: seq<Intent>, intent: Intent, settled: set<IntentId>)
    requires intent.intentId !in settled
    ensures UnsettledTokens(intents + [intent], settled) ==
            UnsettledTokens(intents, settled) + intent.identity.reservation.tokens
  {
    assert (intents + [intent])[..|intents|] == intents;
  }

  lemma {:induction false} UnsettledSettle(intents: seq<Intent>, settled: set<IntentId>, k: nat)
    requires DistinctIds(intents) && k < |intents| && intents[k].intentId !in settled
    ensures UnsettledTokens(intents, settled + {intents[k].intentId}) ==
            UnsettledTokens(intents, settled) - intents[k].identity.reservation.tokens
  {
    var front := intents[..|intents| - 1];
    if k == |intents| - 1 {
      UnsettledUnaffected(front, settled, intents[k].intentId);
    } else {
      UnsettledSettle(front, settled, k);
    }
  }

  lemma {:induction false} UnsettledUnaffected(intents: seq<Intent>, settled: set<IntentId>, id: IntentId)
    requires forall k | 0 <= k < |intents| :: intents[k].intentId != id
    ensures UnsettledTokens(intents, settled + {id}) == UnsettledTokens(intents, settled)
  {
    if intents != [] { UnsettledUnaffected(intents[..|intents| - 1], settled, id); }
  }

  lemma {:induction false} ReservedCovers(intents: seq<Intent>, settled: set<IntentId>, intent: Intent)
    requires intent in intents && intent.intentId !in settled
    ensures UnsettledTokens(intents, settled) >= intent.identity.reservation.tokens
  {
    var front, last := intents[..|intents| - 1], intents[|intents| - 1];
    UnsettledNonNegative(front, settled);
    if intent != last {
      assert intents == front + [last];
      ReservedCovers(front, settled, intent);
    }
  }

  lemma {:induction false} UnsettledNonNegative(intents: seq<Intent>, settled: set<IntentId>)
    ensures UnsettledTokens(intents, settled) >= 0
  {
    if intents != [] { UnsettledNonNegative(intents[..|intents| - 1], settled); }
  }

  /** Once every attempt has settled no reservation is left. */
  lemma {:induction false} AllSettled(intents: seq<Intent>, settled: set<IntentId>)
    requires forall k | 0 <= k < |intents| :: intents[k].intentId in settled
    ensures UnsettledTokens(intents, settled) == 0
  {
    if intents != [] { AllSettled(intents[..|intents| - 1], settled); }
  }

  // ----- Intending an attempt.

  lemma SegmentKeptByIntend(key: OperationKey, segment: Segment, book: Book, intent: Intent)
    requires intent.identity.reservation.logicalCalls != 1 ==>
               intent.OperationKey() in book.operations && |book.operations[intent.OperationKey()].segments| > 0
    requires SegmentOk(key, segment, book) && intent.intentId !in book.intents
    ensures SegmentOk(key, segment, Intend(book, intent))
  {
  }

  lemma FirstSegmentOk(key: OperationKey, intent: Intent, segment: Segment, book: Book)
    requires segment == Segment([intent], [], ZERO_CALL_USAGE) && intent.OperationKey() == key
    requires intent.identity.reservation.logicalCalls == 1
    requires intent.intentId in book.intents && book.intents[intent.intentId] == intent
    requires intent.intentId !in book.settlements
    ensures SegmentOk(key, segment, book)
  {
    assert Usages([]) == [];
  }

  lemma FirstAttemptOk(key: OperationKey, intent: Intent, book: Book)
    requires intent.OperationKey() == key && intent.identity.attempt == 1
    requires intent.identity.reservation.logicalCalls == 1
    requires intent.intentId in book.intents && book.intents[intent.intentId] == intent
    requires intent.intentId !in book.settlements
    ensures OperationOk(key, RecordIntent(None, intent), [intent], book)
  {
    var op := RecordIntent(None, intent);
    var segment := Segment([intent], [], ZERO_CALL_USAGE);
    assert op.segments == [segment];
    assert op.segments[..0] == [] && Flatten(op.segments) == [intent];
    FirstSegmentOk(key, intent, segment, book);
  }

  lemma NextAttemptOk(key: OperationKey, op: Operation, attempts: seq<Intent>, intent: Intent, book: Book)
    requires OperationOk(key, op, attempts, book)
    requires intent.OperationKey() == key && intent.identity.attempt == op.lastAttempt + 1
    requires intent.identity.kind == op.kind && intent.identity.key == op.key
    requires op.lastIntentId in book.settlements
    requires intent.intentId in book.intents && book.intents[intent.intentId] == intent
    requires intent.intentId !in book.settlements
    ensures OperationOk(key, RecordIntent(Some(op), intent), attempts + [intent], book)
  {
    var op' := RecordIntent(Some(op), intent);
    var last := |op.segments| - 1;
    LastSettled(key, op, attempts, book);
    if intent.identity.reservation.logicalCalls == 1 {
      assert op'.segments[..|op.segments|] == op.segments;
      FirstSegmentOk(key, intent, op'.segments[|op.segments|], book);
    } else {
      assert op'.segments[..last] == op.segments[..last];
      assert SegmentOk(key, op.segments[last], book);
      assert SegmentOk(key, op'.segments[last], book);
    }
  }

  lemma LastSettled(key: OperationKey, op: Operation, attempts: seq<Intent>, book: Book)
    requires OperationOk(key, op, attempts, book)
    ensures op.lastIntentId in book.settlements <==> op.segments[|op.segments| - 1].Complete()
  {
    var segment := op.segments[|op.segments| - 1];
    assert SegmentOk(key, segment, book);
    assert attempts[|attempts| - 1] == segment.intents[|segment.intents| - 1];
  }

  /** What an operation has recorded survives the registration of any new intent. */
  lemma OperationKeptByIntend(key: OperationKey, op: Operation, book: Book, intent: Intent, attempts: seq<Intent>)
    requires intent.identity.reservation.logicalCalls != 1 ==>
               intent.OperationKey() in book.operations && |book.operations[intent.OperationKey()].segments| > 0
    requires intent.intentId !in book.intents && OperationOk(key, op, attempts, book)
    ensures OperationOk(key, op, attempts, Intend(book, intent))
  {
    forall k | 0 <= k < |op.segments| ensures SegmentOk(key, op.segments[k], Intend(book, intent)) {
      SegmentKeptByIntend(key, op.segments[k], book, intent);
    }
  }

  lemma IntendKeepsIndex(intents: seq<Intent>, book: Book, intent: Intent)
    requires intent.identity.reservation.logicalCalls != 1 ==>
               intent.OperationKey() in book.operations && |book.operations[intent.OperationKey()].segments| > 0
    requires IndexOk(intents, book) && intent.intentId !in book.intents
    ensures IndexOk(intents + [intent], Intend(book, intent))
  {
    var book', intents' := Intend(book, intent), intents + [intent];
    forall id | id in book'.intents ensures book'.intents[id].intentId == id && book'.intents[id] in intents' {
      if id != intent.intentId { assert book.intents[id] in intents; }
      else { assert intents'[|intents|] == intent; }
    }
    forall id | id in book'.settlements ensures SettlementOk(book', id) {
      assert SettlementOk(book, id);
    }
  }

  lemma IntendKeepsOperation(intents: seq<Intent>, s: FoldState, intent: Intent, key: OperationKey)
    requires IndexOk(intents, s.book) && OperationsOk(intents, s.book)
    requires intent.intentId !in s.book.intents && AttemptInOrder(s, intent.identity)
    ensures KeyOk(intents + [intent], Intend(s.book, intent), key)
  {
    var book, book' := s.book, Intend(s.book, intent);
    assert KeyOk(intents, book, key);
    OfAppend(intents, intent, key);
    if key in book.operations {
      OperationKeptByIntend(key, book.operations[key], book, intent, Of(intents, key));
      if key == intent.OperationKey() {
        NextAttemptOk(key, book.operations[key], Of(intents, key), intent, book');
      }
    } else if key == intent.OperationKey() {
      FirstAttemptOk(key, intent, book');
    }
  }

  lemma IntendKeepsBook(intents: seq<Intent>, s: FoldState, intent: Intent)
    requires BookOk(intents, s.book, s.totals.tokensReserved)
    requires intent.intentId !in s.book.intents && AttemptInOrder(s, intent.identity)
    ensures BookOk(intents + [intent], Intend(s.book, intent),
                   s.totals.tokensReserved + intent.identity.reservation.tokens)
  {
    var book, book' := s.book, Intend(s.book, intent);
    IntendKeepsIndex(intents, book, intent);
    forall key ensures KeyOk(intents + [intent], book', key) {
      IntendKeepsOperation(intents, s, intent, key);
    }
    forall id | id in book'.intents ensures AttemptOk(book', id) {
      if id != intent.intentId { assert AttemptOk(book, id); }
      IntendKeepsAttempt(book, intent, id);
    }
    UnsettledAppend(intents, intent, book.settlements.Keys);
  }

  lemma IntendKeepsAttempt(book: Book, intent: Intent, id: IntentId)
    requires intent.identity.reservation.logicalCalls != 1 ==>
               intent.OperationKey() in book.operations && |book.operations[intent.OperationKey()].segments| > 0
    requires intent.intentId !in book.intents && book.attemptRecords.Keys == book.intents.Keys
    requires id == intent.intentId || (id in book.intents && AttemptOk(book, id))
    ensures AttemptOk(Intend(book, intent), id)
  {
    var book' := Intend(book, intent);
    if id == intent.intentId {
      var segments := book'.operations[intent.OperationKey()].segments;
      assert intent in segments[|segments| - 1].intents;
    } else {
      var a := book.attemptRecords[id];
      var before := book.operations[a.operation].segments[a.segment];
      var after := book'.operations[a.operation].segments[a.segment];
      assert before.intents <= after.intents;
    }
  }

  // ----- Settling an attempt.

  lemma SettledSegmentOk(key: OperationKey, segment: Segment, book: Book, book': Book, e: Settlement, usage: CallUsage)
    requires SegmentOk(key, segment, book) && e.intentId in book.intents && e.intentId !in book.settlements
    requires book.intents[e.intentId] in segment.intents
    requires forall id <- book.intents :: book.intents[id].intentId == id
    requires book'.intents == book.intents && book'.settlements == book.settlements[e.intentId := e]
    requires AddUsage(segment.usage, e.usage) == Ok(usage)
    ensures !segment.Complete()
    ensures SegmentOk(key, segment.(usage := usage, outcomes := segment.outcomes + [e]), book')
  {
    var j :| 0 <= j < |segment.intents| && segment.intents[j] == book.intents[e.intentId];
    assert segment.intents[j].intentId == e.intentId;
    assert j == |segment.outcomes|;
    UsagesAppend(segment.outcomes, e);
    AccumulateAppend(Usages(segment.outcomes), e.usage);
    forall i | 0 <= i < |segment.outcomes|
      ensures segment.intents[i].intentId in book.settlements && segment.intents[i].intentId != e.intentId
    {
    }
  }

  /** A segment that does not hold the settled attempt is untouched. */
  lemma OtherSegmentOk(key: OperationKey, segment: Segment, book: Book, book': Book, e: Settlement)
    requires SegmentOk(key, segment, book) && e.intentId !in book.settlements
    requires book'.intents == book.intents && book'.settlements == book.settlements[e.intentId := e]
    requires segment.Complete() || (e.intentId in book.intents && book.intents[e.intentId].OperationKey() != key)
    ensures SegmentOk(key, segment, book')
  {
    forall j | 0 <= j < |segment.intents| ensures segment.intents[j].intentId != e.intentId {
      assert segment.intents[j].OperationKey() == key;
    }
  }

  lemma SettledOperationOk(book: Book, e: Settlement, usage: CallUsage, attempts: seq<Intent>)
    requires e.intentId in book.intents && e.intentId in book.attemptRecords && e.intentId !in book.settlements
    requires forall id <- book.intents :: book.intents[id].intentId == id
    requires AttemptOk(book, e.intentId)
    requires var a := book.attemptRecords[e.intentId];
             && OperationOk(a.operation, book.operations[a.operation], attempts, book)
             && AddUsage(book.operations[a.operation].segments[a.segment].usage, e.usage) == Ok(usage)
    ensures var a := book.attemptRecords[e.intentId];
            var book' := Settle(book, e, usage);
            OperationOk(a.operation, book'.operations[a.operation], attempts, book')
  {
    var a := book.attemptRecords[e.intentId];
    var op, book' := book.operations[a.operation], Settle(book, e, usage);
    var op' := book'.operations[a.operation];
    assert SegmentOk(a.operation, op.segments[a.segment], book);
    SettledSegmentOk(a.operation, op.segments[a.segment], book, book', e, usage);
    assert a.segment == |op.segments| - 1;
    forall k | 0 <= k < |op'.segments| ensures SegmentOk(a.operation, op'.segments[k], book') {
      assert SegmentOk(a.operation, op.segments[k], book);
      if k != a.segment { OtherSegmentOk(a.operation, op.segments[k], book, book', e); }
    }
    FlattenSameIntents(op.segments, op'.segments);
  }

  lemma OtherOperationOk(book: Book, e: Settlement, usage: CallUsage, key: OperationKey, attempts: seq<Intent>)
    requires e.intentId in book.intents && e.intentId in book.attemptRecords && e.intentId !in book.settlements
    requires AttemptOk(book, e.intentId) && key in book.operations && key != book.attemptRecords[e.intentId].operation
    requires OperationOk(key, book.operations[key], attempts, book)
    ensures OperationOk(key, book.operations[key], attempts, Settle(book, e, usage))
  {
    var book' := Settle(book, e, usage);
    forall k | 0 <= k < |book.operations[key].segments|
      ensures SegmentOk(key, book.operations[key].segments[k], book')
    {
      OtherSegmentOk(key, book.operations[key].segments[k], book, book', e);
    }
  }

  /** The accounting hypothesis under which a settlement reaches the books. */
  ghost predicate Settles(book: Book, e: Settlement, usage: CallUsage) {
    && e.intentId in book.intents && e.intentId !in book.settlements && HasSegment(book, e.intentId)
    && e.frameId == book.intents[e.intentId].identity.frameId && Within(e.usage, CALL_USAGE_LIMITS)
    && AddUsage(SegmentFor(book, e.intentId).usage, e.usage) == Ok(usage)
  }

  lemma SettleKeepsIndex(intents: seq<Intent>, book: Book, e: Settlement, usage: CallUsage)
    requires IndexOk(intents, book) && Settles(book, e, usage)
    ensures IndexOk(intents, Settle(book, e, usage))
  {
    var book' := Settle(book, e, usage);
    forall id | id in book'.settlements ensures SettlementOk(book', id) {
      if id != e.intentId { assert SettlementOk(book, id); }
    }
  }

  lemma SettleKeepsOperations(intents: seq<Intent>, book: Book, e: Settlement, usage: CallUsage)
    requires IndexOk(intents, book) && OperationsOk(intents, book) && Settles(book, e, usage)
    ensures Settle(book, e, usage).attemptRecords.Keys == Settle(book, e, usage).intents.Keys
    ensures OperationsOk(intents, Settle(book, e, usage))
  {
    var book' := Settle(book, e, usage);
    var a := book.attemptRecords[e.intentId];
    assert AttemptOk(book, e.intentId);
    forall key ensures KeyOk(intents, book', key) {
      assert KeyOk(intents, book, key);
      if key == a.operation {
        SettledOperationOk(book, e, usage, Of(intents, key));
      } else if key in book.operations {
        OtherOperationOk(book, e, usage, key, Of(intents, key));
      }
    }
    forall id | id in book'.intents ensures AttemptOk(book', id) {
      assert AttemptOk(book, id);
    }
  }

  lemma SettleKeepsBook(intents: seq<Intent>, book: Book, tokensReserved: int, e: Settlement, usage: CallUsage)
    requires BookOk(intents, book, tokensReserved) && Settles(book, e, usage)
    ensures BookOk(intents, Settle(book, e, usage),
                   tokensReserved - book.intents[e.intentId].identity.reservation.tokens)
  {
    SettleKeepsIndex(intents, book, e, usage);
    SettleKeepsOperations(intents, book, e, usage);
    assert book.intents[e.intentId] in intents;
    var k :| 0 <= k < |intents| && intents[k] == book.intents[e.intentId];
    UnsettledSettle(intents, book.settlements.Keys, k);
    assert Settle(book, e, usage).settlements.Keys == book.settlements.Keys + {e.intentId};
  }
}
