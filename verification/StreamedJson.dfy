/**
 * The streaming writer that stores checkpoint payloads (src/shell/canonical-json.ts) against canonical text, which
 * recovery demands of them (src/runtime/checkpoint-recovery.ts). The writer emits keys in code unit order; canonical
 * text lists them in enumeration order, array indexes first.
 */
module StreamedJson {
  import opened Wrappers
  import opened JsonKeys
  import opened CanonicalJson
  import opened JsonText

  /** The value as the writer traverses it. */
  function Traversed(v: Json): Json
    decreases v
  {
    match v
    case Arr(items) => Arr(TraversedItems(items))
    case Obj(es) => Obj(Sort(UnitsLess, TraversedEntries(es)))
    case _ => v
  }

  function TraversedItems(items: seq<Json>): (r: seq<Json>)
    ensures |r| == |items| && forall i | 0 <= i < |items| :: r[i] == Traversed(items[i])
    decreases items
  {
    seq(|items|, i requires 0 <= i < |items| => Traversed(items[i]))
  }

  function TraversedEntries(es: seq<Entry>): (r: seq<Entry>)
    ensures |r| == |es| && forall i | 0 <= i < |es| :: r[i] == Entry(es[i].key, Traversed(es[i].value))
    decreases es
  {
    seq(|es|, i requires 0 <= i < |es| => Entry(es[i].key, Traversed(es[i].value)))
  }

  /** The writer refuses the same depths as canonicalization. */
  function StreamedText(v: Json): Result<Units, JsonError> {
    if WithinDepth(v, 0) then Ok(Text(Traversed(v))) else Err(DepthExceeded)
  }

  /** Sorting and enumerating agree on the keys of one object. */
  predicate KeysAgree(es: seq<Entry>) {
    forall i, j {:trigger UnitsLess(es[i].key, es[j].key)} | 0 <= i < |es| && 0 <= j < |es| ::
      UnitsLess(es[i].key, es[j].key) ==> KeyLess(es[i].key, es[j].key)
  }

  /** They agree on every object inside a value. */
  predicate OrdersAgree(v: Json) {
    match v
    case Arr(items) => forall i {:trigger items[i]} | 0 <= i < |items| :: OrdersAgree(items[i])
    case Obj(es) => KeysAgree(es) && forall i {:trigger es[i]} | 0 <= i < |es| :: OrdersAgree(es[i].value)
    case _ => true
  }

  lemma {:induction false} SortKeepsKeyOrder(es: seq<Entry>)
    requires DistinctKeys(es) && KeysAgree(es)
    ensures Sort(UnitsLess, es) == Ordered(es)
  {
    UnitsLessIsStrictOrder();
    KeyLessIsStrictOrder();
    SortSorts(UnitsLess, es);
    OrderedSorts(es);
    var sorted := Sort(UnitsLess, es);
    forall i, j | 0 <= i < j < |sorted| ensures KeyLess(sorted[i].key, sorted[j].key) {
      assert sorted[i] in es && sorted[j] in es;
      var a :| 0 <= a < |es| && es[a] == sorted[i];
      var b :| 0 <= b < |es| && es[b] == sorted[j];
      assert UnitsLess(es[a].key, es[b].key);
    }
    SortedUnique(KeyLess, sorted, Ordered(es));
  }

  lemma {:induction false} SortedIndexes(less: (Units, Units) -> bool, es: seq<Entry>, a: nat, b: nat)
    requires StrictOrder(less) && StrictlySorted(less, es) && a < |es| && b < |es| && less(es[a].key, es[b].key)
    ensures a < b
  {
    assert !less(es[b].key, es[a].key);
  }

  lemma {:induction false} SameOrderAgrees(es: seq<Entry>)
    requires DistinctKeys(es) && Sort(UnitsLess, es) == Ordered(es)
    ensures KeysAgree(es)
  {
    UnitsLessIsStrictOrder();
    SortSorts(UnitsLess, es);
    OrderedSorts(es);
    SortedBothWays(es, Sort(UnitsLess, es));
  }

  lemma {:induction false} SortedBothWays(es: seq<Entry>, sorted: seq<Entry>)
    requires StrictOrder(UnitsLess) && SameElements(sorted, es)
    requires StrictlySorted(UnitsLess, sorted) && StrictlySorted(KeyLess, sorted)
    ensures KeysAgree(es)
  {
    forall i, j | 0 <= i < |es| && 0 <= j < |es| && UnitsLess(es[i].key, es[j].key)
      ensures KeyLess(es[i].key, es[j].key)
    {
      assert es[i] in sorted && es[j] in sorted;
      var a :| 0 <= a < |sorted| && sorted[a] == es[i];
      var b :| 0 <= b < |sorted| && sorted[b] == es[j];
      SortedIndexes(UnitsLess, sorted, a, b);
    }
  }

  lemma {:induction false} TraversedIsCanon(v: Json)
    requires Valid(v) && OrdersAgree(v)
    ensures Traversed(v) == Canon(v)
  {
    match v {
      case Arr(items) =>
        forall i | 0 <= i < |items| ensures Traversed(items[i]) == Canon(items[i]) { TraversedIsCanon(items[i]); }
        assert TraversedItems(items) == CanonItems(items);
      case Obj(es) =>
        forall i | 0 <= i < |es| ensures Traversed(es[i].value) == Canon(es[i].value) { TraversedIsCanon(es[i].value); }
        assert TraversedEntries(es) == CanonEntries(es);
        CanonEntriesDistinct(es);
        SortKeepsKeyOrder(CanonEntries(es));
      case _ =>
    }
  }

  lemma {:induction false} SameKeysAgree(es: seq<Entry>, fs: seq<Entry>)
    requires |es| == |fs| && forall i | 0 <= i < |es| :: es[i].key == fs[i].key
    requires KeysAgree(fs)
    ensures KeysAgree(es)
  {
    forall i, j | 0 <= i < |es| && 0 <= j < |es| && UnitsLess(es[i].key, es[j].key)
      ensures KeyLess(es[i].key, es[j].key)
    {
      assert UnitsLess(fs[i].key, fs[j].key);
    }
  }

  /** Equal canonical order of an object's two renderings means equal entries, key by key. */
  lemma {:induction false} RenderedAlike(es: seq<Entry>)
    requires DistinctKeys(es) && Sort(UnitsLess, TraversedEntries(es)) == Ordered(CanonEntries(es))
    ensures TraversedEntries(es) == CanonEntries(es)
  {
    var x, y := TraversedEntries(es), CanonEntries(es);
    CanonEntriesDistinct(es);
    OrderedSorts(y);
    forall i | 0 <= i < |es| ensures x[i] == y[i] {
      assert x[i] in y;
      var j :| 0 <= j < |es| && y[j] == x[i];
      assert es[j].key == es[i].key;
    }
  }

  lemma {:induction false} CanonTraversedAgrees(v: Json)
    requires Valid(v) && Traversed(v) == Canon(v)
    ensures OrdersAgree(v)
  {
    match v {
      case Arr(items) =>
        forall i | 0 <= i < |items| ensures OrdersAgree(items[i]) {
          assert TraversedItems(items)[i] == CanonItems(items)[i];
          CanonTraversedAgrees(items[i]);
        }
      case Obj(es) =>
        RenderedAlike(es);
        forall i | 0 <= i < |es| ensures OrdersAgree(es[i].value) {
          assert TraversedEntries(es)[i] == CanonEntries(es)[i];
          CanonTraversedAgrees(es[i].value);
        }
        CanonEntriesDistinct(es);
        SameOrderAgrees(CanonEntries(es));
        SameKeysAgree(es, CanonEntries(es));
      case _ =>
    }
  }

  /**
   * A stored payload is the canonical text that recovery demands exactly when, in every object inside it, code unit
   * order and enumeration order agree on the keys.
   */
  lemma {:induction false} StreamedIsCanonical(v: Json)
    requires Valid(v) && WithinDepth(v, 0)
    ensures StreamedText(v) == CanonicalStringify(v) <==> OrdersAgree(v)
  {
    StringifyFailsOnDepth(v);
    if StreamedText(v) == CanonicalStringify(v) {
      TextInjective(Traversed(v), Canon(v));
      CanonTraversedAgrees(v);
    }
    if OrdersAgree(v) { TraversedIsCanon(v); }
  }

  // ----- Accepting a stored payload back.

  lemma {:induction false} TraversedObjectIsSame(es: seq<Entry>)
    requires DistinctKeys(es)
    requires forall i {:trigger Renders(es[i], TraversedEntries(es)[i])} | 0 <= i < |es| ::
               Renders(es[i], TraversedEntries(es)[i])
    ensures Valid(Traversed(Obj(es))) && SameUpToOrder(Obj(es), Traversed(Obj(es)))
  {
    UnitsLessIsStrictOrder();
    SortSorts(UnitsLess, TraversedEntries(es));
    SortedDistinct(UnitsLess, Sort(UnitsLess, TraversedEntries(es)));
    ReorderedMatches(es, TraversedEntries(es), Sort(UnitsLess, TraversedEntries(es)));
  }

  /** The writer writes the value it was given, up to key order. */
  lemma {:induction false} TraversedIsSame(v: Json)
    requires Valid(v)
    ensures Valid(Traversed(v)) && SameUpToOrder(v, Traversed(v))
  {
    match v {
      case Arr(items) =>
        forall i | 0 <= i < |items| ensures Valid(Traversed(items[i])) && SameUpToOrder(items[i], Traversed(items[i])) {
          TraversedIsSame(items[i]);
        }
      case Obj(es) =>
        forall i | 0 <= i < |es| ensures Renders(es[i], TraversedEntries(es)[i]) { TraversedIsSame(es[i].value); }
        TraversedObjectIsSame(es);
      case _ =>
    }
  }

  /** Recovery accepts a text that reads back, whole, to a value whose canonical text it is. */
  predicate Accepted(t: Units) {
    match ParseValue(t)
    case None => false
    case Some((v, rest)) => rest == [] && CanonicalStringify(v) == Ok(t)
  }

  /** So recovery accepts a payload that the writer stored if and only if the two orders agree inside it. */
  lemma {:induction false} StoredThenAccepted(v: Json)
    requires Valid(v) && WithinDepth(v, 0)
    ensures StreamedText(v).Ok?
    ensures Accepted(StreamedText(v).value) <==> OrdersAgree(v)
  {
    var written := Traversed(v);
    ParseText(written, []);
    assert Text(written) + [] == Text(written);
    TraversedIsSame(v);
    SameDepth(v, written, 0);
    SameThenCanonEqual(v, written);
    StringifyFailsOnDepth(v);
    StringifyFailsOnDepth(written);
    StreamedIsCanonical(v);
  }

  /** Keys that are no array indexes never disagree. */
  lemma {:induction false} PlainKeysAgree(es: seq<Entry>)
    requires forall e <- es :: IndexOf(e.key).None?
    ensures KeysAgree(es)
  {
    forall i, j | 0 <= i < |es| && 0 <= j < |es| && UnitsLess(es[i].key, es[j].key)
      ensures KeyLess(es[i].key, es[j].key)
    {
      assert es[i] in es && es[j] in es;
    }
  }

  /** The keys "10" and "9" disagree, so an object with both is stored but not accepted back. */
  lemma {:induction false} NumericKeysDisagree()
    ensures var v := Obj([Entry([0x31, 0x30], Null), Entry([0x39], Null)]);
            && Valid(v) && WithinDepth(v, 0)
            && StreamedText(v).Ok? && StreamedText(v) != CanonicalStringify(v) && !Accepted(StreamedText(v).value)
  {
    var ten, nine: Units := [0x31, 0x30], [0x39];
    var es := [Entry(ten, Null), Entry(nine, Null)];
    var v := Obj(es);
    assert ten[..1] == [0x31] && ten[..1][..0] == [] && nine[..0] == [];
    assert DigitsValue(ten[..1]) == 1 && DigitsValue(ten) == 10 && DigitsValue(nine) == 9;
    assert IndexOf(ten) == Some(10) && IndexOf(nine) == Some(9);
    assert UnitsLess(es[0].key, es[1].key) && !KeyLess(es[0].key, es[1].key);
    assert forall e <- es :: WithinDepth(e.value, 1);
    StreamedIsCanonical(v);
    StoredThenAccepted(v);
  }
}
