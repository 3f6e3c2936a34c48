/**
 * Canonical JSON (src/core/json.ts): object keys are sorted recursively, and the record that receives them enumerates
 * array indexes first. Numbers are integers.
 */
module CanonicalJson {
  import opened Wrappers
  import opened JsonKeys

  const MAX_JSON_DEPTH := 100

  /** The entries of an object in enumeration order. */
  datatype Json = Null | Bool(b: bool) | Num(n: int) | Str(s: Units) | Arr(items: seq<Json>) | Obj(entries: seq<Entry>)
  datatype Entry = Entry(key: Units, value: Json)

  // ----- Sorting entries by key.

  predicate DistinctKeys(es: seq<Entry>) { forall i, j | 0 <= i < j < |es| :: es[i].key != es[j].key }

  predicate StrictlySorted(less: (Units, Units) -> bool, es: seq<Entry>) {
    forall i, j | 0 <= i < j < |es| :: less(es[i].key, es[j].key)
  }

  ghost predicate StrictOrder(less: (Units, Units) -> bool) {
    && (forall a, b, c {:trigger less(a, b), less(b, c)} :: less(a, b) && less(b, c) ==> less(a, c))
    && (forall a, b {:trigger less(a, b)} :: (less(a, b) || a == b || less(b, a)) && !(less(a, b) && less(b, a)))
  }

  function Insert(less: (Units, Units) -> bool, es: seq<Entry>, e: Entry): (r: seq<Entry>)
    ensures forall x :: x in r <==> x in es || x == e
  {
    if es == [] || less(es[|es| - 1].key, e.key) then es + [e]
    else
      var front, last := es[..|es| - 1], es[|es| - 1];
      assert es == front + [last];
      Insert(less, front, e) + [last]
  }

  function Sort(less: (Units, Units) -> bool, es: seq<Entry>): (r: seq<Entry>)
    ensures forall x :: x in r <==> x in es
  {
    if es == [] then []
    else
      assert es == es[..|es| - 1] + [es[|es| - 1]];
      Insert(less, Sort(less, es[..|es| - 1]), es[|es| - 1])
  }

  lemma {:induction false} InsertSorts(less: (Units, Units) -> bool, es: seq<Entry>, e: Entry)
    requires StrictOrder(less) && StrictlySorted(less, es) && forall x <- es :: x.key != e.key
    ensures StrictlySorted(less, Insert(less, es, e))
  {
    if es != [] {
      var front, last := es[..|es| - 1], es[|es| - 1];
      if less(last.key, e.key) {
        forall i | 0 <= i < |es| ensures less(es[i].key, e.key) { if i < |es| - 1 { assert less(es[i].key, last.key); } }
      } else {
        assert last in es && (less(e.key, last.key) || less(last.key, e.key));
        InsertSorts(less, front, e);
        var r := Insert(less, front, e);
        forall i | 0 <= i < |r| ensures less(r[i].key, last.key) { assert r[i] in r; }
      }
    }
  }

  lemma {:induction false} SortSorts(less: (Units, Units) -> bool, es: seq<Entry>)
    requires StrictOrder(less) && DistinctKeys(es)
    ensures StrictlySorted(less, Sort(less, es))
  {
    if es != [] {
      var front := es[..|es| - 1];
      SortSorts(less, front);
      forall x | x in Sort(less, front) ensures x.key != es[|es| - 1].key { assert x in front; }
      InsertSorts(less, Sort(less, front), es[|es| - 1]);
    }
  }

  ghost predicate SameElements(a: seq<Entry>, b: seq<Entry>) { forall x :: x in a <==> x in b }

  lemma {:induction false} LastOnlyLast(less: (Units, Units) -> bool, es: seq<Entry>)
    requires StrictOrder(less) && StrictlySorted(less, es) && es != []
    ensures es[|es| - 1] !in es[..|es| - 1]
  {
    var last := es[|es| - 1];
    forall i | 0 <= i < |es| - 1 ensures es[i] != last {
      assert less(es[i].key, last.key) && (less(es[i].key, last.key) ==> !less(last.key, es[i].key));
    }
  }

  lemma {:induction false} HasFirst(es: seq<Entry>)
    ensures es == [] || es[0] in es
  {
  }

  /** A strictly sorted sequence is determined by its elements. */
  lemma {:induction false} SortedUnique(less: (Units, Units) -> bool, a: seq<Entry>, b: seq<Entry>)
    requires StrictOrder(less) && StrictlySorted(less, a) && StrictlySorted(less, b) && SameElements(a, b)
    ensures a == b
  {
    if a == [] || b == [] {
      HasFirst(a);
      HasFirst(b);
    } else {
      var x, y := a[|a| - 1], b[|b| - 1];
      assert x in b && y in a;
      assert x == y by {
        var i :| 0 <= i < |b| && b[i] == x;
        var j :| 0 <= j < |a| && a[j] == y;
      }
      var a', b' := a[..|a| - 1], b[..|b| - 1];
      assert a == a' + [x] && b == b' + [x];
      LastOnlyLast(less, a);
      LastOnlyLast(less, b);
      forall e ensures e in a' <==> e in b' { assert (e in a <==> e in a' || e == x) && (e in b <==> e in b' || e == x); }
      SortedUnique(less, a', b');
    }
  }

  lemma {:induction false} UnitsLessIsStrictOrder()
    ensures StrictOrder(UnitsLess)
  {
    forall a, b, c | UnitsLess(a, b) && UnitsLess(b, c) ensures UnitsLess(a, c) { UnitsLessTransitive(a, b, c); }
    forall a, b ensures (UnitsLess(a, b) || a == b || UnitsLess(b, a)) && !(UnitsLess(a, b) && UnitsLess(b, a)) {
      UnitsLessTotal(a, b);
    }
  }

  lemma {:induction false} KeyLessIsStrictOrder()
    ensures StrictOrder(KeyLess)
  {
    forall a, b, c | KeyLess(a, b) && KeyLess(b, c) ensures KeyLess(a, c) { KeyLessTransitive(a, b, c); }
    forall a, b ensures (KeyLess(a, b) || a == b || KeyLess(b, a)) && !(KeyLess(a, b) && KeyLess(b, a)) {
      KeyLessTotal(a, b);
    }
  }

  // ----- The enumeration order of a record filled in sorted order.

  function Indexes(es: seq<Entry>): (r: seq<Entry>)
    ensures forall x :: x in r <==> x in es && IndexOf(x.key).Some?
    ensures DistinctKeys(es) ==> DistinctKeys(r)
  {
    if es == [] then []
    else
      var front, last := es[..|es| - 1], es[|es| - 1];
      assert es == front + [last];
      if IndexOf(last.key).Some? then Indexes(front) + [last] else Indexes(front)
  }

  function Others(es: seq<Entry>): (r: seq<Entry>)
    ensures forall x :: x in r <==> x in es && IndexOf(x.key).None?
  {
    if es == [] then []
    else
      var front, last := es[..|es| - 1], es[|es| - 1];
      assert es == front + [last];
      if IndexOf(last.key).None? then Others(front) + [last] else Others(front)
  }

  /** Array indexes come first, by value; the other keys follow in insertion order. */
  function Enumerate(inserted: seq<Entry>): seq<Entry> { Sort(KeyLess, Indexes(inserted)) + Others(inserted) }

  function Ordered(es: seq<Entry>): seq<Entry> { Enumerate(Sort(UnitsLess, es)) }

  lemma {:induction false} OthersSorted(es: seq<Entry>)
    requires StrictlySorted(UnitsLess, es)
    ensures StrictlySorted(KeyLess, Others(es))
  {
    if es != [] {
      var front, last := es[..|es| - 1], es[|es| - 1];
      OthersSorted(front);
      var r := Others(front);
      forall i | 0 <= i < |r| && IndexOf(last.key).None? ensures KeyLess(r[i].key, last.key) {
        assert r[i] in r;
        assert r[i] in front;
      }
    }
  }

  /** Sorting into a record amounts to one total order on keys. */
  lemma {:induction false} OrderedSorts(es: seq<Entry>)
    requires DistinctKeys(es)
    ensures StrictlySorted(KeyLess, Ordered(es)) && SameElements(Ordered(es), es)
  {
    UnitsLessIsStrictOrder();
    KeyLessIsStrictOrder();
    var sorted := Sort(UnitsLess, es);
    SortSorts(UnitsLess, es);
    SortedDistinct(UnitsLess, sorted);
    SortSorts(KeyLess, Indexes(sorted));
    OthersSorted(sorted);
    var first, second := Sort(KeyLess, Indexes(sorted)), Others(sorted);
    forall i, j | 0 <= i < |first| && 0 <= j < |second| ensures KeyLess(first[i].key, second[j].key) {
      assert first[i] in first && second[j] in second;
    }
  }

  lemma {:induction false} SortedDistinct(less: (Units, Units) -> bool, es: seq<Entry>)
    requires StrictOrder(less) && StrictlySorted(less, es)
    ensures DistinctKeys(es)
  {
    forall i, j | 0 <= i < j < |es| ensures es[i].key != es[j].key { assert less(es[i].key, es[j].key); }
  }

  /** Only which entries there are decides the order. */
  lemma {:induction false} OrderedUnique(a: seq<Entry>, b: seq<Entry>)
    requires DistinctKeys(a) && DistinctKeys(b) && SameElements(a, b)
    ensures Ordered(a) == Ordered(b)
  {
    OrderedSorts(a);
    OrderedSorts(b);
    KeyLessIsStrictOrder();
    SortedUnique(KeyLess, Ordered(a), Ordered(b));
  }

  // ----- Canonical values.

  /** Objects have distinct keys at every level. */
  predicate Valid(v: Json) {
    match v
    case Arr(items) => forall i | 0 <= i < |items| :: Valid(items[i])
    case Obj(es) => DistinctKeys(es) && forall i | 0 <= i < |es| :: Valid(es[i].value)
    case _ => true
  }

  function Canon(v: Json): Json
    decreases v
  {
    match v
    case Arr(items) => Arr(CanonItems(items))
    case Obj(es) => Obj(Ordered(CanonEntries(es)))
    case _ => v
  }

  function CanonItems(items: seq<Json>): (r: seq<Json>)
    ensures |r| == |items| && forall i | 0 <= i < |items| :: r[i] == Canon(items[i])
    decreases items
  {
    seq(|items|, i requires 0 <= i < |items| => Canon(items[i]))
  }

  /** An object's entries with canonical values, before they are ordered. */
  function CanonEntries(es: seq<Entry>): (r: seq<Entry>)
    ensures |r| == |es| && forall i | 0 <= i < |es| :: r[i] == Entry(es[i].key, Canon(es[i].value))
    decreases es
  {
    seq(|es|, i requires 0 <= i < |es| => Entry(es[i].key, Canon(es[i].value)))
  }

  lemma {:induction false} CanonEntriesDistinct(es: seq<Entry>)
    requires DistinctKeys(es)
    ensures DistinctKeys(CanonEntries(es))
  {
  }

  /** The same value, up to the order of keys in every object. */
  predicate SameUpToOrder(a: Json, b: Json)
    decreases a, 0
  {
    match (a, b)
    case (Arr(xs), Arr(ys)) => |xs| == |ys| && forall i | 0 <= i < |xs| :: SameUpToOrder(xs[i], ys[i])
    case (Obj(es), Obj(fs)) =>
      && (forall i {:trigger MatchedBySome(es[i], fs)} | 0 <= i < |es| :: MatchedBySome(es[i], fs))
      && (forall j {:trigger MatchesSome(es, fs[j])} | 0 <= j < |fs| :: MatchesSome(es, fs[j]))
    case _ => a == b
  }

  predicate Matches(e: Entry, f: Entry)
    decreases e, 0
  {
    e.key == f.key && SameUpToOrder(e.value, f.value)
  }

  predicate MatchedBySome(e: Entry, fs: seq<Entry>)
    decreases e, 1
  {
    exists j {:trigger Matches(e, fs[j])} | 0 <= j < |fs| :: Matches(e, fs[j])
  }

  predicate MatchesSome(es: seq<Entry>, f: Entry)
    decreases es, 1
  {
    exists i {:trigger Matches(es[i], f)} | 0 <= i < |es| :: Matches(es[i], f)
  }

  lemma {:induction false} SameThenCanonEqual(a: Json, b: Json)
    requires Valid(a) && Valid(b) && SameUpToOrder(a, b)
    ensures Canon(a) == Canon(b)
    decreases a
  {
    match (a, b) {
      case (Arr(xs), Arr(ys)) =>
        forall i | 0 <= i < |xs| ensures Canon(xs[i]) == Canon(ys[i]) { SameThenCanonEqual(xs[i], ys[i]); }
      case (Obj(es), Obj(fs)) =>
        forall i, j {:trigger Matches(es[i], fs[j])} | 0 <= i < |es| && 0 <= j < |fs| && Matches(es[i], fs[j])
          ensures CanonMatches(es[i], fs[j])
        {
          SameThenCanonEqual(es[i].value, fs[j].value);
        }
        forall i | 0 <= i < |es| ensures CanonMatchedBySome(es[i], fs) {
          assert MatchedBySome(es[i], fs);
          var j :| 0 <= j < |fs| && Matches(es[i], fs[j]);
          assert CanonMatches(es[i], fs[j]);
        }
        forall j | 0 <= j < |fs| ensures CanonMatchesSome(es, fs[j]) {
          assert MatchesSome(es, fs[j]);
          var i :| 0 <= i < |es| && Matches(es[i], fs[j]);
          assert CanonMatches(es[i], fs[j]);
        }
        MatchingObjects(es, fs);
      case _ =>
    }
  }

  predicate CanonMatches(e: Entry, f: Entry) { e.key == f.key && Canon(e.value) == Canon(f.value) }

  predicate CanonMatchedBySome(e: Entry, fs: seq<Entry>) {
    exists j {:trigger CanonMatches(e, fs[j])} | 0 <= j < |fs| :: CanonMatches(e, fs[j])
  }

  predicate CanonMatchesSome(es: seq<Entry>, f: Entry) {
    exists i {:trigger CanonMatches(es[i], f)} | 0 <= i < |es| :: CanonMatches(es[i], f)
  }

  /** One inclusion: every canonical entry of an object whose entries are matched occurs in the other object. */
  lemma {:induction false} MatchedEntriesOccur(es: seq<Entry>, fs: seq<Entry>, e: Entry)
    requires forall i {:trigger CanonMatchedBySome(es[i], fs)} | 0 <= i < |es| :: CanonMatchedBySome(es[i], fs)
    requires e in CanonEntries(es)
    ensures e in CanonEntries(fs)
  {
    var i :| 0 <= i < |es| && CanonEntries(es)[i] == e;
    assert CanonMatchedBySome(es[i], fs);
    var j :| 0 <= j < |fs| && CanonMatches(es[i], fs[j]);
    assert CanonEntries(fs)[j] == e;
  }

  lemma {:induction false} MatchingEntriesOccur(es: seq<Entry>, fs: seq<Entry>, e: Entry)
    requires forall j {:trigger CanonMatchesSome(es, fs[j])} | 0 <= j < |fs| :: CanonMatchesSome(es, fs[j])
    requires e in CanonEntries(fs)
    ensures e in CanonEntries(es)
  {
    var j :| 0 <= j < |fs| && CanonEntries(fs)[j] == e;
    assert CanonMatchesSome(es, fs[j]);
    var i :| 0 <= i < |es| && CanonMatches(es[i], fs[j]);
    assert CanonEntries(es)[i] == e;
  }

  /** Objects whose entries match canonically have the same canonical entries, and so the same canonical order. */
  lemma {:induction false} MatchingObjects(es: seq<Entry>, fs: seq<Entry>)
    requires DistinctKeys(es) && DistinctKeys(fs)
    requires forall i {:trigger CanonMatchedBySome(es[i], fs)} | 0 <= i < |es| :: CanonMatchedBySome(es[i], fs)
    requires forall j {:trigger CanonMatchesSome(es, fs[j])} | 0 <= j < |fs| :: CanonMatchesSome(es, fs[j])
    ensures Canon(Obj(es)) == Canon(Obj(fs))
  {
    var x, y := CanonEntries(es), CanonEntries(fs);
    forall e ensures e in x <==> e in y {
      if e in x { MatchedEntriesOccur(es, fs, e); }
      if e in y { MatchingEntriesOccur(es, fs, e); }
    }
    CanonEntriesDistinct(es);
    CanonEntriesDistinct(fs);
    OrderedUnique(x, y);
  }

  lemma {:induction false} CanonEqualThenSame(a: Json, b: Json)
    requires Valid(a) && Valid(b) && Canon(a) == Canon(b)
    ensures SameUpToOrder(a, b)
    decreases a
  {
    match (a, b) {
      case (Arr(xs), Arr(ys)) =>
        forall i | 0 <= i < |xs| ensures SameUpToOrder(xs[i], ys[i]) {
          assert Canon(a).items[i] == Canon(b).items[i];
          CanonEqualThenSame(xs[i], ys[i]);
        }
      case (Obj(es), Obj(fs)) =>
        CanonicallyMatched(es, fs);
        forall i, j {:trigger CanonMatches(es[i], fs[j])} | 0 <= i < |es| && 0 <= j < |fs| && CanonMatches(es[i], fs[j])
          ensures Matches(es[i], fs[j])
        {
          CanonEqualThenSame(es[i].value, fs[j].value);
        }
        forall i | 0 <= i < |es| ensures MatchedBySome(es[i], fs) {
          assert CanonMatchedBySome(es[i], fs);
          var j :| 0 <= j < |fs| && CanonMatches(es[i], fs[j]);
          assert Matches(es[i], fs[j]);
        }
        forall j | 0 <= j < |fs| ensures MatchesSome(es, fs[j]) {
          assert CanonMatchesSome(es, fs[j]);
          var i :| 0 <= i < |es| && CanonMatches(es[i], fs[j]);
          assert Matches(es[i], fs[j]);
        }
      case _ =>
    }
  }

  lemma {:induction false} CanonicallyMatched(es: seq<Entry>, fs: seq<Entry>)
    requires DistinctKeys(es) && DistinctKeys(fs) && Canon(Obj(es)) == Canon(Obj(fs))
    ensures forall i {:trigger CanonMatchedBySome(es[i], fs)} | 0 <= i < |es| :: CanonMatchedBySome(es[i], fs)
    ensures forall j {:trigger CanonMatchesSome(es, fs[j])} | 0 <= j < |fs| :: CanonMatchesSome(es, fs[j])
  {
    var x, y := CanonEntries(es), CanonEntries(fs);
    CanonEntriesDistinct(es);
    CanonEntriesDistinct(fs);
    OrderedSorts(x);
    OrderedSorts(y);
    forall i | 0 <= i < |es| ensures CanonMatchedBySome(es[i], fs) {
      assert x[i] in y;
      var j :| 0 <= j < |fs| && y[j] == x[i];
      assert CanonMatches(es[i], fs[j]);
    }
    forall j | 0 <= j < |fs| ensures CanonMatchesSome(es, fs[j]) {
      assert y[j] in x;
      var i :| 0 <= i < |es| && x[i] == y[j];
      assert CanonMatches(es[i], fs[j]);
    }
  }

  // ----- Canonical values are canonical.

  /** An entry and its rendering: a valid value that is the same up to key order. */
  predicate Renders(e: Entry, f: Entry) { Valid(f.value) && Matches(e, f) }

  lemma {:induction false} CanonIsSame(v: Json)
    requires Valid(v)
    ensures Valid(Canon(v)) && SameUpToOrder(v, Canon(v))
  {
    match v {
      case Arr(items) =>
        forall i | 0 <= i < |items| ensures Valid(Canon(items[i])) && SameUpToOrder(items[i], Canon(items[i])) {
          CanonIsSame(items[i]);
        }
      case Obj(es) =>
        forall i | 0 <= i < |es| ensures Renders(es[i], CanonEntries(es)[i]) { CanonIsSame(es[i].value); }
        OrderedMatches(es);
      case _ =>
    }
  }

  lemma {:induction false} OrderedEntries(es: seq<Entry>)
    requires DistinctKeys(es)
    ensures DistinctKeys(Ordered(CanonEntries(es))) && SameElements(Ordered(CanonEntries(es)), CanonEntries(es))
  {
    CanonEntriesDistinct(es);
    OrderedSorts(CanonEntries(es));
    KeyLessIsStrictOrder();
    SortedDistinct(KeyLess, Ordered(CanonEntries(es)));
  }

  lemma {:induction false} ReorderedFrom(es: seq<Entry>, rendered: seq<Entry>, f: Entry)
    requires |rendered| == |es| && f in rendered
    requires forall i {:trigger Renders(es[i], rendered[i])} | 0 <= i < |es| :: Renders(es[i], rendered[i])
    ensures Valid(f.value) && MatchesSome(es, f)
  {
    var i :| 0 <= i < |rendered| && rendered[i] == f;
    assert Renders(es[i], rendered[i]);
  }

  lemma {:induction false} ReorderedTo(e: Entry, rendered: Entry, fs: seq<Entry>)
    requires Renders(e, rendered) && rendered in fs
    ensures MatchedBySome(e, fs)
  {
    var j :| 0 <= j < |fs| && fs[j] == rendered;
    assert Matches(e, fs[j]);
  }

  /** Rendering every entry of an object and reordering them gives the same object up to key order. */
  lemma {:induction false} ReorderedMatches(es: seq<Entry>, rendered: seq<Entry>, fs: seq<Entry>)
    requires |rendered| == |es| && DistinctKeys(fs) && SameElements(fs, rendered)
    requires forall i {:trigger Renders(es[i], rendered[i])} | 0 <= i < |es| :: Renders(es[i], rendered[i])
    ensures Valid(Obj(fs)) && SameUpToOrder(Obj(es), Obj(fs))
  {
    forall j | 0 <= j < |fs| ensures Valid(fs[j].value) && MatchesSome(es, fs[j]) {
      assert fs[j] in fs;
      ReorderedFrom(es, rendered, fs[j]);
    }
    forall i | 0 <= i < |es| ensures MatchedBySome(es[i], fs) {
      assert Renders(es[i], rendered[i]) && rendered[i] in rendered;
      ReorderedTo(es[i], rendered[i], fs);
    }
  }

  lemma {:induction false} OrderedMatches(es: seq<Entry>)
    requires DistinctKeys(es)
    requires forall i {:trigger Renders(es[i], CanonEntries(es)[i])} | 0 <= i < |es| :: Renders(es[i], CanonEntries(es)[i])
    ensures Valid(Canon(Obj(es))) && SameUpToOrder(Obj(es), Canon(Obj(es)))
  {
    OrderedEntries(es);
    ReorderedMatches(es, CanonEntries(es), Ordered(CanonEntries(es)));
  }

  /** Canonicalizing twice changes nothing. */
  lemma {:induction false} CanonIdempotent(v: Json)
    requires Valid(v)
    ensures Canon(Canon(v)) == Canon(v)
  {
    CanonIsSame(v);
    SameThenCanonEqual(v, Canon(v));
  }

  // ----- Canonicalizing with its depth bound.

  datatype JsonError = DepthExceeded

  /** No value is nested deeper than the maximum, counting from `depth`. */
  predicate WithinDepth(v: Json, depth: nat) {
    && depth <= MAX_JSON_DEPTH
    && match v
       case Arr(items) => forall x <- items :: WithinDepth(x, depth + 1)
       case Obj(es) => forall e <- es :: WithinDepth(e.value, depth + 1)
       case _ => true
  }

  /** Reordering keys does not change how deep a value is nested. */
  lemma {:induction false} SameDepth(a: Json, b: Json, depth: nat)
    requires SameUpToOrder(a, b)
    ensures WithinDepth(a, depth) <==> WithinDepth(b, depth)
    decreases a
  {
    match (a, b) {
      case (Arr(xs), Arr(ys)) =>
        forall i | 0 <= i < |xs| ensures WithinDepth(xs[i], depth + 1) <==> WithinDepth(ys[i], depth + 1) {
          SameDepth(xs[i], ys[i], depth + 1);
        }
        ItemsDepth(xs, ys, depth + 1);
        ItemsDepth(ys, xs, depth + 1);
      case (Obj(es), Obj(fs)) =>
        forall i, j {:trigger Matches(es[i], fs[j])} | 0 <= i < |es| && 0 <= j < |fs| && Matches(es[i], fs[j])
          ensures WithinDepth(es[i].value, depth + 1) <==> WithinDepth(fs[j].value, depth + 1)
        {
          SameDepth(es[i].value, fs[j].value, depth + 1);
        }
        MatchedDepth(es, fs, depth + 1);
      case _ =>
    }
  }

  lemma {:induction false} ItemsDepth(xs: seq<Json>, ys: seq<Json>, depth: nat)
    requires |xs| == |ys| && forall i | 0 <= i < |xs| :: WithinDepth(xs[i], depth) ==> WithinDepth(ys[i], depth)
    ensures AllItemsWithin(xs, depth) ==> AllItemsWithin(ys, depth)
  {
    forall y | y in ys && AllItemsWithin(xs, depth) ensures WithinDepth(y, depth) {
      var i :| 0 <= i < |ys| && ys[i] == y;
      assert xs[i] in xs;
    }
  }

  lemma {:induction false} MatchedDepth(es: seq<Entry>, fs: seq<Entry>, depth: nat)
    requires SameUpToOrder(Obj(es), Obj(fs))
    requires forall i, j {:trigger Matches(es[i], fs[j])} | 0 <= i < |es| && 0 <= j < |fs| && Matches(es[i], fs[j]) ::
               WithinDepth(es[i].value, depth) <==> WithinDepth(fs[j].value, depth)
    ensures AllWithin(es, depth) <==> AllWithin(fs, depth)
  {
    if AllWithin(es, depth) {
      forall f | f in fs ensures WithinDepth(f.value, depth) {
        var j :| 0 <= j < |fs| && fs[j] == f;
        assert MatchesSome(es, fs[j]);
        var i :| 0 <= i < |es| && Matches(es[i], fs[j]);
        assert es[i] in es;
      }
    }
    if AllWithin(fs, depth) {
      forall e | e in es ensures WithinDepth(e.value, depth) {
        var i :| 0 <= i < |es| && es[i] == e;
        assert MatchedBySome(es[i], fs);
        var j :| 0 <= j < |fs| && Matches(es[i], fs[j]);
        assert fs[j] in fs;
      }
    }
  }

  /** The program's recursion: an object's values are visited in sorted key order and put into a record. */
  function CanonicalizeAt(v: Json, depth: nat): Result<Json, JsonError>
    decreases MAX_JSON_DEPTH + 2 - depth, 0
  {
    if depth > MAX_JSON_DEPTH then Err(DepthExceeded)
    else
      match v
      case Arr(items) =>
        var canonical :- CanonicalizeItems(items, depth + 1);
        Ok(Arr(canonical))
      case Obj(es) =>
        var canonical :- CanonicalizeEntries(Sort(UnitsLess, es), depth + 1);
        Ok(Obj(Enumerate(canonical)))
      case _ => Ok(v)
  }

  function CanonicalizeItems(items: seq<Json>, depth: nat): Result<seq<Json>, JsonError>
    decreases MAX_JSON_DEPTH + 2 - depth, |items| + 1
  {
    if items == [] then Ok([])
    else
      var front :- CanonicalizeItems(items[..|items| - 1], depth);
      var last :- CanonicalizeAt(items[|items| - 1], depth);
      Ok(front + [last])
  }

  function CanonicalizeEntries(es: seq<Entry>, depth: nat): Result<seq<Entry>, JsonError>
    decreases MAX_JSON_DEPTH + 2 - depth, |es| + 1
  {
    if es == [] then Ok([])
    else
      var front :- CanonicalizeEntries(es[..|es| - 1], depth);
      var last :- CanonicalizeAt(es[|es| - 1].value, depth);
      Ok(front + [Entry(es[|es| - 1].key, last)])
  }

  ghost predicate CanonicalizedAs(v: Json, depth: nat) {
    CanonicalizeAt(v, depth) == if WithinDepth(v, depth) then Ok(Canon(v)) else Err(DepthExceeded)
  }

  predicate AllWithin(es: seq<Entry>, depth: nat) { forall e <- es :: WithinDepth(e.value, depth) }

  predicate AllItemsWithin(items: seq<Json>, depth: nat) { forall x <- items :: WithinDepth(x, depth) }

  lemma {:induction false} CanonItemsAppend(front: seq<Json>, last: Json)
    ensures CanonItems(front + [last]) == CanonItems(front) + [Canon(last)]
  {
  }

  lemma {:induction false} ItemsCanonicalized(items: seq<Json>, depth: nat)
    requires forall x {:trigger CanonicalizedAs(x, depth)} | x in items :: CanonicalizedAs(x, depth)
    ensures CanonicalizeItems(items, depth) ==
            if AllItemsWithin(items, depth) then Ok(CanonItems(items)) else Err(DepthExceeded)
  {
    if items != [] {
      var front, last := items[..|items| - 1], items[|items| - 1];
      ItemsCanonicalized(front, depth);
      assert items == front + [last];
      assert CanonicalizedAs(last, depth);
      assert AllItemsWithin(items, depth) <==> AllItemsWithin(front, depth) && WithinDepth(last, depth);
      CanonItemsAppend(front, last);
    } else {
      assert CanonItems(items) == [];
    }
  }

  lemma {:induction false} CanonEntriesAppend(front: seq<Entry>, last: Entry)
    ensures CanonEntries(front + [last]) == CanonEntries(front) + [Entry(last.key, Canon(last.value))]
  {
  }

  lemma {:induction false} EntriesCanonicalized(es: seq<Entry>, depth: nat)
    requires forall e {:trigger CanonicalizedAs(e.value, depth)} | e in es :: CanonicalizedAs(e.value, depth)
    ensures CanonicalizeEntries(es, depth) ==
            if AllWithin(es, depth) then Ok(CanonEntries(es)) else Err(DepthExceeded)
  {
    if es != [] {
      var front, last := es[..|es| - 1], es[|es| - 1];
      EntriesCanonicalized(front, depth);
      assert es == front + [last];
      assert CanonicalizedAs(last.value, depth);
      assert AllWithin(es, depth) <==> AllWithin(front, depth) && WithinDepth(last.value, depth);
      CanonEntriesAppend(front, last);
    } else {
      assert CanonEntries(es) == [];
    }
  }

  lemma {:induction false} InCanonEntries(es: seq<Entry>, e: Entry)
    ensures e in CanonEntries(es) <==> exists x <- es :: e == Entry(x.key, Canon(x.value))
  {
    if e in CanonEntries(es) {
      var i :| 0 <= i < |es| && CanonEntries(es)[i] == e;
      assert es[i] in es;
    }
    if x :| x in es && e == Entry(x.key, Canon(x.value)) {
      var i :| 0 <= i < |es| && es[i] == x;
      assert CanonEntries(es)[i] == e;
    }
  }

  /** Canonicalizing sorted entries or sorting canonical entries is the same. */
  lemma {:induction false} SortThenCanon(es: seq<Entry>)
    requires DistinctKeys(es)
    ensures CanonEntries(Sort(UnitsLess, es)) == Sort(UnitsLess, CanonEntries(es))
  {
    var sorted, x := Sort(UnitsLess, es), CanonEntries(es);
    UnitsLessIsStrictOrder();
    SortSorts(UnitsLess, es);
    SortedDistinct(UnitsLess, sorted);
    CanonEntriesDistinct(es);
    SortSorts(UnitsLess, x);
    var a, b := CanonEntries(sorted), Sort(UnitsLess, x);
    forall e ensures e in a <==> e in b {
      InCanonEntries(sorted, e);
      InCanonEntries(es, e);
    }
    SortedUnique(UnitsLess, a, b);
  }

  lemma {:induction false} ObjectCanonicalized(es: seq<Entry>, depth: nat)
    requires DistinctKeys(es) && depth <= MAX_JSON_DEPTH
    requires forall e {:trigger CanonicalizedAs(e.value, depth + 1)} | e in es :: CanonicalizedAs(e.value, depth + 1)
    ensures CanonicalizedAs(Obj(es), depth)
  {
    var sorted := Sort(UnitsLess, es);
    EntriesCanonicalized(sorted, depth + 1);
    SortThenCanon(es);
    assert Canon(Obj(es)) == Obj(Ordered(CanonEntries(es)));
    assert AllWithin(sorted, depth + 1) <==> AllWithin(es, depth + 1);
  }

  lemma {:induction false} ArrayCanonicalized(items: seq<Json>, depth: nat)
    requires depth <= MAX_JSON_DEPTH
    requires forall x {:trigger CanonicalizedAs(x, depth + 1)} | x in items :: CanonicalizedAs(x, depth + 1)
    ensures CanonicalizedAs(Arr(items), depth)
  {
    ItemsCanonicalized(items, depth + 1);
  }

  /** Canonicalizing fails exactly on values nested too deeply, and otherwise yields the canonical value. */
  lemma {:induction false} CanonicalizeIsCanon(v: Json, depth: nat)
    requires Valid(v)
    ensures CanonicalizedAs(v, depth)
    decreases v
  {
    if depth <= MAX_JSON_DEPTH {
      if v.Arr? {
        forall x | x in v.items ensures CanonicalizedAs(x, depth + 1) {
          ItemValid(v.items, x);
          CanonicalizeIsCanon(x, depth + 1);
        }
        ArrayCanonicalized(v.items, depth);
      } else if v.Obj? {
        forall e | e in v.entries ensures CanonicalizedAs(e.value, depth + 1) {
          EntryValid(v.entries, e);
          CanonicalizeIsCanon(e.value, depth + 1);
        }
        ObjectCanonicalized(v.entries, depth);
      }
    }
  }

  lemma {:induction false} ItemValid(items: seq<Json>, x: Json)
    requires Valid(Arr(items)) && x in items
    ensures Valid(x)
  {
  }

  lemma {:induction false} EntryValid(es: seq<Entry>, e: Entry)
    requires Valid(Obj(es)) && e in es
    ensures Valid(e.value)
  {
  }
}
