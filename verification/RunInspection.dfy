/**
 * Paged inspection of a run whose journal keeps growing (src/runtime/run-inspection.ts).
 *
 * Events, items, the projection between them and the size of a page without its own size field are arbitrary; a digest
 * of a journal prefix is injective, so a cursor carries the prefix itself.
 */
module RunInspection {
  import opened Wrappers
  import opened Decimals

  const MAX_PAGE_BYTES := 256 * 1024

  // ----- A page that states its own size.

  function Digits(n: nat): nat { |Decimal(n)| }

  function Pow10(k: nat): (p: nat)
    ensures k < p
  {
    if k == 0 then 1 else 10 * Pow10(k - 1)
  }

  lemma {:induction false} DigitsBound(n: nat)
    ensures n < Pow10(Digits(n)) && (n > 0 ==> Pow10(Digits(n) - 1) <= n)
  {
    if n >= 10 { DigitsBound(n / 10); }
  }

  lemma {:induction false} Pow10Grows(a: nat, b: nat)
    requires a <= b
    ensures Pow10(a) <= Pow10(b)
  {
    if a < b { Pow10Grows(a, b - 1); }
  }

  lemma DigitsGrow(m: nat, n: nat)
    requires m <= n
    ensures Digits(m) <= Digits(n)
  {
    DigitsBound(m);
    DigitsBound(n);
    if Digits(n) < Digits(m) && m > 0 { Pow10Grows(Digits(n), Digits(m) - 1); }
  }

  /** Adding no more than its number of digits lengthens a number by at most one digit. */
  lemma DigitsAfter(n: nat, step: nat)
    requires n > 0 && step <= Digits(n)
    ensures Digits(n) <= Digits(n + step) <= Digits(n) + 1
  {
    DigitsGrow(n, n + step);
    DigitsBound(n);
    DigitsBound(n + step);
    if Digits(n + step) > Digits(n) + 1 { Pow10Grows(Digits(n) + 1, Digits(n + step) - 1); }
  }

  predicate StatesItself(base: nat, n: nat) { n == base + Digits(n) }

  /**
   * Writing the size into the page changes its size; four attempts always reach a size that states itself, and it is
   * the least one.
   */
  method MeasuredPage(base: nat) returns (serializedBytes: nat)
    ensures StatesItself(base, serializedBytes)
    ensures forall n: nat | StatesItself(base, n) :: serializedBytes <= n
  {
    serializedBytes := 0;
    ghost var first, second := base + 1, base + Digits(base + 1);
    DigitsAfter(first, Digits(first) - 1);
    DigitsAfter(first, Digits(first));
    if second <= base + Digits(second) { DigitsGrow(second, base + Digits(second)); }
    for attempt := 0 to 4
      invariant attempt == 0 ==> serializedBytes == 0
      invariant attempt == 1 ==> serializedBytes == first
      invariant attempt == 2 ==> serializedBytes == second
      invariant attempt == 3 ==> serializedBytes == base + Digits(second) && second < serializedBytes
      invariant attempt < 4
      invariant forall n: nat | StatesItself(base, n) :: serializedBytes <= n
    {
      var next := base + Digits(serializedBytes);
      if next == serializedBytes { return; }
      forall n: nat | StatesItself(base, n) ensures next <= n { DigitsGrow(serializedBytes, n); }
      serializedBytes := next;
    }
  }

  // ----- Pages of a snapshot.

  /** Where the next page starts, and in which journal prefix. */
  datatype Cursor<E> = Cursor(prefix: seq<E>, offset: nat)

  datatype Page<E, I> = Page(items: seq<I>, next: Option<Cursor<E>>)

  datatype InspectionError = InvalidCursor | LimitExceeded

  /** The projection of events to items, and the size of a page in bytes. */
  datatype View<!E, !I> = View(project: seq<E> -> seq<I>, pageBytes: Page<E, I> -> nat)

  function PageOf<E, I>(prefix: seq<E>, items: seq<I>, offset: nat, count: nat): Page<E, I>
    requires offset + count <= |items|
  {
    Page(items[offset..offset + count],
         if offset + count < |items| then Some(Cursor(prefix, offset + count)) else None)
  }

  /** A page together with its own size field stays within the limit. */
  predicate Fits<E, I>(view: View<E, I>, page: Page<E, I>) {
    exists n | 0 <= n <= MAX_PAGE_BYTES :: StatesItself(view.pageBytes(page), n)
  }

  /** The most items, up to `count`, that fit on one page. */
  function LargestFit<E, I>(view: View<E, I>, prefix: seq<E>, items: seq<I>, offset: nat, count: nat): (r: Option<nat>)
    requires offset + count <= |items|
    ensures r.Some? ==> 1 <= r.value <= count && Fits(view, PageOf(prefix, items, offset, r.value))
    ensures forall c | (if r.Some? then r.value else 0) < c <= count :: !Fits(view, PageOf(prefix, items, offset, c))
  {
    if count == 0 then None
    else if Fits(view, PageOf(prefix, items, offset, count)) then Some(count)
    else LargestFit(view, prefix, items, offset, count - 1)
  }

  function PageAt<E, I>(view: View<E, I>, prefix: seq<E>, offset: nat, pageSize: nat): Result<Page<E, I>, InspectionError> {
    var items := view.project(prefix);
    if items == [] then
      if Fits(view, PageOf(prefix, items, 0, 0)) then Ok(PageOf(prefix, items, 0, 0)) else Err(LimitExceeded)
    else if offset >= |items| then Err(InvalidCursor)
    else
      match LargestFit(view, prefix, items, offset, if pageSize < |items| - offset then pageSize else |items| - offset)
      case None => Err(LimitExceeded)
      case Some(count) => Ok(PageOf(prefix, items, offset, count))
  }

  /** A cursor is honoured as long as the journal still begins with its prefix, however much was appended since. */
  predicate Honoured<E(==)>(journal: seq<E>, cursor: Cursor<E>) {
    |cursor.prefix| <= |journal| && journal[..|cursor.prefix|] == cursor.prefix
  }

  /**
   * One page request: of the journal as it stands, or of the prefix that the cursor names. The page holds as many items
   * as the page size and the byte limit allow, trying fewer and fewer.
   */
  method InspectPage<E(==), I(==)>(view: View<E, I>, journal: seq<E>, cursor: Option<Cursor<E>>, pageSize: nat)
    returns (r: Result<Page<E, I>, InspectionError>)
    ensures cursor.None? ==> r == PageAt(view, journal, 0, pageSize)
    ensures cursor.Some? && !Honoured(journal, cursor.value) ==> r == Err(InvalidCursor)
    ensures cursor.Some? && Honoured(journal, cursor.value) ==>
              r == PageAt(view, cursor.value.prefix, cursor.value.offset, pageSize)
  {
    var prefix, offset := journal, 0;
    if cursor.Some? {
      if !Honoured(journal, cursor.value) { return Err(InvalidCursor); }
      prefix, offset := cursor.value.prefix, cursor.value.offset;
    }
    var items := view.project(prefix);
    if offset >= |items| && |items| > 0 { return Err(InvalidCursor); }
    if items == [] { offset := 0; }
    var count := if pageSize < |items| - offset then pageSize else |items| - offset;
    ghost var most := count;
    while count > 0 || items == []
      invariant 0 <= count <= most && (items == [] ==> count == 0)
      invariant items != [] ==>
                  LargestFit(view, prefix, items, offset, most) == LargestFit(view, prefix, items, offset, count)
      decreases count
    {
      var page := PageOf(prefix, items, offset, count);
      var serializedBytes := MeasuredPage(view.pageBytes(page));
      if serializedBytes <= MAX_PAGE_BYTES { return Ok(page); }
      assert !Fits(view, page);
      if count == 0 { break; }
      count := count - 1;
    }
    return Err(LimitExceeded);
  }

  /** Every single item fits on a page of its own, and so does the page without items. */
  predicate EveryItemFits<E, I>(view: View<E, I>, prefix: seq<E>) {
    var items := view.project(prefix);
    && (forall offset | 0 <= offset < |items| :: Fits(view, PageOf(prefix, items, offset, 1)))
    && (items == [] ==> Fits(view, PageOf(prefix, items, 0, 0)))
  }

  lemma PageMakesProgress<E, I>(view: View<E, I>, prefix: seq<E>, offset: nat, pageSize: nat)
    requires EveryItemFits(view, prefix) && pageSize >= 1
    requires offset < |view.project(prefix)| || (offset == 0 && view.project(prefix) == [])
    ensures var r := PageAt(view, prefix, offset, pageSize);
            var items := view.project(prefix);
            && r.Ok?
            && exists next | offset <= next <= |items| ::
                 && r.value.items == items[offset..next]
                 && (items != [] ==> offset < next)
                 && r.value.next == (if next < |items| then Some(Cursor(prefix, next)) else None)
  {
    var items := view.project(prefix);
    if items == [] {
      assert items[0..0] == [];
    } else {
      var most := if pageSize < |items| - offset then pageSize else |items| - offset;
      var fit := LargestFit(view, prefix, items, offset, most);
      assert Fits(view, PageOf(prefix, items, offset, 1));
      assert fit.Some?;
      assert offset <= offset + fit.value <= |items|;
    }
  }

  /**
   * Following the cursors from the first page ends, and the pages together are exactly the items of the first snapshot,
   * however the journal grows between two requests and whatever page size each request names.
   */
  method FollowCursors<E(==), I(==)>(view: View<E, I>, journals: nat -> seq<E>, pageSizes: nat -> nat)
    returns (all: seq<I>)
    requires forall k :: pageSizes(k) >= 1 && Honoured(journals(k), Cursor(journals(0), 0))
    requires EveryItemFits(view, journals(0))
    ensures all == view.project(journals(0))
  {
    ghost var first := journals(0);
    ghost var items := view.project(first);
    all := [];
    var cursor: Option<Cursor<E>> := None;
    var k := 0;
    while true
      invariant |all| <= |items| && all == items[..|all|]
      invariant cursor.None? ==> k == 0 && all == []
      invariant cursor.Some? ==> cursor.value == Cursor(first, |all|) && |all| < |items|
      decreases |items| - |all|
    {
      PageMakesProgress(view, first, |all|, pageSizes(k));
      assert Honoured(journals(k), Cursor(journals(0), 0));
      var page := InspectPage(view, journals(k), cursor, pageSizes(k));
      all := all + page.value.items;
      if page.value.next.None? { return; }
      cursor, k := page.value.next, k + 1;
    }
  }
}
