/** The orders in which JavaScript sorts and enumerates the keys of an object (src/core/json.ts). */
module JsonKeys {
  import opened Wrappers

  /** A string is a sequence of UTF-16 code units. */
  type Unit = u: int | 0 <= u < 0x1_0000
  type Units = seq<Unit>

  // ----- Code unit order: what `sort` uses.

  predicate UnitsLess(a: Units, b: Units) {
    b != [] && (a == [] || a[0] < b[0] || (a[0] == b[0] && UnitsLess(a[1..], b[1..])))
  }

  lemma {:induction false} UnitsLessTransitive(a: Units, b: Units, c: Units)
    requires UnitsLess(a, b) && UnitsLess(b, c)
    ensures UnitsLess(a, c)
  {
    if a != [] && a[0] == b[0] && b[0] == c[0] { UnitsLessTransitive(a[1..], b[1..], c[1..]); }
  }

  lemma {:induction false} UnitsLessTotal(a: Units, b: Units)
    ensures UnitsLess(a, b) || a == b || UnitsLess(b, a)
    ensures !(UnitsLess(a, b) && UnitsLess(b, a)) && !UnitsLess(a, a)
  {
    if a != [] { UnitsLessIrreflexive(a); }
    if a != [] && b != [] {
      UnitsLessTotal(a[1..], b[1..]);
      if a[0] == b[0] && a[1..] == b[1..] { assert a == [a[0]] + a[1..] && b == [b[0]] + b[1..]; }
    }
  }

  lemma {:induction false} UnitsLessIrreflexive(a: Units)
    ensures !UnitsLess(a, a)
  {
    if a != [] { UnitsLessIrreflexive(a[1..]); }
  }

  // ----- Enumeration order: array indexes first.

  const MAX_INDEX := 0xFFFF_FFFE

  predicate IsDigitUnit(u: Unit) { 0x30 <= u <= 0x39 }

  function DigitOf(u: Unit): (d: nat)
    requires IsDigitUnit(u)
    ensures d < 10
  {
    var n: int := u;
    n - 0x30
  }

  function DigitsValue(key: Units): nat
    requires forall u <- key :: IsDigitUnit(u)
  {
    if key == [] then 0 else DigitsValue(key[..|key| - 1]) * 10 + DigitOf(key[|key| - 1])
  }

  /** The array index that a key spells canonically, if any. */
  function IndexOf(key: Units): Option<nat> {
    if key == [] || (exists u <- key :: !IsDigitUnit(u)) || (key[0] == 0x30 && |key| > 1) || DigitsValue(key) > MAX_INDEX
    then None
    else Some(DigitsValue(key))
  }

  /** No number has two canonical spellings. */
  lemma {:induction false} DigitsValueInjective(a: Units, b: Units)
    requires (forall u <- a :: IsDigitUnit(u)) && (forall u <- b :: IsDigitUnit(u))
    requires a != [] && b != [] && (a[0] != 0x30 || |a| == 1) && (b[0] != 0x30 || |b| == 1)
    requires DigitsValue(a) == DigitsValue(b)
    ensures a == b
  {
    var x, y := a[..|a| - 1], b[..|b| - 1];
    assert a == x + [a[|a| - 1]] && b == y + [b[|b| - 1]];
    if x == [] || y == [] {
      if x != [] { LeadingDigitCounts(x); }
      if y != [] { LeadingDigitCounts(y); }
    } else {
      DigitsValueInjective(x, y);
    }
  }

  lemma {:induction false} LeadingDigitCounts(a: Units)
    requires (forall u <- a :: IsDigitUnit(u)) && a != [] && a[0] != 0x30
    ensures DigitsValue(a) > 0
  {
    if |a| > 1 { LeadingDigitCounts(a[..|a| - 1]); }
  }

  /** The order in which a record enumerates keys that were inserted in code unit order. */
  predicate KeyLess(a: Units, b: Units) {
    match (IndexOf(a), IndexOf(b))
    case (Some(m), Some(n)) => m < n
    case (Some(_), None) => true
    case (None, Some(_)) => false
    case (None, None) => UnitsLess(a, b)
  }

  lemma {:induction false} KeyLessTransitive(a: Units, b: Units, c: Units)
    requires KeyLess(a, b) && KeyLess(b, c)
    ensures KeyLess(a, c)
  {
    if IndexOf(a).None? && IndexOf(b).None? && IndexOf(c).None? { UnitsLessTransitive(a, b, c); }
  }

  lemma {:induction false} KeyLessTotal(a: Units, b: Units)
    ensures KeyLess(a, b) || a == b || KeyLess(b, a)
    ensures !(KeyLess(a, b) && KeyLess(b, a)) && !KeyLess(a, a)
  {
    UnitsLessTotal(a, b);
    UnitsLessIrreflexive(a);
    if IndexOf(a).Some? && IndexOf(b).Some? && IndexOf(a).value == IndexOf(b).value { DigitsValueInjective(a, b); }
  }
}
