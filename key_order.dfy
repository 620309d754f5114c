/**
 * The order in which the previous-entries list is sorted. The screen sorts
 * date keys by `new Date(key).getTime()`; the model sorts them by
 * `KeyLess`, the lexicographic order of the key strings, and
 * `KeyOrderIsDateOrder` shows that for `YYYY-MM-DD` keys the two agree: a
 * key is smaller exactly when its (year, month, day) comes first.
 */
module KeyOrder {
  import opened DateUtils

  /** Strict lexicographic order on strings, character by character. */
  predicate KeyLess(a: string, b: string)
    decreases |a|
  {
    b != [] && (a == [] || a[0] < b[0] || (a[0] == b[0] && KeyLess(a[1..], b[1..])))
  }

  lemma {:induction false} KeyLessIrreflexive(a: string)
    ensures !KeyLess(a, a)
  {
    if a != [] { KeyLessIrreflexive(a[1..]); }
  }

  lemma {:induction false} KeyLessAsymmetric(a: string, b: string)
    ensures !(KeyLess(a, b) && KeyLess(b, a))
    decreases |a|
  {
    if a != [] && b != [] && a[0] == b[0] { KeyLessAsymmetric(a[1..], b[1..]); }
  }

  lemma {:induction false} KeyLessTransitive(a: string, b: string, c: string)
    requires KeyLess(a, b) && KeyLess(b, c)
    ensures KeyLess(a, c)
    decreases |a|
  {
    if a != [] && a[0] == b[0] && b[0] == c[0] { KeyLessTransitive(a[1..], b[1..], c[1..]); }
  }

  lemma {:induction false} KeyLessTotal(a: string, b: string)
    ensures a == b || KeyLess(a, b) || KeyLess(b, a)
    decreases |a|
  {
    if a != [] && b != [] && a[0] == b[0] {
      KeyLessTotal(a[1..], b[1..]);
      if a[1..] == b[1..] { assert a == [a[0]] + a[1..]; assert b == [b[0]] + b[1..]; }
    }
  }

  /** Comparing `x + s` with `y + t` for `x`, `y` of one length: `x` against `y` first, then `s` against `t`. */
  lemma {:induction false} KeyLessAppend(x: string, s: string, y: string, t: string)
    requires |x| == |y|
    ensures KeyLess(x + s, y + t) <==> KeyLess(x, y) || (x == y && KeyLess(s, t))
    decreases |x|
  {
    if x == [] {
      assert x + s == s && y + t == t;
    } else {
      assert (x + s)[0] == x[0] && (y + t)[0] == y[0];
      assert (x + s)[1..] == x[1..] + s && (y + t)[1..] == y[1..] + t;
      KeyLessAppend(x[1..], s, y[1..], t);
      if x[0] == y[0] && x[1..] == y[1..] { assert x == [x[0]] + x[1..] && y == [y[0]] + y[1..]; }
      if x == y { assert x[1..] == y[1..]; }
    }
  }

  predicate AllDigits(s: string) {
    forall i :: 0 <= i < |s| ==> IsDigit(s[i])
  }

  function Pow10(n: nat): (p: nat)
    ensures p >= 1
  {
    if n == 0 then 1 else 10 * Pow10(n - 1)
  }

  /** The number a string of decimal digits spells. */
  function Value(s: string): (v: nat)
    requires AllDigits(s)
    ensures v < Pow10(|s|)
  {
    if s == [] then 0
    else
      var d := (s[0] as int) - ('0' as int);
      var rest := Value(s[1..]);
      LeadingDigitDecides(d, 10, Pow10(|s| - 1), rest, 0);
      d * Pow10(|s| - 1) + rest
  }

  /** A smaller leading digit makes a smaller number, whatever follows it. */
  lemma LeadingDigitDecides(dx: int, dy: int, p: int, rx: int, ry: int)
    requires 0 <= dx < dy && 0 <= rx < p && 0 <= ry
    ensures dx * p + rx < dy * p + ry
  {
    var k := dy - dx;
    assert dy * p == dx * p + k * p;
    AtLeastOnce(k, p);
  }

  lemma {:induction false} AtLeastOnce(k: int, p: int)
    requires k >= 1 && p >= 0
    ensures k * p >= p
    decreases k
  {
    if k > 1 {
      AtLeastOnce(k - 1, p);
      assert k * p == (k - 1) * p + p;
    }
  }

  /** For digit strings of one length, string order is numeric order. */
  lemma {:induction false} DigitsOrder(x: string, y: string)
    requires AllDigits(x) && AllDigits(y) && |x| == |y|
    ensures KeyLess(x, y) <==> Value(x) < Value(y)
    ensures x == y <==> Value(x) == Value(y)
  {
    if x != [] {
      DigitsOrder(x[1..], y[1..]);
      var p := Pow10(|x| - 1);
      var dx, dy := (x[0] as int) - ('0' as int), (y[0] as int) - ('0' as int);
      assert Value(x) == dx * p + Value(x[1..]);
      assert Value(y) == dy * p + Value(y[1..]);
      if dx < dy {
        LeadingDigitDecides(dx, dy, p, Value(x[1..]), Value(y[1..]));
      } else if dy < dx {
        LeadingDigitDecides(dy, dx, p, Value(y[1..]), Value(x[1..]));
      } else {
        assert x[0] == y[0];
        if x[1..] == y[1..] { assert x == [x[0]] + x[1..] && y == [y[0]] + y[1..]; }
      }
    }
  }

  function Year(k: string): nat requires IsDateKey(k) { Value(k[..4]) }
  function Month(k: string): nat requires IsDateKey(k) { Value(k[5..7]) }
  function Day(k: string): nat requires IsDateKey(k) { Value(k[8..]) }

  /** A number that grows with the calendar date the key names. */
  function DayNumber(k: string): nat
    requires IsDateKey(k)
  {
    Year(k) * 10000 + Month(k) * 100 + Day(k)
  }

  /** For `YYYY-MM-DD` keys, string order is calendar order. */
  lemma KeyOrderIsDateOrder(a: string, b: string)
    requires IsDateKey(a) && IsDateKey(b)
    ensures KeyLess(a, b) <==> DayNumber(a) < DayNumber(b)
  {
    KeyComponents(a, b);
    DigitsOrder(a[..4], b[..4]);
    DigitsOrder(a[5..7], b[5..7]);
    DigitsOrder(a[8..], b[8..]);
    assert Month(a) < 100 && Month(b) < 100 && Day(a) < 100 && Day(b) < 100;
  }

  /** Comparing two keys compares years, then months, then days. */
  lemma KeyComponents(a: string, b: string)
    requires IsDateKey(a) && IsDateKey(b)
    ensures KeyLess(a, b) <==>
      || KeyLess(a[..4], b[..4])
      || (a[..4] == b[..4] && KeyLess(a[5..7], b[5..7]))
      || (a[..4] == b[..4] && a[5..7] == b[5..7] && KeyLess(a[8..], b[8..]))
  {
    assert a == a[..4] + ("-" + (a[5..7] + ("-" + a[8..])));
    assert b == b[..4] + ("-" + (b[5..7] + ("-" + b[8..])));
    KeyLessAppend(a[..4], "-" + (a[5..7] + ("-" + a[8..])), b[..4], "-" + (b[5..7] + ("-" + b[8..])));
    KeyLessAppend("-", a[5..7] + ("-" + a[8..]), "-", b[5..7] + ("-" + b[8..]));
    KeyLessIrreflexive("-");
    KeyLessAppend(a[5..7], "-" + a[8..], b[5..7], "-" + b[8..]);
    KeyLessAppend("-", a[8..], "-", b[8..]);
  }
}
