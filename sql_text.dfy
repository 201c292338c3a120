/** How SQLite orders the TEXT values the queries compare, and the two kinds
    of date window the queries filter on. Dates reach the database as
    'YYYY-MM-DD' strings and are compared as text, never as dates. */
module SqlText {

  /** a < b for two TEXT values under SQLite's default BINARY collation:
      the first differing character decides, and a proper prefix sorts
      first. (Comparing UTF-8 bytes orders code points the same way.) */
  predicate Before(a: string, b: string)
    decreases |a|
  {
    if |a| == 0 then |b| > 0
    else if |b| == 0 then false
    else if a[0] != b[0] then a[0] < b[0]
    else Before(a[1..], b[1..])
  }

  /** a <= b for two TEXT values. */
  predicate AtOrBefore(a: string, b: string)
  {
    Before(a, b) || a == b
  }

  lemma {:induction false} BeforeIrreflexive(a: string)
    ensures !Before(a, a)
  {
    if |a| > 0 {
      BeforeIrreflexive(a[1..]);
    }
  }

  lemma {:induction false} BeforeAsymmetric(a: string, b: string)
    ensures Before(a, b) ==> !Before(b, a)
  {
    if |a| > 0 && |b| > 0 && a[0] == b[0] {
      BeforeAsymmetric(a[1..], b[1..]);
    }
  }

  lemma {:induction false} BeforeTransitive(a: string, b: string, c: string)
    requires Before(a, b) && Before(b, c)
    ensures Before(a, c)
  {
    if |a| > 0 && a[0] == b[0] && b[0] == c[0] {
      BeforeTransitive(a[1..], b[1..], c[1..]);
    }
  }

  /** Any two TEXT values are comparable: the order is total. */
  lemma {:induction false} BeforeTotal(a: string, b: string)
    ensures Before(a, b) || a == b || Before(b, a)
  {
    if |a| > 0 && |b| > 0 && a[0] == b[0] {
      BeforeTotal(a[1..], b[1..]);
      if a[1..] == b[1..] {
        assert a == [a[0]] + a[1..] && b == [b[0]] + b[1..];
      }
    }
  }

  // ---------------------------------------------------------------------
  // Windows

  /** The label window `Date >= as_of_date AND Date < as_of_end_date`:
      closed on the left, open on the right. */
  predicate InLabelWindow(date: string, asOf: string, asOfEnd: string)
  {
    AtOrBefore(asOf, date) && Before(date, asOfEnd)
  }

  /** The feature window `Date > feature_start_date AND Date <= feature_end_date`:
      open on the left, closed on the right. */
  predicate InFeatureWindow(date: string, start: string, end: string)
  {
    Before(start, date) && AtOrBefore(date, end)
  }

  /** A row dated exactly on the as-of date counts toward the label (when the
      window is not empty); a row dated exactly on the end date never does. */
  lemma LabelWindowEdges(asOf: string, asOfEnd: string)
    ensures InLabelWindow(asOf, asOf, asOfEnd) <==> Before(asOf, asOfEnd)
    ensures !InLabelWindow(asOfEnd, asOf, asOfEnd)
  {
    BeforeIrreflexive(asOfEnd);
  }

  /** A row dated exactly on the feature start date is never a feature row; a
      row dated exactly on the end date is one (when the window is not empty). */
  lemma FeatureWindowEdges(start: string, end: string)
    ensures !InFeatureWindow(start, start, end)
    ensures InFeatureWindow(end, start, end) <==> Before(start, end)
  {
    BeforeIrreflexive(start);
  }

  /** With equal start and end dates the feature window holds no date at all. */
  lemma FeatureWindowEmptyWhenEqual(date: string, start: string)
    ensures !InFeatureWindow(date, start, start)
  {
    BeforeAsymmetric(start, date);
  }

  /** With equal as-of and end dates the label window holds no date at all. */
  lemma LabelWindowEmptyWhenEqual(date: string, asOf: string)
    ensures !InLabelWindow(date, asOf, asOf)
  {
    BeforeAsymmetric(asOf, date);
    BeforeIrreflexive(asOf);
  }

  /** Each window is an interval: a date between two dates of the window is
      in the window too. */
  lemma FeatureWindowConvex(d1: string, d: string, d2: string, start: string, end: string)
    requires InFeatureWindow(d1, start, end) && InFeatureWindow(d2, start, end)
    requires AtOrBefore(d1, d) && AtOrBefore(d, d2)
    ensures InFeatureWindow(d, start, end)
  {
    if d != d1 {
      BeforeTransitive(start, d1, d);
    }
    if d != d2 && d2 != end {
      BeforeTransitive(d, d2, end);
    }
  }

  // ---------------------------------------------------------------------
  // Text order of ISO dates is their chronological order

  predicate IsDigit(c: char)
  {
    '0' <= c <= '9'
  }

  predicate AllDigits(s: string)
  {
    forall i :: 0 <= i < |s| ==> IsDigit(s[i])
  }

  function Pow10(n: nat): (p: nat)
    ensures p >= 1
  {
    if n == 0 then 1 else 10 * Pow10(n - 1)
  }

  function DigitValue(c: char): (d: nat)
    requires IsDigit(c)
    ensures d < 10
  {
    c as int - '0' as int
  }

  lemma ScaleMonotone(x: nat, y: nat, p: nat)
    requires x <= y
    ensures x * p <= y * p
  {
  }

  /** The number a string of decimal digits spells. */
  function DecimalValue(s: string): (v: nat)
    requires AllDigits(s)
    ensures v < Pow10(|s|)
  {
    if s == [] then 0
    else
      var d, p := DigitValue(s[0]), Pow10(|s| - 1);
      var rest := DecimalValue(s[1..]);
      assert d * p + rest < d * p + p == (d + 1) * p by {
        assert (d + 1) * p == d * p + p;
      }
      ScaleMonotone(d + 1, 10, p);
      d * p + rest
  }

  /** A smaller leading digit outweighs whatever digits follow it. */
  lemma LeadingDigitDominates(da: nat, db: nat, p: nat, ra: nat, rb: nat)
    requires da < db && ra < p
    ensures da * p + ra < db * p + rb
  {
    assert (da + 1) * p == da * p + p;
    ScaleMonotone(da + 1, db, p);
  }

  /** For two digit strings of one length, text order is numeric order. */
  lemma {:induction false} DigitsBeforeIsLess(a: string, b: string)
    requires AllDigits(a) && AllDigits(b) && |a| == |b|
    ensures Before(a, b) <==> DecimalValue(a) < DecimalValue(b)
  {
    if |a| > 0 {
      var p := Pow10(|a| - 1);
      var da, db := DigitValue(a[0]), DigitValue(b[0]);
      var ra, rb := DecimalValue(a[1..]), DecimalValue(b[1..]);
      assert DecimalValue(a) == da * p + ra;
      assert DecimalValue(b) == db * p + rb;
      if da < db {
        assert a[0] < b[0];
        LeadingDigitDominates(da, db, p, ra, rb);
      } else if db < da {
        assert b[0] < a[0];
        LeadingDigitDominates(db, da, p, rb, ra);
      } else {
        assert a[0] == b[0];
        DigitsBeforeIsLess(a[1..], b[1..]);
      }
    }
  }

  /** A common prefix of one length does not change the text order. */
  lemma {:induction false} BeforeAfterCommonPrefix(p: string, a: string, b: string)
    ensures Before(p + a, p + b) <==> Before(a, b)
  {
    if |p| > 0 {
      assert (p + a)[0] == p[0] == (p + b)[0];
      assert (p + a)[1..] == p[1..] + a;
      assert (p + b)[1..] == p[1..] + b;
      assert Before(p + a, p + b) == Before(p[1..] + a, p[1..] + b);
      BeforeAfterCommonPrefix(p[1..], a, b);
    } else {
      assert p + a == a && p + b == b;
    }
  }

  /** Text order of two concatenations whose first parts have one length. */
  lemma {:induction false} BeforeConcat(p: string, q: string, a: string, b: string)
    requires |p| == |q|
    ensures Before(p + a, q + b) <==> Before(p, q) || (p == q && Before(a, b))
  {
    if p == q {
      BeforeAfterCommonPrefix(p, a, b);
      BeforeIrreflexive(p);
    } else {
      assert |p| > 0;
      assert (p + a)[1..] == p[1..] + a;
      assert (q + b)[1..] == q[1..] + b;
      assert (p + a)[0] == p[0] && (q + b)[0] == q[0];
      if p[0] == q[0] {
        BeforeConcat(p[1..], q[1..], a, b);
        assert p[1..] != q[1..] by {
          assert p == [p[0]] + p[1..] && q == [q[0]] + q[1..];
        }
      }
    }
  }

  /** A date as `str(datetime.date)` writes it: 'YYYY-MM-DD'. */
  predicate IsIsoDate(s: string)
  {
    |s| == 10 && s[4] == '-' && s[7] == '-'
    && AllDigits(s[..4]) && AllDigits(s[5..7]) && AllDigits(s[8..])
  }

  function Year(s: string): nat
    requires IsIsoDate(s)
  {
    DecimalValue(s[..4])
  }

  function Month(s: string): nat
    requires IsIsoDate(s)
  {
    DecimalValue(s[5..7])
  }

  function Day(s: string): nat
    requires IsIsoDate(s)
  {
    DecimalValue(s[8..])
  }

  /** Chronological order of two calendar dates, year first. */
  predicate EarlierDay(a: string, b: string)
    requires IsIsoDate(a) && IsIsoDate(b)
  {
    Year(a) < Year(b)
    || (Year(a) == Year(b) && Month(a) < Month(b))
    || (Year(a) == Year(b) && Month(a) == Month(b) && Day(a) < Day(b))
  }

  /** Why comparing the dates as text is sound: on 'YYYY-MM-DD' strings
      SQLite's text order is the chronological order. */
  lemma IsoDateTextOrderIsChronological(a: string, b: string)
    requires IsIsoDate(a) && IsIsoDate(b)
    ensures Before(a, b) <==> EarlierDay(a, b)
  {
    assert a == a[..4] + (a[4..5] + (a[5..7] + (a[7..8] + a[8..])));
    assert b == b[..4] + (b[4..5] + (b[5..7] + (b[7..8] + b[8..])));
    assert a[4..5] == b[4..5] == "-" && a[7..8] == b[7..8] == "-";
    BeforeConcat(a[..4], b[..4], a[4..5] + (a[5..7] + (a[7..8] + a[8..])), b[4..5] + (b[5..7] + (b[7..8] + b[8..])));
    BeforeAfterCommonPrefix("-", a[5..7] + (a[7..8] + a[8..]), b[5..7] + (b[7..8] + b[8..]));
    BeforeConcat(a[5..7], b[5..7], a[7..8] + a[8..], b[7..8] + b[8..]);
    BeforeAfterCommonPrefix("-", a[8..], b[8..]);
    DigitsBeforeIsLess(a[..4], b[..4]);
    DigitsBeforeIsLess(a[5..7], b[5..7]);
    DigitsBeforeIsLess(a[8..], b[8..]);
    DigitsEqualIffValuesEqual(a[..4], b[..4]);
    DigitsEqualIffValuesEqual(a[5..7], b[5..7]);
  }

  lemma DigitsEqualIffValuesEqual(a: string, b: string)
    requires AllDigits(a) && AllDigits(b) && |a| == |b|
    ensures a == b <==> DecimalValue(a) == DecimalValue(b)
  {
    DigitsBeforeIsLess(a, b);
    DigitsBeforeIsLess(b, a);
    BeforeTotal(a, b);
  }
}
