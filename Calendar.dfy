/** Calendar dates as pandas holds them in a `datetime64[ns]` column, their
    chronological order, and the derived fields `anio` and `mes` of the
    enriched sales table (`.dt.year` and `.dt.to_period("M").astype(str)`). */
module Calendar {
  import opened TextOrder

  /** `datetime64[ns]` covers 1677-09-21 .. 2262-04-11, so every year has four digits. */
  type Year = y: int | 1677 <= y <= 2262 witness 2000
  type Month = m: int | 1 <= m <= 12 witness 1
  type Day = d: int | 1 <= d <= 31 witness 1

  datatype Date = Date(year: Year, month: Month, day: Day)

  /** Chronological order of two timestamps at midnight. */
  predicate DateLe(a: Date, b: Date)
  {
    a.year < b.year || (a.year == b.year && (a.month < b.month || (a.month == b.month && a.day <= b.day)))
  }

  predicate DateLt(a: Date, b: Date)
  {
    !DateLe(b, a)
  }

  function Pow10(w: nat): (p: nat)
    ensures p >= 1
  {
    if w == 0 then 1 else 10 * Pow10(w - 1)
  }

  function DigitChar(d: nat): char
    requires d < 10
  {
    ('0' as int + d) as char
  }

  /** The last `w` decimal digits of `x`, zero-padded to width `w`. */
  function Digits(x: nat, w: nat): (s: string)
    ensures |s| == w
  {
    if w == 0 then "" else Digits(x / 10, w - 1) + [DigitChar(x % 10)]
  }

  /** Reads a string of decimal digits back as a number. */
  function DigitsValue(s: string): int
  {
    if |s| == 0 then 0 else 10 * DigitsValue(s[..|s| - 1]) + (s[|s| - 1] as int - '0' as int)
  }

  /** The `mes` bucket of a date: "YYYY-MM". */
  function MonthKey(d: Date): string
  {
    Digits(d.year, 4) + "-" + Digits(d.month, 2)
  }

  /** The `anio` field of a date. */
  function YearOf(d: Date): (y: int)
    ensures y == d.year
  {
    d.year
  }

  lemma {:induction false} DigitsRoundTrip(x: nat, w: nat)
    requires x < Pow10(w)
    ensures DigitsValue(Digits(x, w)) == x
  {
    if w > 0 {
      var s := Digits(x, w);
      assert s[..|s| - 1] == Digits(x / 10, w - 1);
      DigitsRoundTrip(x / 10, w - 1);
    }
  }

  /** For numbers of at most `w` digits, the string order of their padded
      forms is their numeric order. */
  lemma {:induction false} DigitsOrder(x: nat, y: nat, w: nat)
    requires x < Pow10(w) && y < Pow10(w)
    ensures LexLess(Digits(x, w), Digits(y, w)) <==> x < y
    ensures Digits(x, w) == Digits(y, w) <==> x == y
  {
    if w == 0 {
    } else {
      DigitsOrder(x / 10, y / 10, w - 1);
      LexLessAppend(Digits(x / 10, w - 1), [DigitChar(x % 10)], Digits(y / 10, w - 1), [DigitChar(y % 10)]);
      if x != y {
        if x < y {
          assert LexLess(Digits(x, w), Digits(y, w));
        } else {
          assert LexLess(Digits(y, w), Digits(x, w)) by {
            DigitsOrder(y / 10, x / 10, w - 1);
            LexLessAppend(Digits(y / 10, w - 1), [DigitChar(y % 10)], Digits(x / 10, w - 1), [DigitChar(x % 10)]);
          }
          LexLessAsymmetric(Digits(y, w), Digits(x, w));
        }
        LexLessIrreflexive(Digits(x, w));
      }
    }
  }

  /** A padded decimal field consists of decimal digits only. */
  lemma {:induction false} DigitsAreDecimal(x: nat, w: nat)
    ensures forall i :: 0 <= i < w ==> '0' <= Digits(x, w)[i] <= '9'
  {
    if w > 0 {
      DigitsAreDecimal(x / 10, w - 1);
      var s := Digits(x, w);
      assert s == Digits(x / 10, w - 1) + [DigitChar(x % 10)];
      assert forall i :: 0 <= i < w - 1 ==> s[i] == Digits(x / 10, w - 1)[i];
    }
  }

  /** `mes` has the shape "YYYY-MM": four decimal digits, a dash and two
      decimal digits, which read back as the year and the month. */
  lemma MonthKeyFormat(d: Date)
    ensures |MonthKey(d)| == 7 && MonthKey(d)[4] == '-'
    ensures forall i :: 0 <= i < 7 && i != 4 ==> '0' <= MonthKey(d)[i] <= '9'
    ensures DigitsValue(MonthKey(d)[..4]) == d.year && DigitsValue(MonthKey(d)[5..]) == d.month
  {
    var k := MonthKey(d);
    assert k[..4] == Digits(d.year, 4);
    assert k[5..] == Digits(d.month, 2);
    DigitsRoundTrip(d.year, 4);
    DigitsRoundTrip(d.month, 2);
    DigitsAreDecimal(d.year, 4);
    DigitsAreDecimal(d.month, 2);
    assert forall i :: 0 <= i < 4 ==> k[i] == k[..4][i];
    assert forall i :: 5 <= i < 7 ==> k[i] == k[5..][i - 5];
  }

  /** Lexicographic order on `mes` is chronological (year, month) order, and
      two dates share a bucket exactly when they share year and month. */
  lemma MonthKeyOrder(a: Date, b: Date)
    ensures LexLess(MonthKey(a), MonthKey(b)) <==> (a.year < b.year || (a.year == b.year && a.month < b.month))
    ensures MonthKey(a) == MonthKey(b) <==> (a.year == b.year && a.month == b.month)
  {
    var ya, yb := Digits(a.year, 4), Digits(b.year, 4);
    var ma, mb := Digits(a.month, 2), Digits(b.month, 2);
    DigitsOrder(a.year, b.year, 4);
    DigitsOrder(a.month, b.month, 2);
    assert MonthKey(a) == ya + ("-" + ma) && MonthKey(b) == yb + ("-" + mb);
    LexLessAppend(ya, "-" + ma, yb, "-" + mb);
    LexLessAppend("-", ma, "-", mb);
    LexLessIrreflexive("-");
    assert MonthKey(a) == MonthKey(b) ==> ya == yb && ma == mb by {
      if MonthKey(a) == MonthKey(b) {
        assert MonthKey(a)[..4] == ya && MonthKey(b)[..4] == yb;
        assert MonthKey(a)[5..] == ma && MonthKey(b)[5..] == mb;
      }
    }
  }
}
