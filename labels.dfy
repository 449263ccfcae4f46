/**
 * The labels under which the revenue report groups sales: a day is
 * `YYYY-MM-DD` (`DATE(sale_date)` printed by `str`), a month `YYYY-MM`
 * (`DATE_FORMAT(sale_date, '%Y-%m')`), a year the decimal year
 * (`YEAR(sale_date)`), and a week `<year>-W<week>` built by `CONCAT` from
 * two unpadded numbers. The report sorts by these labels; the lemmas here
 * say when that order is the calendar order and when it is not.
 */
module PeriodLabels {
  import opened Common
  import opened Text
  import opened Models

  /** The grouping granularity a client asks for. */
  datatype Period = Day | Week | Month | Year

  function PeriodName(p: Period): string
  {
    match p
    case Day => "day"
    case Week => "week"
    case Month => "month"
    case Year => "year"
  }

  /** The `period` query parameter: one of the four names, anything else is rejected. */
  function ParsePeriod(s: string): (r: Option<Period>)
    ensures r.Some? <==> s in {"day", "week", "month", "year"}
    ensures r.Some? ==> PeriodName(r.value) == s
  {
    if s == "day" then Some(Day)
    else if s == "week" then Some(Week)
    else if s == "month" then Some(Month)
    else if s == "year" then Some(Year)
    else None
  }

  /** Every period's own name is accepted and denotes that period. */
  lemma ParsePeriodName(p: Period)
    ensures ParsePeriod(PeriodName(p)) == Some(p)
  {
  }

  function DayLabel(d: Date): string
  {
    Fixed(d.year, 4) + ("-" + (Fixed(d.month, 2) + ("-" + Fixed(d.day, 2))))
  }

  function MonthLabel(d: Date): string
  {
    Fixed(d.year, 4) + ("-" + Fixed(d.month, 2))
  }

  function YearLabel(d: Date): string
  {
    Decimal(d.year)
  }

  /** `CONCAT(YEAR(d), '-W', WEEK(d))`: neither number is padded. */
  function WeekLabel(year: nat, week: nat): string
  {
    Decimal(year) + ("-W" + Decimal(week))
  }

  /**
   * The label a sale dated `d` is grouped under. `weekOf` is MySQL's
   * `WEEK()` in the server's default mode, which is not part of this model.
   */
  function Label(p: Period, d: Date, weekOf: Date -> nat): string
  {
    match p
    case Day => DayLabel(d)
    case Week => WeekLabel(d.year, weekOf(d))
    case Month => MonthLabel(d)
    case Year => YearLabel(d)
  }

  // ---------------------------------------------------------------------
  // Order of the labels

  lemma Powers()
    ensures Pow10(2) == 100 && Pow10(4) == 10000
  {
    assert Pow10(1) == 10;
    assert Pow10(3) == 1000;
  }

  /** Two zero-padded numbers of one width compare as text the way they compare as numbers. */
  lemma FixedOrder(n1: nat, n2: nat, width: nat)
    requires 1 <= width && n1 < Pow10(width) && n2 < Pow10(width)
    ensures Less(Fixed(n1, width), Fixed(n2, width)) <==> n1 < n2
    ensures Fixed(n1, width) == Fixed(n2, width) <==> n1 == n2
  {
    FixedRoundTrip(n1, width);
    FixedRoundTrip(n2, width);
    DigitsOrder(Fixed(n1, width), Fixed(n2, width));
  }

  /** A zero-padded field followed by `-` and more text compares field first. */
  lemma FieldThen(n1: nat, n2: nat, width: nat, rest1: string, rest2: string)
    requires 1 <= width && n1 < Pow10(width) && n2 < Pow10(width)
    ensures Less(Fixed(n1, width) + ("-" + rest1), Fixed(n2, width) + ("-" + rest2))
            <==> n1 < n2 || (n1 == n2 && Less(rest1, rest2))
  {
    FixedOrder(n1, n2, width);
    FixedRoundTrip(n1, width);
    FixedRoundTrip(n2, width);
    LessConcat(Fixed(n1, width), "-" + rest1, Fixed(n2, width), "-" + rest2);
    LessConcat("-", rest1, "-", rest2);
    LessIrreflexive("-");
  }

  /** On valid dates the rank `DateKey` is the calendar order: year, then month, then day. */
  lemma DateKeyOrder(a: Date, b: Date)
    requires ValidDate(a) && ValidDate(b)
    ensures DateKey(a) < DateKey(b) <==>
            a.year < b.year || (a.year == b.year && (a.month < b.month || (a.month == b.month && a.day < b.day)))
    ensures DateKey(a) == DateKey(b) <==> a == b
  {
  }

  /** Day labels of valid dates sort as text exactly in calendar order. */
  lemma DayLabelOrder(a: Date, b: Date)
    requires ValidDate(a) && ValidDate(b)
    ensures Less(DayLabel(a), DayLabel(b)) <==> DateKey(a) < DateKey(b)
  {
    Powers();
    DateKeyOrder(a, b);
    FieldThen(a.year, b.year, 4, Fixed(a.month, 2) + ("-" + Fixed(a.day, 2)), Fixed(b.month, 2) + ("-" + Fixed(b.day, 2)));
    FieldThen(a.month, b.month, 2, Fixed(a.day, 2), Fixed(b.day, 2));
    FixedOrder(a.day, b.day, 2);
  }

  /** Two valid dates share a day label exactly when they are the same date. */
  lemma DayLabelInjective(a: Date, b: Date)
    requires ValidDate(a) && ValidDate(b)
    ensures DayLabel(a) == DayLabel(b) <==> a == b
  {
    if DayLabel(a) == DayLabel(b) {
      LessIrreflexive(DayLabel(a));
      DayLabelOrder(a, b);
      DayLabelOrder(b, a);
      DateKeyOrder(a, b);
    }
  }

  /** Month labels of valid dates sort as text in calendar order. */
  lemma MonthLabelOrder(a: Date, b: Date)
    requires ValidDate(a) && ValidDate(b)
    ensures Less(MonthLabel(a), MonthLabel(b)) <==> a.year < b.year || (a.year == b.year && a.month < b.month)
  {
    Powers();
    FieldThen(a.year, b.year, 4, Fixed(a.month, 2), Fixed(b.month, 2));
    FixedOrder(a.month, b.month, 2);
  }

  /** Two valid dates share a month label exactly when they fall in the same month of the same year. */
  lemma MonthLabelInjective(a: Date, b: Date)
    requires ValidDate(a) && ValidDate(b)
    ensures MonthLabel(a) == MonthLabel(b) <==> a.year == b.year && a.month == b.month
  {
    if MonthLabel(a) == MonthLabel(b) {
      LessIrreflexive(MonthLabel(a));
      MonthLabelOrder(a, b);
      MonthLabelOrder(b, a);
    }
  }

  /** A year from 1000 to 9999 prints in exactly four digits. */
  lemma FourDigitYear(y: nat)
    requires 1000 <= y <= 9999
    ensures |Decimal(y)| == 4
  {
    Powers();
    DecimalLength(y, 4);
    ParseDecimal(y);
    ParseBound(Decimal(y));
  }

  /**
   * The year is an integer column, which `ORDER BY` sorts numerically; for
   * the years a `DATE` holds, the text of the labels sorts the same way.
   */
  lemma YearLabelOrder(a: Date, b: Date)
    requires ValidDate(a) && ValidDate(b)
    ensures Less(YearLabel(a), YearLabel(b)) <==> a.year < b.year
    ensures YearLabel(a) == YearLabel(b) <==> a.year == b.year
  {
    FourDigitYear(a.year);
    FourDigitYear(b.year);
    ParseDecimal(a.year);
    ParseDecimal(b.year);
    DigitsOrder(Decimal(a.year), Decimal(b.year));
  }

  /** A week label names one year and one week number. */
  lemma WeekLabelInjective(y1: nat, w1: nat, y2: nat, w2: nat)
    requires 1000 <= y1 <= 9999 && 1000 <= y2 <= 9999
    ensures WeekLabel(y1, w1) == WeekLabel(y2, w2) <==> y1 == y2 && w1 == w2
  {
    FourDigitYear(y1);
    FourDigitYear(y2);
    if WeekLabel(y1, w1) == WeekLabel(y2, w2) {
      var l := WeekLabel(y1, w1);
      assert l[..4] == Decimal(y1) && WeekLabel(y2, w2)[..4] == Decimal(y2);
      assert l[6..] == Decimal(w1) && WeekLabel(y2, w2)[6..] == Decimal(w2);
      DecimalInjective(y1, y2);
      DecimalInjective(w1, w2);
    }
  }

  /**
   * Week labels sort as text, not by week number: within 2025, week 10
   * sorts before week 9, because `'1' < '9'`.
   */
  lemma WeekLabelsSortAsText()
    ensures WeekLabel(2025, 10) == "2025-W10" && WeekLabel(2025, 9) == "2025-W9"
    ensures Less(WeekLabel(2025, 10), WeekLabel(2025, 9))
  {
    assert Decimal(2) == "2";
    assert Decimal(20) == "20";
    assert Decimal(202) == "202";
    assert Decimal(2025) == "2025";
    assert Decimal(1) == "1";
    assert Decimal(10) == "10";
    assert Decimal(9) == "9";
    var a, b := "2025-W10", "2025-W9";
    assert Less(a[6..], b[6..]);
    assert Less(a[5..], b[5..]);
    assert Less(a[4..], b[4..]);
    assert Less(a[3..], b[3..]);
    assert Less(a[2..], b[2..]);
    assert Less(a[1..], b[1..]);
  }
}
