/**
 Calendar arithmetic of the query matcher (`src/query/json.rs`): the civil day count, the
 half-open intervals of date literals, and the literal shapes themselves (section 5.6 of
 RFC 3339, and the reduced ISO 8601 forms). Year arithmetic is unbounded.
 */
module Calendar {
  const SECS_PER_DAY: int := 86400

  // ---------------------------------------------------------------------------
  // The Gregorian calendar
  // ---------------------------------------------------------------------------

  predicate Leap(y: int)
  {
    y % 4 == 0 && (y % 100 != 0 || y % 400 == 0)
  }

  function DaysIn(y: int, m: int): (n: int)
    ensures 28 <= n <= 31
  {
    if m == 2 then (if Leap(y) then 29 else 28)
    else if m == 4 || m == 6 || m == 9 || m == 11 then 30
    else 31
  }

  datatype Date = Date(y: int, m: int, d: int)

  predicate Real(t: Date)
  {
    1 <= t.m <= 12 && 1 <= t.d <= DaysIn(t.y, t.m)
  }

  /** The day after. */
  function Tomorrow(t: Date): (r: Date)
  {
    if t.d < DaysIn(t.y, t.m) then Date(t.y, t.m, t.d + 1)
    else if t.m < 12 then Date(t.y, t.m + 1, 1)
    else Date(t.y + 1, 1, 1)
  }

  predicate Earlier(a: Date, b: Date)
  {
    a.y < b.y || (a.y == b.y && (a.m < b.m || (a.m == b.m && a.d < b.d)))
  }

  // ---------------------------------------------------------------------------
  // The day count
  // ---------------------------------------------------------------------------

  /** Division as the source language does it: towards zero. */
  function Quot(a: int, b: int): (q: int)
    requires b > 0
  {
    if a >= 0 then a / b else -((-a) / b)
  }

  function DaysFromCivil(year: int, m: int, d: int): (n: int)
  {
    var y := if m <= 2 then year - 1 else year;
    var era := Quot(if y >= 0 then y else y - 399, 400);
    var yoe := y - era * 400;
    var mp := (m + 9) % 12;
    var doy := (153 * mp + 2) / 5 + d - 1;
    var doe := yoe * 365 + yoe / 4 - yoe / 100 + doy;
    era * 146097 + doe - 719468
  }

  function Days(t: Date): (n: int)
  {
    DaysFromCivil(t.y, t.m, t.d)
  }

  /** The days in whole years counted from March. */
  function YearStart(y: int): (n: int)
  {
    365 * y + y / 4 - y / 100 + y / 400
  }

  lemma EraIsFloor(y: int)
    ensures Quot(if y >= 0 then y else y - 399, 400) == y / 400
  {
  }

  lemma EraCycle(era: int, yoe: int)
    requires 0 <= yoe < 400
    ensures YearStart(400 * era + yoe) == era * 146097 + yoe * 365 + yoe / 4 - yoe / 100
  {
    var y := 400 * era + yoe;
    assert y / 400 == era;
    assert y / 100 == 4 * era + yoe / 100;
    assert y / 4 == 100 * era + yoe / 4;
  }

  /** The closed form of the count. */
  lemma CountIs(year: int, m: int, d: int)
    requires 1 <= m <= 12
    ensures var y := if m <= 2 then year - 1 else year;
            DaysFromCivil(year, m, d) == YearStart(y) + (153 * ((m + 9) % 12) + 2) / 5 + d - 1 - 719468
  {
    var y := if m <= 2 then year - 1 else year;
    EraIsFloor(y);
    var era := y / 400;
    assert y - era * 400 == y % 400;
    EraCycle(era, y % 400);
    assert 400 * era + y % 400 == y;
  }

  /** A year counted from March ends with the February of the next one. */
  lemma YearLength(y: int)
    ensures YearStart(y) == YearStart(y - 1) + if Leap(y) then 366 else 365
  {
    QuotientStep(y);
    assert y % 400 == 0 ==> y % 100 == 0;
    assert y % 100 == 0 ==> y % 4 == 0;
  }

  lemma QuotientStep(y: int)
    ensures y / 4 == (y - 1) / 4 + if y % 4 == 0 then 1 else 0
    ensures y / 100 == (y - 1) / 100 + if y % 100 == 0 then 1 else 0
    ensures y / 400 == (y - 1) / 400 + if y % 400 == 0 then 1 else 0
  {
  }

  /** Where a month starts within its year counted from March. */
  lemma MonthStart(m: int)
    requires 1 <= m <= 12
    ensures var s := (153 * ((m + 9) % 12) + 2) / 5;
            s == if m == 3 then 0 else if m == 4 then 31 else if m == 5 then 61 else if m == 6 then 92
                 else if m == 7 then 122 else if m == 8 then 153 else if m == 9 then 184 else if m == 10 then 214
                 else if m == 11 then 245 else if m == 12 then 275 else if m == 1 then 306 else 337
  {
  }

  lemma EpochIsZero()
    ensures Days(Date(1970, 1, 1)) == 0
  {
  }

  /** The count grows by exactly one from each real date to the next, in every year. */
  lemma DaysAdvance(t: Date)
    requires Real(t)
    ensures Real(Tomorrow(t)) && Days(Tomorrow(t)) == Days(t) + 1
  {
    var n := Tomorrow(t);
    hide DaysFromCivil, YearStart, Leap;
    CountIs(t.y, t.m, t.d);
    CountIs(n.y, n.m, n.d);
    if t.d == DaysIn(t.y, t.m) {
      MonthEnds(t.y, t.m);
    }
  }

  /** From the last day of a month to the first of the next. */
  lemma MonthEnds(y: int, m: int)
    requires 1 <= m <= 12
    ensures var ny, nm := if m == 12 then y + 1 else y, if m == 12 then 1 else m + 1;
            YearStart(if nm <= 2 then ny - 1 else ny) + (153 * ((nm + 9) % 12) + 2) / 5 ==
            YearStart(if m <= 2 then y - 1 else y) + (153 * ((m + 9) % 12) + 2) / 5 + DaysIn(y, m)
  {
    MonthStart(m);
    MonthStart(if m == 12 then 1 else m + 1);
    YearLength(y);
    hide YearStart, Leap;
  }

  /** An impossible day of the month rolls forward into the next month. */
  lemma RollsForward(y: int, m: int, d: int)
    requires 1 <= m < 12
    ensures DaysFromCivil(y, m, DaysIn(y, m) + d) == DaysFromCivil(y, m + 1, d)
  {
    hide DaysFromCivil;
    CountIs(y, m, DaysIn(y, m) + d);
    CountIs(y, m + 1, d);
    MonthStart(m);
    MonthStart(m + 1);
    YearLength(y);
    hide YearStart;
  }

  lemma YearLengthJanuary(y: int)
    ensures Days(Date(y + 1, 1, 1)) == Days(Date(y, 1, 1)) + if Leap(y) then 366 else 365
  {
    hide DaysFromCivil;
    CountIs(y, 1, 1);
    CountIs(y + 1, 1, 1);
    YearLength(y);
  }

  lemma MonthLength(y: int, m: int)
    requires 1 <= m <= 12
    ensures Days(if m == 12 then Date(y + 1, 1, 1) else Date(y, m + 1, 1)) == Days(Date(y, m, 1)) + DaysIn(y, m)
  {
    hide DaysFromCivil;
    DaysAdvance(Date(y, m, DaysIn(y, m)));
    CountIs(y, m, 1);
    CountIs(y, m, DaysIn(y, m));
  }

  lemma {:induction false} YearsAscend(a: int, b: int)
    requires a <= b
    ensures Days(Date(a, 1, 1)) + 365 * (b - a) <= Days(Date(b, 1, 1))
    decreases b - a
  {
    if a < b {
      YearsAscend(a, b - 1);
      YearLengthJanuary(b - 1);
    }
  }

  lemma {:induction false} MonthsAscend(y: int, a: int, b: int)
    requires 1 <= a <= b <= 12
    ensures Days(Date(y, a, 1)) + 28 * (b - a) <= Days(Date(y, b, 1))
    decreases b - a
  {
    if a < b {
      MonthsAscend(y, a, b - 1);
      MonthLength(y, b - 1);
    }
  }

  /** A real date lies in its own month and its own year. */
  lemma WithinUnits(t: Date)
    requires Real(t)
    ensures Days(Date(t.y, t.m, 1)) <= Days(t) < MonthEnd(t.y, t.m)
    ensures Days(Date(t.y, 1, 1)) <= Days(t) < Days(Date(t.y + 1, 1, 1))
  {
    hide DaysFromCivil;
    MonthLength(t.y, t.m);
    CountIs(t.y, t.m, t.d);
    CountIs(t.y, t.m, 1);
    MonthsAscend(t.y, 1, t.m);
    if t.m < 12 {
      MonthsAscend(t.y, t.m + 1, 12);
    }
    MonthLength(t.y, 12);
  }

  /** The first day after a month. */
  function MonthEnd(y: int, m: int): (n: int)
  {
    if m == 12 then DaysFromCivil(y + 1, 1, 1) else DaysFromCivil(y, m + 1, 1)
  }

  /** The count orders real dates as the calendar does. */
  lemma DaysOrder(a: Date, b: Date)
    requires Real(a) && Real(b)
    ensures Earlier(a, b) <==> Days(a) < Days(b)
    ensures a == b <==> Days(a) == Days(b)
  {
    if Earlier(a, b) {
      EarlierIsLess(a, b);
    } else if a != b {
      EarlierIsLess(b, a);
    }
  }

  lemma EarlierIsLess(a: Date, b: Date)
    requires Real(a) && Real(b) && Earlier(a, b)
    ensures Days(a) < Days(b)
  {
    hide DaysFromCivil;
    WithinUnits(a);
    WithinUnits(b);
    if a.y < b.y {
      YearsAscend(a.y + 1, b.y);
    } else if a.m < b.m {
      MonthsAscend(a.y, a.m + 1, b.m);
    } else {
      CountIs(a.y, a.m, a.d);
      CountIs(b.y, b.m, b.d);
    }
  }

  // ---------------------------------------------------------------------------
  // Intervals of literals
  // ---------------------------------------------------------------------------

  datatype Precision = Year | Month | Day | Minute | Second

  datatype DateLit = DateLit(ts: int, precision: Precision, year: int, month: int)

  function NextStart(lit: DateLit): (end: int)
  {
    match lit.precision
    case Year => DaysFromCivil(lit.year + 1, 1, 1) * SECS_PER_DAY
    case Month =>
      var (y, m) := if lit.month == 12 then (lit.year + 1, 1) else (lit.year, lit.month + 1);
      DaysFromCivil(y, m, 1) * SECS_PER_DAY
    case Day => lit.ts + SECS_PER_DAY
    case Minute => lit.ts + 60
    case Second => lit.ts + 1
  }

  predicate Inside(ts: int, lit: DateLit)
  {
    lit.ts <= ts < NextStart(lit)
  }

  /** The literal that names the year, the month or the day of a date. */
  function Named(t: Date, p: Precision): (lit: DateLit)
  {
    match p
    case Year => DateLit(DaysFromCivil(t.y, 1, 1) * SECS_PER_DAY, Year, t.y, 1)
    case Month => DateLit(DaysFromCivil(t.y, t.m, 1) * SECS_PER_DAY, Month, t.y, t.m)
    case _ => DateLit(Days(t) * SECS_PER_DAY, Day, t.y, t.m)
  }

  predicate SameUnit(a: Date, b: Date, p: Precision)
  {
    match p
    case Year => a.y == b.y
    case Month => a.y == b.y && a.m == b.m
    case _ => a == b
  }

  /** An instant of a real date is inside a literal exactly when the named fields agree. */
  lemma InsideMeansNamed(t: Date, secs: int, n: Date, p: Precision)
    requires Real(t) && Real(n) && 0 <= secs < SECS_PER_DAY
    ensures Inside(Days(t) * SECS_PER_DAY + secs, Named(n, p)) <==> SameUnit(t, n, p)
  {
    hide DaysFromCivil;
    WithinUnits(t);
    match p
    case Year =>
      if t.y < n.y {
        YearsAscend(t.y + 1, n.y);
      } else if n.y < t.y {
        YearsAscend(n.y + 1, t.y);
      }
    case Month =>
      WithinUnits(Date(n.y, n.m, 1));
      if t.y != n.y {
        MonthOutside(t, n);
      } else if t.m < n.m {
        MonthsAscend(t.y, t.m + 1, n.m);
      } else if n.m < t.m {
        MonthsAscend(t.y, n.m + 1, t.m);
      }
    case _ => DaysOrder(t, n);
  }

  lemma MonthOutside(t: Date, n: Date)
    requires Real(t) && Real(n) && t.y != n.y
    ensures Days(t) < DaysFromCivil(n.y, n.m, 1) || MonthEnd(n.y, n.m) <= Days(t)
  {
    hide DaysFromCivil;
    WithinUnits(t);
    WithinUnits(Date(n.y, n.m, 1));
    WithinUnits(Date(n.y, n.m, DaysIn(n.y, n.m)));
    DaysAdvance(Date(n.y, n.m, DaysIn(n.y, n.m)));
    if t.y < n.y {
      YearsAscend(t.y + 1, n.y);
    } else {
      YearsAscend(n.y + 1, t.y);
    }
  }

  /** The day before. */
  function Yesterday(t: Date): (r: Date)
  {
    if t.d > 1 then Date(t.y, t.m, t.d - 1)
    else if t.m > 1 then Date(t.y, t.m - 1, DaysIn(t.y, t.m - 1))
    else Date(t.y - 1, 12, 31)
  }

  lemma YesterdayThenTomorrow(t: Date)
    requires Real(t)
    ensures Real(Yesterday(t)) && Tomorrow(Yesterday(t)) == t
  {
  }

  /** The count reaches every integer: each day number is that of a real date. */
  lemma {:induction false} DateOf(n: int) returns (t: Date)
    ensures Real(t) && Days(t) == n
    decreases if n >= 0 then n else -n
  {
    hide DaysFromCivil;
    if n == 0 {
      t := Date(1970, 1, 1);
      EpochIsZero();
    } else if n > 0 {
      t := DateOf(n - 1);
      DaysAdvance(t);
      t := Tomorrow(t);
    } else {
      t := DateOf(n + 1);
      YesterdayThenTomorrow(t);
      DaysAdvance(Yesterday(t));
      t := Yesterday(t);
    }
  }

  lemma DateExists(n: int)
    ensures exists t: Date :: Real(t) && Days(t) == n
  {
    var t := DateOf(n);
  }

  /** The date with a given day number. */
  ghost function DateAt(n: int): (t: Date)
    ensures Real(t) && Days(t) == n
  {
    DateExists(n);
    var t: Date :| Real(t) && Days(t) == n;
    t
  }

  lemma DateAtIs(t: Date)
    requires Real(t)
    ensures DateAt(Days(t)) == t
  {
    hide DaysFromCivil;
    DaysOrder(DateAt(Days(t)), t);
  }

  /** Every second lies in exactly one year, one month and one day: the units tile the timeline. */
  lemma UnitsTile(ts: int, p: Precision) returns (t: Date)
    ensures Real(t) && Inside(ts, Named(t, p))
    ensures forall n :: Real(n) && Inside(ts, Named(n, p)) ==> Named(n, p) == Named(t, p)
  {
    hide DaysFromCivil;
    var secs := ts % SECS_PER_DAY;
    t := DateOf(ts / SECS_PER_DAY);
    assert ts == Days(t) * SECS_PER_DAY + secs;
    InsideMeansNamed(t, secs, t, p);
    forall n | Real(n) && Inside(ts, Named(n, p))
      ensures Named(n, p) == Named(t, p)
    {
      InsideMeansNamed(t, secs, n, p);
    }
  }
}
