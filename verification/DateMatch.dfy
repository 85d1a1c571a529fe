/**
 What date terms and date ranges match (`src/query/json.rs`), for all texts. Every literal
 names a unit of the UTC calendar or clock; units of one precision are numbered in order.
 */
module DateMatch {
  import opened Keys
  import opened Calendar
  import opened DateText

  /** The number of the unit a second falls into. */
  ghost function UnitNumber(ts: int, p: Precision): (n: int)
  {
    match p
    case Year => DateAt(ts / SECS_PER_DAY).y
    case Month => DateAt(ts / SECS_PER_DAY).y * 12 + DateAt(ts / SECS_PER_DAY).m
    case Day => ts / SECS_PER_DAY
    case Minute => ts / 60
    case Second => ts
  }

  /** A literal starts at the start of its unit. */
  ghost predicate AtUnitStart(lit: DateLit)
  {
    match lit.precision
    case Year => lit.ts == Days(Date(lit.year, 1, 1)) * SECS_PER_DAY
    case Month => 1 <= lit.month <= 12 && lit.ts == Days(Date(lit.year, lit.month, 1)) * SECS_PER_DAY
    case Day => lit.ts % SECS_PER_DAY == 0
    case Minute => lit.ts % 60 == 0
    case Second => true
  }

  lemma WholeMinutes(t: Date, c: Clock)
    requires ClockOk(c) && c.seconds.None?
    ensures (Days(t) * SECS_PER_DAY + ClockMeans(c).0) % 60 == 0
  {
    hide DaysFromCivil;
    var off: int := if c.zone.East? then c.zone.minutes else if c.zone.West? then 0 - c.zone.minutes else 0;
    assert Days(t) * SECS_PER_DAY + ClockMeans(c).0 == 60 * (Days(t) * 1440 + c.minutes - off);
  }

  lemma ParsedAtStart(b: Bytes)
    requires ParseDateLiteral(b).Some?
    ensures AtUnitStart(ParseDateLiteral(b).value)
  {
    hide DaysFromCivil;
    var l := LiteralWritten(b);
    LiteralRead(l);
    hide ParseDateLiteral, LiteralText;
    if l.Instant? && l.c.seconds.None? {
      WholeMinutes(l.t, l.c);
    }
  }

  /** Before, in and after the unit a literal names, by number. */
  lemma UnitBounds(ts: int, lit: DateLit)
    requires AtUnitStart(lit)
    ensures var p := lit.precision;
            && (ts < lit.ts <==> UnitNumber(ts, p) < UnitNumber(lit.ts, p))
            && (NextStart(lit) <= ts <==> UnitNumber(lit.ts, p) < UnitNumber(ts, p))
  {
    hide DaysFromCivil;
    match lit.precision
    case Year => CivilBounds(ts, Date(lit.year, 1, 1), Year);
    case Month => CivilBounds(ts, Date(lit.year, lit.month, 1), Month);
    case Day =>
    case Minute =>
    case Second =>
  }

  lemma CivilBounds(ts: int, n: Date, p: Precision)
    requires Real(n) && n.d == 1 && (p.Year? ==> n.m == 1) && (p.Year? || p.Month?)
    ensures var lit := Named(n, p);
            && lit.ts == Days(n) * SECS_PER_DAY
            && (ts < lit.ts <==> UnitNumber(ts, p) < UnitNumber(lit.ts, p))
            && (NextStart(lit) <= ts <==> UnitNumber(lit.ts, p) < UnitNumber(ts, p))
  {
    hide DaysFromCivil;
    var t, secs := DateAt(ts / SECS_PER_DAY), ts % SECS_PER_DAY;
    DateAtIs(n);
    assert Days(n) * SECS_PER_DAY / SECS_PER_DAY == Days(n);
    assert ts == Days(t) * SECS_PER_DAY + secs;
    InsideMeansNamed(t, secs, n, p);
    InsideMeansNamed(n, 0, n, p);
    DaysOrder(t, n);
    assert ts < Named(n, p).ts <==> Earlier(t, n);
  }

  /** A term matches exactly the literals whose UTC start lies in the unit the term names. */
  lemma TermMatches(term: Literal, leaf: Bytes)
    requires LiteralOk(term)
    ensures DateTerm(LiteralText(term)).Some? <==> !(term.Whole? && term.p.Year?)
    ensures DateTerm(LiteralText(term)).Some? ==>
              var at, lit := LiteralMeans(term), ParseDateLiteral(leaf);
              LeafMatches(leaf, DateTerm(LiteralText(term)).value) <==>
              lit.Some? && UnitNumber(lit.value.ts, at.precision) == UnitNumber(at.ts, at.precision)
  {
    hide ParseDateLiteral, DaysFromCivil, UnitNumber, NextStart, AtUnitStart, LiteralText, LiteralMeans;
    TermAccepted(LiteralText(term));
    LiteralRead(term);
    ParsedAtStart(LiteralText(term));
    var lit := ParseDateLiteral(leaf);
    if lit.Some? {
      UnitBounds(lit.value.ts, LiteralMeans(term));
    }
  }

  /** Between two literals: a term matches a leaf exactly when the leaf starts in the unit the term names. */
  lemma LiteralMatches(term: Literal, leaf: Literal)
    requires LiteralOk(term) && LiteralOk(leaf) && !(term.Whole? && term.p.Year?)
    ensures DateTerm(LiteralText(term)).Some?
    ensures var at, lit := LiteralMeans(term), LiteralMeans(leaf);
            LeafMatches(LiteralText(leaf), DateTerm(LiteralText(term)).value) <==>
            UnitNumber(lit.ts, at.precision) == UnitNumber(at.ts, at.precision)
  {
    hide ParseDateLiteral, DaysFromCivil, UnitNumber, LiteralText, LiteralMeans;
    TermMatches(term, LiteralText(leaf));
    LiteralRead(leaf);
  }

  /**
   An inclusive range matches exactly the literals that start neither before the unit of its
   first bound nor after that of its last; an exclusive one those that start strictly between.
   */
  lemma RangeMatches(start: Literal, end: Literal, leaf: Bytes, inclusive: bool)
    requires LiteralOk(start) && LiteralOk(end)
    ensures DateInterval(LiteralText(start), LiteralText(end), inclusive).Some?
    ensures var lo, hi, lit := LiteralMeans(start), LiteralMeans(end), ParseDateLiteral(leaf);
            LeafMatches(leaf, DateInterval(LiteralText(start), LiteralText(end), inclusive).value) <==>
            lit.Some? &&
            var a, b := UnitNumber(lit.value.ts, lo.precision), UnitNumber(lit.value.ts, hi.precision);
            var first, last := UnitNumber(lo.ts, lo.precision), UnitNumber(hi.ts, hi.precision);
            if inclusive then first <= a && b <= last else first < a && b < last
  {
    hide ParseDateLiteral, DaysFromCivil, UnitNumber, NextStart, AtUnitStart, LiteralText, LiteralMeans;
    LiteralRead(start);
    LiteralRead(end);
    ParsedAtStart(LiteralText(start));
    ParsedAtStart(LiteralText(end));
    var lit := ParseDateLiteral(leaf);
    if lit.Some? {
      UnitBounds(lit.value.ts, LiteralMeans(start));
      UnitBounds(lit.value.ts, LiteralMeans(end));
    }
  }

  /**
   A month or day term matches a timestamp of any shape and offset exactly when its UTC date
   is in the named unit.
   */
  lemma TermMatchesUtc(term: Date, p: Precision, t: Date, c: Clock)
    requires Writable(term) && Writable(t) && ClockOk(c) && (p.Month? || p.Day?)
    ensures DateTerm(DateTextOf(term)[..LengthOf(p)]).Some?
    ensures var utc := DateAt((Days(t) * SECS_PER_DAY + ClockMeans(c).0) / SECS_PER_DAY);
            LeafMatches(InstantTextOf(t, c), DateTerm(DateTextOf(term)[..LengthOf(p)]).value) <==>
            SameUnit(utc, if p.Month? then term else DateAt(Days(term)), p)
  {
    hide ParseYmd, TimeZone, DateTextOf, DaysFromCivil, ClockTextOf, InstantTextOf, ClockMeans, NextStart, Named;
    LiteralNamed(term, p);
    InstantRoundTrip(t, c);
    hide ParseDateLiteral;
    NamedInside(term, p, Days(t) * SECS_PER_DAY + ClockMeans(c).0);
    NamedPrecision(term, p);
  }

  lemma NamedPrecision(n: Date, p: Precision)
    requires p.Month? || p.Day?
    ensures Named(n, p).precision == p
  {
  }

  /** A timestamp of a real date without an offset matches such a term exactly when the term is a prefix of it. */
  lemma TermMatchesInstant(term: Date, p: Precision, t: Date, c: Clock)
    requires Writable(term) && Writable(t) && Real(term) && Real(t) && ClockOk(c) && OffsetOf(c.zone) == 0 && (p.Month? || p.Day?)
    ensures DateTerm(DateTextOf(term)[..LengthOf(p)]).Some?
    ensures LeafMatches(InstantTextOf(t, c), DateTerm(DateTextOf(term)[..LengthOf(p)]).value) <==>
            DateTextOf(term)[..LengthOf(p)] <= InstantTextOf(t, c)
  {
    PrefixMeansSameUnit(term, t, p);
    assert InstantTextOf(t, c)[..10] == DateTextOf(t);
    hide ParseDateLiteral, DateTextOf, DaysFromCivil, ClockTextOf, InstantTextOf, DateTerm, LeafMatches;
    TermMatchesUtc(term, p, t, c);
    DateAtIs(t);
    DateAtIs(term);
    UtcIsLocal(t, c);
  }

  lemma UtcIsLocal(t: Date, c: Clock)
    requires ClockOk(c) && OffsetOf(c.zone) == 0
    ensures (Days(t) * SECS_PER_DAY + ClockMeans(c).0) / SECS_PER_DAY == Days(t)
  {
    hide DaysFromCivil;
  }

  /** A second is inside a written month or day exactly when its UTC date is; an impossible day is the one it rolls to. */
  lemma NamedInside(n: Date, p: Precision, ts: int)
    requires Writable(n) && (p.Month? || p.Day?)
    ensures Inside(ts, Named(n, p)) <==> SameUnit(DateAt(ts / SECS_PER_DAY), if p.Month? then n else DateAt(Days(n)), p)
  {
    hide DaysFromCivil;
    var t, secs := DateAt(ts / SECS_PER_DAY), ts % SECS_PER_DAY;
    assert ts == Days(t) * SECS_PER_DAY + secs;
    if p.Month? {
      InsideMeansNamed(t, secs, Date(n.y, n.m, 1), p);
    } else {
      InsideMeansNamed(t, secs, DateAt(Days(n)), p);
    }
  }

  /** February 30 is read as a day of March, in every year: its own month does not match it, though it is a prefix. */
  lemma ImpossibleDayMoves(y: int, c: Clock)
    requires 0 <= y < 10000 && ClockOk(c) && OffsetOf(c.zone) == 0
    ensures var leaf := InstantTextOf(Date(y, 2, 30), c);
            var february, march := DateTextOf(Date(y, 2, 1))[..7], DateTextOf(Date(y, 3, 1))[..7];
            && february <= leaf
            && DateTerm(february).Some? && !LeafMatches(leaf, DateTerm(february).value)
            && DateTerm(march).Some? && LeafMatches(leaf, DateTerm(march).value)
  {
    var t := Date(y, 2, 30);
    hide ParseDateLiteral, TwoDigits, FourDigits, ClockMeans, DateTextOf, DaysFromCivil, ClockTextOf, InstantTextOf, DateTerm,
         LeafMatches;
    MonthIsPrefix(t, c);
    TermMatchesUtc(Date(y, 2, 1), Month, t, c);
    TermMatchesUtc(Date(y, 3, 1), Month, t, c);
    RollsForward(y, 2, 30 - DaysIn(y, 2));
    DateAtIs(Date(y, 3, 30 - DaysIn(y, 2)));
    UtcIsLocal(t, c);
  }

  lemma MonthIsPrefix(t: Date, c: Clock)
    requires Writable(t) && ClockOk(c)
    ensures DateTextOf(Date(t.y, t.m, 1))[..7] <= InstantTextOf(t, c)
  {
    hide TwoDigits, FourDigits, ClockTextOf, DateTextOf;
    PrefixMeansSameUnit(Date(t.y, t.m, 1), t, Month);
    assert InstantTextOf(t, c)[..10] == DateTextOf(t);
  }
}
