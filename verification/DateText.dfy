/**
 Date literals as text (`src/query/json.rs`): the parser for the accepted shapes, and what
 a date term or a date range matches among date leaves.
 */
module DateText {
  import opened Keys
  import opened Wrappers
  import opened Calendar

  const DASH: Byte := 45

  const COLON: Byte := 58

  const DOT: Byte := 46

  // ---------------------------------------------------------------------------
  // Parsing
  // ---------------------------------------------------------------------------

  function DigitAt(b: Bytes, i: nat): (d: Option<nat>)
    ensures d.Some? ==> d.value <= 9
  {
    if i < |b| && 48 <= b[i] <= 57 then
      var c: int := b[i];
      Some(c - 48)
    else
      None
  }

  function DigitsAt(b: Bytes, i: nat, n: nat): (v: Option<nat>)
  {
    if n == 0 then Some(0) else
      var high, low := DigitsAt(b, i, n - 1), DigitAt(b, i + n - 1);
      if high.Some? && low.Some? then Some(high.value * 10 + low.value) else None
  }

  predicate Has(b: Bytes, i: nat, c: Byte)
  {
    i < |b| && b[i] == c
  }

  /** Year, month and day; missing parts are the first of the unit. */
  function ParseYmd(b: Bytes): (t: Option<Date>)
  {
    if |b| < 4 then None else
    var year := DigitsAt(b, 0, 4);
    if year.None? then None else
    if |b| == 4 then Some(Date(year.value, 1, 1)) else
    if !Has(b, 4, DASH) then None else
    var month := DigitsAt(b, 5, 2);
    if month.None? || !(1 <= month.value <= 12) then None else
    if |b| == 7 then Some(Date(year.value, month.value, 1)) else
    if !Has(b, 7, DASH) then None else
    var day := DigitsAt(b, 8, 2);
    if day.None? || !(1 <= day.value <= 31) then None else
    Some(Date(year.value, month.value, day.value))
  }

  /** The first position from `i` on that holds no digit. */
  function PastDigits(b: Bytes, i: nat): (j: nat)
    ensures i <= j
    decreases |b| - i
  {
    if DigitAt(b, i).Some? then PastDigits(b, i + 1) else i
  }

  /** Where the zone starts after an optional fraction at `i`. */
  function ZoneStart(b: Bytes, i: nat): (j: nat)
  {
    if Has(b, i, DOT) then PastDigits(b, i + 1) else i
  }

  /** The zone at `i`: the seconds to subtract for it. */
  function Zone(b: Bytes, i: nat): (off: Option<int>)
  {
    if i >= |b| then Some(0) else
    if (b[i] == 90 || b[i] == 122) && i + 1 == |b| then Some(0) else
    if b[i] == 43 || b[i] == 45 then
      var oh, om := DigitsAt(b, i + 1, 2), DigitsAt(b, i + 4, 2);
      if oh.None? || oh.value > 23 || !Has(b, i + 3, COLON) then None else
      if om.None? || om.value > 59 || i + 6 != |b| then None else
      var mag := oh.value * 3600 + om.value * 60;
      Some(if b[i] == 45 then -mag else mag)
    else
      None
  }

  /** Where the seconds end and, when there are any, their number. */
  function SecondsPart(b: Bytes): (r: Option<(nat, nat, Precision)>)
  {
    if Has(b, 16, COLON) then
      var second := DigitsAt(b, 17, 2);
      if second.None? || second.value > 59 then None else Some((second.value, 19, Second))
    else
      Some((0, 16, Minute))
  }

  function TimeZone(b: Bytes): (r: Option<(int, Precision)>)
    requires |b| > 10
  {
    if b[10] != 84 && b[10] != 116 && b[10] != 32 then None else
    var hour, minute := DigitsAt(b, 11, 2), DigitsAt(b, 14, 2);
    if hour.None? || hour.value > 23 || !Has(b, 13, COLON) then None else
    if minute.None? || minute.value > 59 then None else
    var s := SecondsPart(b);
    if s.None? then None else
    var off := Zone(b, ZoneStart(b, s.value.1));
    if off.None? then None else
    Some((hour.value * 3600 + minute.value * 60 + s.value.0 - off.value, s.value.2))
  }

  /** Walks an index over a fraction. */
  method SkipFraction(b: Bytes, start: nat) returns (i: nat)
    ensures i == ZoneStart(b, start)
  {
    i := start;
    if Has(b, i, DOT) {
      i := i + 1;
      while DigitAt(b, i).Some?
        invariant start < i && PastDigits(b, start + 1) == PastDigits(b, i)
        decreases |b| - i
      {
        i := i + 1;
      }
    }
  }

  method ParseZone(b: Bytes, i: nat) returns (off: Option<int>)
    ensures off == Zone(b, i)
  {
    hide DigitsAt;
    if i >= |b| {
      return Some(0);
    }
    if (b[i] == 90 || b[i] == 122) && i + 1 == |b| {
      return Some(0);
    }
    if b[i] == 43 || b[i] == 45 {
      var oh := DigitsAt(b, i + 1, 2);
      if oh.None? || oh.value > 23 || !Has(b, i + 3, COLON) {
        return None;
      }
      var om := DigitsAt(b, i + 4, 2);
      if om.None? || om.value > 59 || i + 6 != |b| {
        return None;
      }
      var mag: int := oh.value * 3600 + om.value * 60;
      return Some(if b[i] == 45 then -mag else mag);
    }
    return None;
  }

  /** The time and zone suffix: accepted exactly when it is a written time, and then with its meaning. */
  method ParseTimeZone(b: Bytes) returns (r: Option<(int, Precision)>)
    requires |b| > 10
    ensures r.Some? <==> exists c :: ClockOk(c) && b[10..] == ClockTextOf(c)
    ensures forall c :: ClockOk(c) && b[10..] == ClockTextOf(c) ==> r == Some(ClockMeans(c))
    ensures r == TimeZone(b)
  {
    hide TimeZone, ClockTextOf, ClockMeans, ClockOk;
    TimeZoneMeans(b);
    r := ParseSuffix(b);
  }

  method ParseSuffix(b: Bytes) returns (r: Option<(int, Precision)>)
    requires |b| > 10
    ensures r == TimeZone(b)
  {
    hide DigitsAt, Zone, ZoneStart;
    if b[10] != 84 && b[10] != 116 && b[10] != 32 {
      return None;
    }
    var hour := DigitsAt(b, 11, 2);
    if hour.None? || hour.value > 23 || !Has(b, 13, COLON) {
      return None;
    }
    var minute := DigitsAt(b, 14, 2);
    if minute.None? || minute.value > 59 {
      return None;
    }
    var secs := hour.value * 3600 + minute.value * 60;
    var precision := Minute;
    var i := 16;
    if Has(b, i, COLON) {
      var second := DigitsAt(b, 17, 2);
      if second.None? || second.value > 59 {
        return None;
      }
      secs := secs + second.value;
      precision := Second;
      i := 19;
    }
    i := SkipFraction(b, i);
    var off := ParseZone(b, i);
    if off.None? {
      return None;
    }
    return Some((secs - off.value, precision));
  }

  function ParseDateLiteral(b: Bytes): (lit: Option<DateLit>)
  {
    var t := ParseYmd(b);
    if t.None? then None else
    var ts := Days(t.value) * SECS_PER_DAY;
    var precision := if |b| <= 4 then Year else if |b| <= 7 then Month else Day;
    if |b| <= 10 then Some(DateLit(ts, precision, t.value.y, t.value.m)) else
    var z := TimeZone(b);
    if z.None? then None else Some(DateLit(ts + z.value.0, z.value.1, t.value.y, t.value.m))
  }

  // ---------------------------------------------------------------------------
  // Matching
  // ---------------------------------------------------------------------------

  /** A half-open interval of seconds. */
  datatype Interval = Interval(start: int, end: int)

  function DateInterval(start: Bytes, end: Bytes, inclusive: bool): (r: Option<Interval>)
  {
    var lo, hi := ParseDateLiteral(start), ParseDateLiteral(end);
    if lo.None? || hi.None? then None else
    Some(Interval(if inclusive then lo.value.ts else NextStart(lo.value), if inclusive then NextStart(hi.value) else hi.value.ts))
  }

  /** A plain term; a year alone stays on the text path. */
  function DateTerm(value: Bytes): (r: Option<Interval>)
  {
    var lit := ParseDateLiteral(value);
    if lit.None? || lit.value.precision.Year? then None else Some(Interval(lit.value.ts, NextStart(lit.value)))
  }

  predicate LeafMatches(leaf: Bytes, interval: Interval)
  {
    var lit := ParseDateLiteral(leaf);
    lit.Some? && interval.start <= lit.value.ts < interval.end
  }

  // ---------------------------------------------------------------------------
  // Writing dates
  // ---------------------------------------------------------------------------

  function TwoDigits(n: nat): (b: Bytes)
    requires n < 100
    ensures |b| == 2
  {
    [48 + n / 10, 48 + n % 10]
  }

  function FourDigits(n: nat): (b: Bytes)
    requires n < 10000
    ensures |b| == 4
  {
    TwoDigits(n / 100) + TwoDigits(n % 100)
  }

  /** The dates the parser takes: any day from 1 to 31 goes with any month. */
  predicate Writable(t: Date)
  {
    0 <= t.y < 10000 && 1 <= t.m <= 12 && 1 <= t.d <= 31
  }

  function DateTextOf(t: Date): (b: Bytes)
    requires Writable(t)
    ensures |b| == 10
  {
    FourDigits(t.y) + [DASH] + TwoDigits(t.m) + [DASH] + TwoDigits(t.d)
  }

  /** How many bytes of a date a precision writes. */
  function LengthOf(p: Precision): (n: nat)
    ensures n == 4 || n == 7 || n == 10
  {
    match p
    case Year => 4
    case Month => 7
    case _ => 10
  }

  lemma TwoRead(b: Bytes, i: nat, n: nat)
    requires n < 100 && i + 2 <= |b| && b[i..i + 2] == TwoDigits(n)
    ensures DigitsAt(b, i, 2) == Some(n)
  {
    assert b[i] == TwoDigits(n)[0] && b[i + 1] == TwoDigits(n)[1];
    assert DigitsAt(b, i, 1) == Some(n / 10);
  }

  lemma FourRead(b: Bytes, n: nat)
    requires n < 10000 && 4 <= |b| && b[..4] == FourDigits(n)
    ensures DigitsAt(b, 0, 4) == Some(n)
  {
    var f := FourDigits(n);
    assert b[0] == f[0] && b[1] == f[1] && b[2] == f[2] && b[3] == f[3];
    assert b[0..2] == TwoDigits(n / 100);
    TwoRead(b, 0, n / 100);
    assert DigitAt(b, 2) == Some(n % 100 / 10) && DigitAt(b, 3) == Some(n % 100 % 10);
    assert DigitsAt(b, 0, 3) == Some(n / 100 * 10 + n % 100 / 10);
  }

  /** A date cut to a precision, followed by anything when it is whole, parses to its fields. */
  lemma YmdRoundTrip(t: Date, p: Precision, b: Bytes)
    requires Writable(t) && LengthOf(p) <= |b| && b[..LengthOf(p)] == DateTextOf(t)[..LengthOf(p)]
    requires LengthOf(p) < 10 ==> |b| == LengthOf(p)
    ensures ParseYmd(b) == Some(match p case Year => Date(t.y, 1, 1) case Month => Date(t.y, t.m, 1) case _ => t)
  {
    hide DigitsAt;
    var w, n := DateTextOf(t), LengthOf(p);
    assert forall i :: 0 <= i < n ==> b[i] == b[..n][i] && b[i] == w[..n][i] && b[i] == w[i];
    assert b[..4] == FourDigits(t.y);
    FourRead(b, t.y);
    if n >= 7 {
      assert b[5..7] == TwoDigits(t.m);
      TwoRead(b, 5, t.m);
    }
    if n >= 10 {
      assert b[8..10] == TwoDigits(t.d);
      TwoRead(b, 8, t.d);
    }
  }

  /** A date literal of any reduced precision parses to the unit it names. */
  lemma LiteralNamed(t: Date, p: Precision)
    requires Writable(t) && (p.Year? || p.Month? || p.Day?)
    ensures ParseDateLiteral(DateTextOf(t)[..LengthOf(p)]) == Some(Named(t, p))
  {
    hide ParseYmd, DaysFromCivil;
    var b := DateTextOf(t)[..LengthOf(p)];
    assert b[..LengthOf(p)] == b;
    YmdRoundTrip(t, p, b);
  }

  lemma WholeDate(t: Date)
    requires Writable(t)
    ensures ParseDateLiteral(DateTextOf(t)) == Some(Named(t, Day))
  {
    LiteralNamed(t, Day);
    assert DateTextOf(t)[..10] == DateTextOf(t);
  }

  /** Two dates agree in their units exactly when their texts agree that far. */
  lemma PrefixMeansSameUnit(a: Date, b: Date, p: Precision)
    requires Writable(a) && Writable(b) && (p.Year? || p.Month? || p.Day?)
    ensures DateTextOf(a)[..LengthOf(p)] <= DateTextOf(b) <==> SameUnit(a, b, p)
  {
    var v, w, n := DateTextOf(a), DateTextOf(b), LengthOf(p);
    assert v[..n] <= w <==> v[..n] == w[..n];
    if v[..n] == w[..n] {
      YmdRoundTrip(a, p, v[..n]);
      YmdRoundTrip(b, p, w[..n]);
    }
    hide DateTextOf;
    if SameUnit(a, b, p) {
      SameText(a, b, p);
    }
  }

  lemma SameText(a: Date, b: Date, p: Precision)
    requires Writable(a) && Writable(b) && (p.Year? || p.Month? || p.Day?) && SameUnit(a, b, p)
    ensures DateTextOf(a)[..LengthOf(p)] == DateTextOf(b)[..LengthOf(p)]
  {
    hide TwoDigits, FourDigits;
    var v, w := DateTextOf(a), DateTextOf(b);
    assert v[..4] == FourDigits(a.y) && w[..4] == FourDigits(b.y);
    assert v[..7] == FourDigits(a.y) + [DASH] + TwoDigits(a.m);
    assert w[..7] == FourDigits(b.y) + [DASH] + TwoDigits(b.m);
  }

  /**
   A term that names a month or a day matches a date leaf exactly when the term's text is a
   prefix of the leaf's; a bare year is no date term.
   */
  lemma TermMatchesPrefix(term: Date, p: Precision, leaf: Date)
    requires Writable(term) && Writable(leaf) && Real(term) && Real(leaf) && (p.Month? || p.Day?)
    ensures DateTerm(DateTextOf(term)[..LengthOf(p)]).Some?
    ensures LeafMatches(DateTextOf(leaf), DateTerm(DateTextOf(term)[..LengthOf(p)]).value) <==>
            DateTextOf(term)[..LengthOf(p)] <= DateTextOf(leaf)
  {
    LiteralNamed(term, p);
    WholeDate(leaf);
    PrefixMeansSameUnit(term, leaf, p);
    InsideMeansNamed(leaf, 0, term, p);
    hide ParseDateLiteral, DateTextOf, DaysFromCivil;
  }

  lemma YearIsNoTerm(t: Date)
    requires Writable(t)
    ensures DateTerm(DateTextOf(t)[..4]).None?
  {
    LiteralNamed(t, Year);
  }

  /** The date comes before, or after, the whole unit the literal names. */
  predicate BeforeUnit(t: Date, n: Date, p: Precision)
  {
    Earlier(t, n) && !SameUnit(t, n, p)
  }

  lemma BeforeStart(t: Date, n: Date, p: Precision)
    requires Real(t) && Real(n) && (p.Year? || p.Month? || p.Day?)
    ensures Days(t) * SECS_PER_DAY < Named(n, p).ts <==> BeforeUnit(t, n, p)
    ensures NextStart(Named(n, p)) <= Days(t) * SECS_PER_DAY <==> BeforeUnit(n, t, p)
  {
    hide DaysFromCivil;
    InsideMeansNamed(t, 0, n, p);
    DaysOrder(t, n);
    InsideMeansNamed(n, 0, n, p);
  }

  /**
   An inclusive range takes every date from the unit its start names to the unit its end
   names; an exclusive one leaves both units out.
   */
  lemma DateRangeMatches(lo: Date, p: Precision, hi: Date, q: Precision, leaf: Date, inclusive: bool)
    requires Writable(lo) && Writable(hi) && Writable(leaf) && Real(lo) && Real(hi) && Real(leaf)
    requires (p.Year? || p.Month? || p.Day?) && (q.Year? || q.Month? || q.Day?)
    ensures var r := DateInterval(DateTextOf(lo)[..LengthOf(p)], DateTextOf(hi)[..LengthOf(q)], inclusive);
            r.Some? && (LeafMatches(DateTextOf(leaf), r.value) <==>
                        if inclusive then !BeforeUnit(leaf, lo, p) && !BeforeUnit(hi, leaf, q)
                        else BeforeUnit(lo, leaf, p) && BeforeUnit(leaf, hi, q))
  {
    LiteralNamed(lo, p);
    LiteralNamed(hi, q);
    WholeDate(leaf);
    BeforeStart(leaf, lo, p);
    BeforeStart(leaf, hi, q);
    hide ParseDateLiteral, DateTextOf, DaysFromCivil, BeforeUnit, Named, NextStart;
    assert Named(leaf, Day).ts == Days(leaf) * SECS_PER_DAY by {
      NamedDay(leaf);
    }
  }

  lemma NamedDay(t: Date)
    ensures Named(t, Day).ts == Days(t) * SECS_PER_DAY
  {
  }

  // ---------------------------------------------------------------------------
  // Times of day
  // ---------------------------------------------------------------------------

  /** No zone, `Z` in either case, or an offset of whole minutes. */
  datatype ZoneText = NoZone | Zulu(letter: Byte) | East(minutes: nat) | West(minutes: nat)

  /**
   A written time: the separator after the date, the minute of the day, and optionally
   seconds, a fraction of any length (without seconds too) and a zone.
   */
  datatype Clock = Clock(separator: Byte, minutes: nat, seconds: Option<nat>, fraction: Option<Bytes>, zone: ZoneText)

  predicate IsDigit(c: Byte)
  {
    48 <= c <= 57
  }

  predicate AllDigits(b: Bytes)
  {
    forall i :: 0 <= i < |b| ==> IsDigit(b[i])
  }

  predicate ZoneOk(z: ZoneText)
  {
    match z
    case NoZone => true
    case Zulu(c) => c == 90 || c == 122
    case East(n) => n < 1440
    case West(n) => n < 1440
  }

  predicate ClockOk(c: Clock)
  {
    && (c.separator == 84 || c.separator == 116 || c.separator == 32) && c.minutes < 1440
    && (c.seconds.Some? ==> c.seconds.value < 60) && (c.fraction.Some? ==> AllDigits(c.fraction.value))
    && ZoneOk(c.zone)
  }

  function HourText(sep: Byte, minutes: nat): (b: Bytes)
    requires minutes < 1440
    ensures |b| == 6
  {
    [sep] + TwoDigits(minutes / 60) + [COLON] + TwoDigits(minutes % 60)
  }

  function SecondText(s: Option<nat>): (b: Bytes)
    requires s.Some? ==> s.value < 60
  {
    if s.Some? then [COLON] + TwoDigits(s.value) else []
  }

  function FractionText(f: Option<Bytes>): (b: Bytes)
  {
    if f.Some? then [DOT] + f.value else []
  }

  function ZoneTextOf(z: ZoneText): (b: Bytes)
    requires ZoneOk(z)
  {
    match z
    case NoZone => []
    case Zulu(c) => [c]
    case East(n) => [43] + TwoDigits(n / 60) + [COLON] + TwoDigits(n % 60)
    case West(n) => [45] + TwoDigits(n / 60) + [COLON] + TwoDigits(n % 60)
  }

  function ClockTextOf(c: Clock): (b: Bytes)
    requires ClockOk(c)
  {
    HourText(c.separator, c.minutes) + (SecondText(c.seconds) + (FractionText(c.fraction) + ZoneTextOf(c.zone)))
  }

  function OffsetOf(z: ZoneText): (secs: int)
  {
    match z
    case NoZone => 0
    case Zulu(_) => 0
    case East(n) => n * 60
    case West(n) => -(n * 60)
  }

  /** Seconds since local midnight moved to UTC, and the precision; a fraction counts for nothing. */
  function ClockMeans(c: Clock): (r: (int, Precision))
  {
    (c.minutes * 60 + (if c.seconds.Some? then c.seconds.value else 0) - OffsetOf(c.zone),
     if c.seconds.Some? then Second else Minute)
  }

  // ---------------------------------------------------------------------------
  // Every written time parses to its meaning
  // ---------------------------------------------------------------------------

  lemma SliceAt(b: Bytes, i: nat, w: Bytes)
    requires i <= |b| && w <= b[i..]
    ensures i + |w| <= |b| && b[i..i + |w|] == w && forall j :: 0 <= j < |w| ==> b[i + j] == w[j]
  {
    assert forall j :: 0 <= j < |w| ==> b[i..][j] == w[j];
  }

  lemma ZoneRead(b: Bytes, i: nat, z: ZoneText)
    requires i <= |b| && ZoneOk(z) && b[i..] == ZoneTextOf(z)
    ensures Zone(b, i) == Some(OffsetOf(z))
    ensures i < |b| ==> !IsDigit(b[i]) && b[i] != DOT && b[i] != COLON
  {
    hide DigitsAt;
    SliceAt(b, i, ZoneTextOf(z));
    if z.East? || z.West? {
      assert b[i + 1..i + 3] == TwoDigits(z.minutes / 60);
      TwoRead(b, i + 1, z.minutes / 60);
      assert b[i + 4..i + 6] == TwoDigits(z.minutes % 60);
      TwoRead(b, i + 4, z.minutes % 60);
    }
  }

  lemma {:induction false} PastDigitsIs(b: Bytes, i: nat, j: nat)
    requires i <= j <= |b| && AllDigits(b[i..j]) && (j < |b| ==> !IsDigit(b[j]))
    ensures PastDigits(b, i) == j
    decreases j - i
  {
    if i < j {
      assert b[i..j][0] == b[i] && b[i + 1..j] == b[i..j][1..];
      PastDigitsIs(b, i + 1, j);
    }
  }

  lemma FractionRead(b: Bytes, i: nat, f: Option<Bytes>, z: ZoneText)
    requires i <= |b| && ZoneOk(z) && (f.Some? ==> AllDigits(f.value)) && b[i..] == FractionText(f) + ZoneTextOf(z)
    ensures !Has(b, i, COLON) && Zone(b, ZoneStart(b, i)) == Some(OffsetOf(z))
  {
    hide DigitsAt, Zone, PastDigits, ZoneTextOf;
    var w := FractionText(f);
    var j := i + |w|;
    SliceAt(b, i, w);
    assert b[j..] == b[i..][|w|..] && b[j..] == ZoneTextOf(z);
    ZoneRead(b, j, z);
    if f.Some? {
      assert b[i + 1..j] == w[1..] && w[1..] == f.value;
      PastDigitsIs(b, i + 1, j);
    }
  }

  lemma SecondsRead(b: Bytes, s: Option<nat>, rest: Bytes)
    requires |b| >= 16 && (s.Some? ==> s.value < 60) && b[16..] == SecondText(s) + rest && (rest != [] ==> rest[0] != COLON)
    ensures SecondsPart(b) == Some(if s.Some? then (s.value, 19, Second) else (0, 16, Minute))
    ensures b[16 + |SecondText(s)|..] == rest
  {
    hide DigitsAt;
    var w := SecondText(s);
    SliceAt(b, 16, w);
    assert b[16 + |w|..] == b[16..][|w|..];
    if s.Some? {
      assert b[17..19] == TwoDigits(s.value);
      TwoRead(b, 17, s.value);
    } else if |b| > 16 {
      assert b[16] == b[16..][0];
    }
  }

  lemma HourRead(b: Bytes, sep: Byte, minutes: nat)
    requires |b| >= 16 && minutes < 1440 && b[10..16] == HourText(sep, minutes)
    ensures b[10] == sep && DigitsAt(b, 11, 2) == Some(minutes / 60) && Has(b, 13, COLON)
    ensures DigitsAt(b, 14, 2) == Some(minutes % 60)
  {
    hide DigitsAt;
    var w := HourText(sep, minutes);
    assert forall j :: 0 <= j < 6 ==> b[10 + j] == b[10..16][j] && b[10 + j] == w[j];
    assert w[1..3] == TwoDigits(minutes / 60) && w[4..6] == TwoDigits(minutes % 60);
    assert b[11..13] == w[1..3];
    TwoRead(b, 11, minutes / 60);
    assert b[14..16] == w[4..6];
    TwoRead(b, 14, minutes % 60);
  }

  lemma ClockRead(b: Bytes, c: Clock)
    requires |b| > 10 && ClockOk(c) && b[10..] == ClockTextOf(c)
    ensures TimeZone(b) == Some(ClockMeans(c))
  {
    hide DigitsAt, Zone, PastDigits, SecondsPart, HourText, SecondText, FractionText, ZoneTextOf;
    var hour := HourText(c.separator, c.minutes);
    var tail := FractionText(c.fraction) + ZoneTextOf(c.zone);
    SliceAt(b, 10, hour);
    assert b[16..] == b[10..][6..] && b[16..] == SecondText(c.seconds) + tail;
    HourRead(b, c.separator, c.minutes);
    TailStart(c);
    SecondsRead(b, c.seconds, tail);
    var i := 16 + |SecondText(c.seconds)|;
    assert i == if c.seconds.Some? then 19 else 16 by {
      SecondLength(c.seconds);
    }
    SliceAt(b, 16, SecondText(c.seconds));
    FractionRead(b, i, c.fraction, c.zone);
    assert TimeZone(b) == Some((c.minutes / 60 * 3600 + c.minutes % 60 * 60 + (if c.seconds.Some? then c.seconds.value else 0)
                                - OffsetOf(c.zone), if c.seconds.Some? then Second else Minute));
  }

  lemma SecondLength(s: Option<nat>)
    requires s.Some? ==> s.value < 60
    ensures |SecondText(s)| == if s.Some? then 3 else 0
  {
  }

  lemma TailStart(c: Clock)
    requires ClockOk(c)
    ensures var tail := FractionText(c.fraction) + ZoneTextOf(c.zone); tail != [] ==> tail[0] != COLON
  {
  }

  // ---------------------------------------------------------------------------
  // Every time that parses is written so
  // ---------------------------------------------------------------------------

  lemma TwoWritten(b: Bytes, i: nat, n: nat)
    requires DigitsAt(b, i, 2) == Some(n)
    ensures n < 100 && i + 2 <= |b| && b[i..i + 2] == TwoDigits(n)
  {
    var high, low := DigitAt(b, i), DigitAt(b, i + 1);
    assert DigitsAt(b, i, 0) == Some(0);
    assert high.Some? && DigitsAt(b, i, 1) == Some(high.value);
    assert low.Some? && n == high.value * 10 + low.value;
    assert n / 10 == high.value && n % 10 == low.value;
  }

  lemma ZoneWritten(b: Bytes, i: nat) returns (z: ZoneText)
    requires i <= |b| && Zone(b, i).Some?
    ensures ZoneOk(z) && b[i..] == ZoneTextOf(z)
  {
    hide DigitsAt;
    if i == |b| {
      z := NoZone;
    } else if b[i] == 90 || b[i] == 122 {
      z := Zulu(b[i]);
      assert b[i..] == [b[i]];
    } else {
      var oh, om := DigitsAt(b, i + 1, 2).value, DigitsAt(b, i + 4, 2).value;
      TwoWritten(b, i + 1, oh);
      TwoWritten(b, i + 4, om);
      var n := oh * 60 + om;
      assert n / 60 == oh && n % 60 == om;
      z := if b[i] == 43 then East(n) else West(n);
      assert b[i..] == [b[i]] + b[i + 1..i + 3] + [b[i + 3]] + b[i + 4..i + 6];
    }
  }

  lemma {:induction false} PastDigitsSpan(b: Bytes, i: nat)
    requires i <= |b|
    ensures PastDigits(b, i) <= |b| && AllDigits(b[i..PastDigits(b, i)])
    decreases |b| - i
  {
    if DigitAt(b, i).Some? {
      PastDigitsSpan(b, i + 1);
      var j := PastDigits(b, i + 1);
      assert b[i..j] == [b[i]] + b[i + 1..j];
    }
  }

  lemma FractionWritten(b: Bytes, i: nat) returns (f: Option<Bytes>)
    requires i <= |b|
    ensures ZoneStart(b, i) <= |b| && (f.Some? ==> AllDigits(f.value))
    ensures b[i..] == FractionText(f) + b[ZoneStart(b, i)..]
  {
    if Has(b, i, DOT) {
      PastDigitsSpan(b, i + 1);
      var j := PastDigits(b, i + 1);
      f := Some(b[i + 1..j]);
      assert b[i..] == [b[i]] + b[i + 1..j] + b[j..];
    } else {
      f := None;
    }
  }

  lemma SecondsWritten(b: Bytes) returns (s: Option<nat>)
    requires |b| >= 16 && SecondsPart(b).Some?
    ensures (s.Some? ==> s.value < 60) && SecondsPart(b).value.1 <= |b|
    ensures b[16..] == SecondText(s) + b[SecondsPart(b).value.1..]
  {
    hide DigitsAt;
    if Has(b, 16, COLON) {
      s := Some(DigitsAt(b, 17, 2).value);
      TwoWritten(b, 17, s.value);
      assert b[16..] == [b[16]] + b[17..19] + b[19..];
    } else {
      s := None;
    }
  }

  lemma ClockWritten(b: Bytes) returns (c: Clock)
    requires |b| > 10 && TimeZone(b).Some?
    ensures ClockOk(c) && b[10..] == ClockTextOf(c)
  {
    hide DigitsAt, Zone, PastDigits, SecondsPart, SecondText, FractionText, ZoneTextOf;
    var h, m := DigitsAt(b, 11, 2).value, DigitsAt(b, 14, 2).value;
    TwoWritten(b, 11, h);
    TwoWritten(b, 14, m);
    var s := SecondsWritten(b);
    var i := SecondsPart(b).value.1;
    var f := FractionWritten(b, i);
    var z := ZoneWritten(b, ZoneStart(b, i));
    c := Clock(b[10], h * 60 + m, s, f, z);
    assert c.minutes / 60 == h && c.minutes % 60 == m;
    assert b[10..16] == [b[10]] + b[11..13] + [b[13]] + b[14..16];
    assert b[10..] == b[10..16] + b[16..];
  }

  /** The suffix after a date is accepted exactly when it is a written time, and then with its meaning. */
  lemma TimeZoneMeans(b: Bytes)
    requires |b| > 10
    ensures TimeZone(b).Some? <==> exists c :: ClockOk(c) && b[10..] == ClockTextOf(c)
    ensures forall c :: ClockOk(c) && b[10..] == ClockTextOf(c) ==> TimeZone(b) == Some(ClockMeans(c))
  {
    hide TimeZone, ClockTextOf;
    if TimeZone(b).Some? {
      var c := ClockWritten(b);
    }
    forall c | ClockOk(c) && b[10..] == ClockTextOf(c)
      ensures TimeZone(b) == Some(ClockMeans(c))
    {
      ClockRead(b, c);
    }
  }

  // ---------------------------------------------------------------------------
  // Instants
  // ---------------------------------------------------------------------------

  function InstantTextOf(t: Date, c: Clock): (b: Bytes)
    requires Writable(t) && ClockOk(c)
  {
    DateTextOf(t) + ClockTextOf(c)
  }

  /** A written instant of any shape parses to its UTC second and precision. */
  lemma InstantRoundTrip(t: Date, c: Clock)
    requires Writable(t) && ClockOk(c)
    ensures ParseDateLiteral(InstantTextOf(t, c)) ==
            Some(DateLit(Days(t) * SECS_PER_DAY + ClockMeans(c).0, ClockMeans(c).1, t.y, t.m))
  {
    var b := InstantTextOf(t, c);
    assert b[..10] == DateTextOf(t) && b[10..] == ClockTextOf(c);
    hide ParseYmd, TimeZone, DateTextOf, DaysFromCivil;
    assert DateTextOf(t)[..10] == DateTextOf(t);
    YmdRoundTrip(t, Day, b);
    ClockRead(b, c);
  }

  // ---------------------------------------------------------------------------
  // Every literal
  // ---------------------------------------------------------------------------

  /** A year, a month or a day, or a day with a time. */
  datatype Literal = Whole(t: Date, p: Precision) | Instant(t: Date, c: Clock)

  predicate LiteralOk(l: Literal)
  {
    Writable(l.t) && if l.Whole? then l.p.Year? || l.p.Month? || l.p.Day? else ClockOk(l.c)
  }

  function LiteralText(l: Literal): (b: Bytes)
    requires LiteralOk(l)
  {
    if l.Whole? then DateTextOf(l.t)[..LengthOf(l.p)] else InstantTextOf(l.t, l.c)
  }

  function LiteralMeans(l: Literal): (lit: DateLit)
  {
    match l
    case Whole(t, p) => Named(t, p)
    case Instant(t, c) => DateLit(Days(t) * SECS_PER_DAY + ClockMeans(c).0, ClockMeans(c).1, t.y, t.m)
  }

  lemma FourWritten(b: Bytes, n: nat)
    requires DigitsAt(b, 0, 4) == Some(n)
    ensures n < 10000 && 4 <= |b| && b[..4] == FourDigits(n)
  {
    hide DigitsAt, TwoDigits;
    var high, low := FourSplit(b, n);
    TwoWritten(b, 0, high);
    TwoWritten(b, 2, low);
    assert n / 100 == high && n % 100 == low;
    assert b[..4] == b[0..2] + b[2..4];
  }

  lemma FourSplit(b: Bytes, n: nat) returns (high: nat, low: nat)
    requires DigitsAt(b, 0, 4) == Some(n)
    ensures DigitsAt(b, 0, 2) == Some(high) && DigitsAt(b, 2, 2) == Some(low) && n == high * 100 + low
  {
    var three, third, last := DigitsAt(b, 0, 3), DigitAt(b, 2), DigitAt(b, 3);
    assert three.Some? && last.Some? && n == three.value * 10 + last.value;
    high := DigitsAt(b, 0, 2).value;
    assert third.Some? && three.value == high * 10 + third.value;
    low := third.value * 10 + last.value;
    assert DigitsAt(b, 2, 0) == Some(0) && DigitsAt(b, 2, 1) == third;
  }

  /** A text with a date part is a date cut to its length, or a whole date and more. */
  lemma YmdWritten(b: Bytes) returns (t: Date, p: Precision)
    requires ParseYmd(b).Some?
    ensures Writable(t) && (p.Year? || p.Month? || p.Day?) && LengthOf(p) <= |b|
    ensures LengthOf(p) < 10 ==> |b| == LengthOf(p)
    ensures b[..LengthOf(p)] == DateTextOf(t)[..LengthOf(p)]
  {
    hide DigitsAt, TwoDigits, FourDigits;
    t := ParseYmd(b).value;
    p := if |b| == 4 then Year else if |b| == 7 then Month else Day;
    FourWritten(b, t.y);
    var w := DateTextOf(t);
    assert w[..4] == FourDigits(t.y);
    if |b| > 4 {
      TwoWritten(b, 5, t.m);
      assert w[..7] == w[..4] + [DASH] + TwoDigits(t.m);
      assert b[..7] == b[..4] + [b[4]] + b[5..7];
    }
    if |b| > 7 {
      TwoWritten(b, 8, t.d);
      assert w[..10] == w[..7] + [DASH] + TwoDigits(t.d);
      assert b[..10] == b[..7] + [b[7]] + b[8..10];
    }
  }

  lemma LiteralWritten(b: Bytes) returns (l: Literal)
    requires ParseDateLiteral(b).Some?
    ensures LiteralOk(l) && b == LiteralText(l)
  {
    hide ParseYmd, TimeZone, DateTextOf, ClockTextOf, DaysFromCivil;
    var t, p := YmdWritten(b);
    if |b| > 10 {
      var c := ClockWritten(b);
      l := Instant(t, c);
      assert DateTextOf(t)[..10] == DateTextOf(t) && b == b[..10] + b[10..];
    } else {
      l := Whole(t, p);
      assert b[..LengthOf(p)] == b;
    }
  }

  lemma LiteralRead(l: Literal)
    requires LiteralOk(l)
    ensures ParseDateLiteral(LiteralText(l)) == Some(LiteralMeans(l))
  {
    hide ParseDateLiteral, DateTextOf, InstantTextOf, DaysFromCivil;
    if l.Whole? {
      LiteralNamed(l.t, l.p);
    } else {
      InstantRoundTrip(l.t, l.c);
    }
  }

  /** A text is a date literal exactly when it is written in one of the shapes, impossible days included. */
  lemma LiteralAccepted(b: Bytes)
    ensures ParseDateLiteral(b).Some? <==> exists l :: LiteralOk(l) && b == LiteralText(l)
    ensures forall l :: LiteralOk(l) && b == LiteralText(l) ==> ParseDateLiteral(b) == Some(LiteralMeans(l))
  {
    hide ParseDateLiteral, LiteralText, LiteralMeans;
    if ParseDateLiteral(b).Some? {
      var l := LiteralWritten(b);
    }
    forall l | LiteralOk(l) && b == LiteralText(l)
      ensures ParseDateLiteral(b) == Some(LiteralMeans(l))
    {
      LiteralRead(l);
    }
  }

  /** A text is a date term exactly when it is a literal other than a bare year. */
  lemma TermAccepted(b: Bytes)
    ensures DateTerm(b).Some? <==> exists l :: LiteralOk(l) && b == LiteralText(l) && !(l.Whole? && l.p.Year?)
    ensures forall l :: LiteralOk(l) && b == LiteralText(l) ==> (DateTerm(b).Some? <==> !(l.Whole? && l.p.Year?))
  {
    hide ParseDateLiteral, LiteralText, DaysFromCivil;
    forall l | LiteralOk(l) && b == LiteralText(l)
      ensures DateTerm(b).Some? <==> !(l.Whole? && l.p.Year?)
    {
      LiteralRead(l);
    }
    if DateTerm(b).Some? {
      var l := LiteralWritten(b);
      assert LiteralOk(l) && b == LiteralText(l);
    }
  }

  /** Two bounds make a date range exactly when both are literals. */
  lemma RangeAccepted(start: Bytes, end: Bytes, inclusive: bool)
    ensures DateInterval(start, end, inclusive).Some? <==>
            (exists l :: LiteralOk(l) && start == LiteralText(l)) && (exists l :: LiteralOk(l) && end == LiteralText(l))
  {
    hide ParseDateLiteral, LiteralText, DaysFromCivil;
    LiteralAccepted(start);
    LiteralAccepted(end);
  }
}
