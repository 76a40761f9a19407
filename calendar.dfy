/**
 * Gregorian calendar dates over day numbers.  A day number counts days from
 * 1970-01-01 (day 0); every JavaScript `Date` the app builds is modelled by
 * the day number of its calendar date, and `getFullYear`, `getMonth() + 1`,
 * `getDate` and `getDay` are read off that number.
 */
module Calendar {

  datatype Date = Date(year: int, month: int, day: int)

  predicate IsLeap(y: int) { y % 4 == 0 && (y % 100 != 0 || y % 400 == 0) }

  function DaysInMonth(y: int, m: int): int {
    if m == 2 then (if IsLeap(y) then 29 else 28)
    else if m == 4 || m == 6 || m == 9 || m == 11 then 30
    else 31
  }

  predicate Valid(d: Date) {
    1 <= d.month <= 12 && 1 <= d.day <= DaysInMonth(d.year, d.month)
  }

  /** Chronological order of calendar dates: year, then month, then day. */
  predicate Before(a: Date, b: Date) {
    a.year < b.year || (a.year == b.year && (a.month < b.month || (a.month == b.month && a.day < b.day)))
  }

  /** Days in a 400-year Gregorian era. */
  const EraDays := 146097
  /** Days in a century of an era that does not end in a leap century year. */
  const CenturyDays := 36524
  /** Days in a four-year cycle holding one leap day. */
  const QuadDays := 1461
  /** Day number of 0000-03-01 is -EpochShift. */
  const EpochShift := 719468

  /** A position inside an era that starts on 1 March: year of the era and day of that year. */
  datatype YearPos = YearPos(yoe: int, doy: int)

  /** The century of an era day; the last century holds the extra leap day. */
  function CenturyOf(doe: int): (c: int)
    requires 0 <= doe < EraDays
    ensures 0 <= c <= 3 && 0 <= doe - CenturyDays * c <= CenturyDays
    ensures c < 3 ==> doe - CenturyDays * c < CenturyDays
  {
    if doe >= 3 * CenturyDays then 3 else doe / CenturyDays
  }

  /** The year of a four-year cycle; the last year holds the leap day. */
  function YearOfQuad(doq: int): (r: int)
    requires 0 <= doq < QuadDays
    ensures 0 <= r <= 3 && 0 <= doq - 365 * r <= 365
    ensures r < 3 ==> doq - 365 * r < 365
  {
    if doq >= 3 * 365 then 3 else doq / 365
  }

  function SplitEra(doe: int): (p: YearPos)
    requires 0 <= doe < EraDays
    ensures 0 <= p.yoe < 400 && 0 <= p.doy <= 365
    ensures p.doy == 365 ==> p.yoe % 4 == 3 && (p.yoe % 100 != 99 || p.yoe == 399)
  {
    var c := CenturyOf(doe);
    var doc := doe - CenturyDays * c;
    var q := doc / QuadDays;
    var doq := doc - QuadDays * q;
    var r := YearOfQuad(doq);
    YearPos(100 * c + 4 * q + r, doq - 365 * r)
  }

  /** First day (0-based) of each month of a March-based year, March first. */
  function MonthStart(mp: int): int
    requires 0 <= mp < 12
  {
    [0, 31, 61, 92, 122, 153, 184, 214, 245, 275, 306, 337][mp]
  }

  function MarchMonth(doy: int): (mp: int)
    requires 0 <= doy <= 365
    ensures 0 <= mp < 12 && MonthStart(mp) <= doy
    ensures mp < 11 ==> doy < MonthStart(mp + 1)
  {
    if doy < 31 then 0 else if doy < 61 then 1 else if doy < 92 then 2
    else if doy < 122 then 3 else if doy < 153 then 4 else if doy < 184 then 5
    else if doy < 214 then 6 else if doy < 245 then 7 else if doy < 275 then 8
    else if doy < 306 then 9 else if doy < 337 then 10 else 11
  }

  /** A date in a March-based year: the year, the month index (0 = March) and the day. */
  datatype MarchDate = MarchDate(ym: int, mp: int, dom: int)

  predicate MarchBefore(a: MarchDate, b: MarchDate) {
    a.ym < b.ym || (a.ym == b.ym && (a.mp < b.mp || (a.mp == b.mp && a.dom < b.dom)))
  }

  function Assemble(era: int, p: YearPos): (md: MarchDate)
    requires 0 <= p.doy <= 365
    ensures 0 <= md.mp < 12
  {
    var mp := MarchMonth(p.doy);
    MarchDate(era * 400 + p.yoe, mp, p.doy - MonthStart(mp) + 1)
  }

  function EraDate(e: int, r: int): (md: MarchDate)
    requires 0 <= r < EraDays
    ensures 0 <= md.mp < 12
  {
    Assemble(e, SplitEra(r))
  }

  function ToMarchDate(n: int): (md: MarchDate)
    ensures 0 <= md.mp < 12
  {
    var z := n + EpochShift;
    EraDate(z / EraDays, z % EraDays)
  }

  function FromMarch(md: MarchDate): Date
    requires 0 <= md.mp < 12
  {
    if md.mp < 10 then Date(md.ym, md.mp + 3, md.dom) else Date(md.ym + 1, md.mp - 9, md.dom)
  }

  lemma AssembleValid(e: int, p: YearPos)
    requires 0 <= p.yoe < 400 && 0 <= p.doy <= 365
    requires p.doy == 365 ==> p.yoe % 4 == 3 && (p.yoe % 100 != 99 || p.yoe == 399)
    ensures Valid(FromMarch(Assemble(e, p)))
  {
    var md := Assemble(e, p);
    if md.mp == 11 && p.doy == 365 {
      LeapEnd(e, p.yoe);
    }
  }

  /** The February closing year yoe of an era has a 29th day exactly when the era says so. */
  lemma LeapEnd(e: int, yoe: int)
    requires 0 <= yoe < 400 && yoe % 4 == 3 && (yoe % 100 != 99 || yoe == 399)
    ensures IsLeap(e * 400 + yoe + 1)
  {
    LeapShift(e, yoe + 1);
    assert e * 400 + yoe + 1 == e * 400 + (yoe + 1);
  }

  /** Whole eras do not change whether a year is a leap year. */
  lemma LeapShift(e: int, t: int)
    ensures IsLeap(e * 400 + t) == IsLeap(t)
  {
    Mod4Shift(e, t);
    Mod100Shift(e, t);
    Mod400Shift(e, t);
  }

  lemma Mod4Shift(e: int, t: int)
    ensures (e * 400 + t) % 4 == t % 4
  {
    assert e * 400 + t == 4 * (e * 100) + t;
  }

  lemma Mod100Shift(e: int, t: int)
    ensures (e * 400 + t) % 100 == t % 100
  {
    assert e * 400 + t == 100 * (e * 4) + t;
  }

  lemma Mod400Shift(e: int, t: int)
    ensures (e * 400 + t) % 400 == t % 400
  {
  }

  /** The proleptic Gregorian calendar date of day number n. */
  function CivilFromDays(n: int): (d: Date)
    ensures Valid(d)
  {
    var z := n + EpochShift;
    AssembleValid(z / EraDays, SplitEra(z % EraDays));
    FromMarch(ToMarchDate(n))
  }

  /** `getDay()`: 0 = Sunday .. 6 = Saturday; day 0 (1970-01-01) was a Thursday. */
  function Weekday(n: int): (w: int)
    ensures 0 <= w < 7
  {
    (n + 4) % 7
  }

  lemma EraMono(z: int, z': int)
    requires z < z'
    ensures z / EraDays < z' / EraDays || (z / EraDays == z' / EraDays && z % EraDays < z' % EraDays)
  {
  }

  lemma SplitEraMono(doe: int, doe': int)
    requires 0 <= doe < doe' < EraDays
    ensures var p, p' := SplitEra(doe), SplitEra(doe');
      p.yoe < p'.yoe || (p.yoe == p'.yoe && p.doy < p'.doy)
  {
    var c, c' := CenturyOf(doe), CenturyOf(doe');
    CenturyMono(doe, doe');
    var doc, doc' := doe - CenturyDays * c, doe' - CenturyDays * c';
    var q, q' := doc / QuadDays, doc' / QuadDays;
    QuadBound(doc);
    QuadBound(doc');
    var doq, doq' := doc - QuadDays * q, doc' - QuadDays * q';
    if c == c' {
      QuadMono(doc, doc');
      if q == q' {
        YearMono(doq, doq');
      }
    }
  }

  lemma CenturyMono(doe: int, doe': int)
    requires 0 <= doe < doe' < EraDays
    ensures var c, c' := CenturyOf(doe), CenturyOf(doe');
      c < c' || (c == c' && doe - CenturyDays * c < doe' - CenturyDays * c')
  {
  }

  lemma QuadBound(doc: int)
    requires 0 <= doc <= CenturyDays
    ensures 0 <= doc / QuadDays < 25 && 0 <= doc - QuadDays * (doc / QuadDays) < QuadDays
  {
  }

  lemma QuadMono(doc: int, doc': int)
    requires 0 <= doc < doc' <= CenturyDays
    ensures var q, q' := doc / QuadDays, doc' / QuadDays;
      q < q' || (q == q' && doc - QuadDays * q < doc' - QuadDays * q')
  {
  }

  lemma YearMono(doq: int, doq': int)
    requires 0 <= doq < doq' < QuadDays
    ensures var r, r' := YearOfQuad(doq), YearOfQuad(doq');
      r < r' || (r == r' && doq - 365 * r < doq' - 365 * r')
  {
  }

  lemma MarchMonthMono(doy: int, doy': int)
    requires 0 <= doy < doy' <= 365
    ensures var mp, mp' := MarchMonth(doy), MarchMonth(doy');
      mp < mp' || (mp == mp' && doy - MonthStart(mp) < doy' - MonthStart(mp'))
  {
  }

  lemma AssembleMono(e: int, p: YearPos, e': int, p': YearPos)
    requires 0 <= p.yoe < 400 && 0 <= p.doy <= 365 && 0 <= p'.yoe < 400 && 0 <= p'.doy <= 365
    requires e < e' || (e == e' && (p.yoe < p'.yoe || (p.yoe == p'.yoe && p.doy < p'.doy)))
    ensures MarchBefore(Assemble(e, p), Assemble(e', p'))
  {
    if e == e' && p.yoe == p'.yoe {
      MarchMonthMono(p.doy, p'.doy);
    }
  }

  lemma EraPartsMono(e: int, r: int, e': int, r': int)
    requires 0 <= r < EraDays && 0 <= r' < EraDays
    requires e < e' || (e == e' && r < r')
    ensures MarchBefore(EraDate(e, r), EraDate(e', r'))
  {
    if e == e' {
      SplitEraMono(r, r');
    }
    AssembleMono(e, SplitEra(r), e', SplitEra(r'));
  }

  lemma ToMarchDateMono(n: int, n': int)
    requires n < n'
    ensures MarchBefore(ToMarchDate(n), ToMarchDate(n'))
  {
    EraMono(n + EpochShift, n' + EpochShift);
    EraPartsMono((n + EpochShift) / EraDays, (n + EpochShift) % EraDays, (n' + EpochShift) / EraDays, (n' + EpochShift) % EraDays);
  }

  lemma FromMarchMono(a: MarchDate, b: MarchDate)
    requires 0 <= a.mp < 12 && 0 <= b.mp < 12
    requires MarchBefore(a, b)
    ensures Before(FromMarch(a), FromMarch(b))
  {
  }

  /** Later day numbers are later calendar dates. */
  lemma CivilMonotone(n: int, n': int)
    requires n < n'
    ensures Before(CivilFromDays(n), CivilFromDays(n'))
  {
    ToMarchDateMono(n, n');
    FromMarchMono(ToMarchDate(n), ToMarchDate(n'));
  }

  /** Day numbers and calendar dates are in the same order, in both directions. */
  lemma CivilOrder(n: int, n': int)
    ensures Before(CivilFromDays(n), CivilFromDays(n')) <==> n < n'
    ensures CivilFromDays(n) == CivilFromDays(n') <==> n == n'
  {
    if n < n' {
      CivilMonotone(n, n');
    } else if n' < n {
      CivilMonotone(n', n);
    }
  }

  /** The calendar date after d: the next day of its month, else the 1st of the next month or year. */
  function NextDate(d: Date): Date {
    if d.day < DaysInMonth(d.year, d.month) then Date(d.year, d.month, d.day + 1)
    else if d.month < 12 then Date(d.year, d.month + 1, 1)
    else Date(d.year + 1, 1, 1)
  }

  /** A March-based year of an era that ends in a 29 February. */
  predicate LongYear(yoe: int) { yoe % 4 == 3 && (yoe % 100 != 99 || yoe == 399) }

  function YearLen(yoe: int): int { if LongYear(yoe) then 366 else 365 }

  /** The March-based year yoe is long exactly when the calendar year it ends in is a leap year. */
  lemma LongYearIsLeap(e: int, yoe: int)
    requires 0 <= yoe < 400
    ensures IsLeap(e * 400 + yoe + 1) <==> LongYear(yoe)
  {
    LeapShift(e, yoe + 1);
    assert e * 400 + yoe + 1 == e * 400 + (yoe + 1);
  }

  /** One day later inside an era: the next day of the year, or day 0 of the next year. */
  lemma SplitEraNext(r: int)
    requires 0 <= r < EraDays - 1
    ensures var p, p' := SplitEra(r), SplitEra(r + 1);
      if p.doy + 1 < YearLen(p.yoe) then p' == YearPos(p.yoe, p.doy + 1) else p' == YearPos(p.yoe + 1, 0)
  {
    var c, c' := CenturyOf(r), CenturyOf(r + 1);
    var doc, doc' := r - CenturyDays * c, r + 1 - CenturyDays * c';
    QuadBound(doc);
    QuadBound(doc');
    if c' != c {
      assert c' == c + 1 && doc == CenturyDays - 1 && doc' == 0;
    } else {
      var q, q' := doc / QuadDays, doc' / QuadDays;
      if q' != q {
        assert q' == q + 1 && doc - QuadDays * q == QuadDays - 1 && doc' - QuadDays * q' == 0;
        assert q < 24;
      } else {
        assert doc' == doc + 1;
        var doq := doc - QuadDays * q;
        assert doq + 1 < QuadDays;
        if q == 24 {
          assert c == 3 || doq < QuadDays - 2;
        }
      }
    }
  }

  /** One day later inside a March-based year moves the date to NextDate. */
  lemma AssembleNext(e: int, p: YearPos)
    requires 0 <= p.yoe < 400 && 0 <= p.doy && p.doy + 1 < YearLen(p.yoe)
    ensures FromMarch(Assemble(e, YearPos(p.yoe, p.doy + 1))) == NextDate(FromMarch(Assemble(e, p)))
  {
    var mp := MarchMonth(p.doy);
    if mp == 11 {
      LongYearIsLeap(e, p.yoe);
    }
  }

  /** The last day of a March-based year is followed by 1 March of the next one. */
  lemma YearEndNext(e: int, p: YearPos)
    requires 0 <= p.yoe < 400 && p.doy + 1 == YearLen(p.yoe)
    ensures FromMarch(Assemble(e, YearPos(p.yoe + 1, 0))) == NextDate(FromMarch(Assemble(e, p)))
  {
    LongYearIsLeap(e, p.yoe);
  }

  /** The era position after (e, r), in March-based terms. */
  lemma EraDateNext(e: int, r: int)
    requires 0 <= r < EraDays
    ensures var next := if r == EraDays - 1 then EraDate(e + 1, 0) else EraDate(e, r + 1);
      FromMarch(next) == NextDate(FromMarch(EraDate(e, r)))
  {
    var p := SplitEra(r);
    if r == EraDays - 1 {
      assert p == YearPos(399, 365);
      YearEndNext(e, p);
      assert EraDate(e + 1, 0) == Assemble(e, YearPos(400, 0));
    } else {
      SplitEraNext(r);
      if p.doy + 1 < YearLen(p.yoe) {
        AssembleNext(e, p);
      } else {
        YearEndNext(e, p);
      }
    }
  }

  /** Consecutive day numbers are consecutive calendar dates. */
  lemma CivilSuccessor(n: int)
    ensures CivilFromDays(n + 1) == NextDate(CivilFromDays(n))
  {
    var z := n + EpochShift;
    var e, r := z / EraDays, z % EraDays;
    EraDateNext(e, r);
    if r == EraDays - 1 {
      assert (z + 1) / EraDays == e + 1 && (z + 1) % EraDays == 0;
    } else {
      assert (z + 1) / EraDays == e && (z + 1) % EraDays == r + 1;
    }
    assert ToMarchDate(n + 1) == if r == EraDays - 1 then EraDate(e + 1, 0) else EraDate(e, r + 1);
  }

  lemma EpochIsThursday()
    ensures CivilFromDays(0) == Date(1970, 1, 1) && Weekday(0) == 4
  {
  }
}
