/**
 * Week windows, canonical day keys, display labels and text-input masks
 * (app/utils/dateUtils.ts, and the day-key and week helpers that
 * app/components/GeneralScheduleScreen.tsx repeats).  "Today" is a parameter.
 */
module DateUtils {
  import opened Wrappers
  import opened Text
  import opened Calendar

  /** `getMonth()` of a day: 0 = January .. 11 = December. */
  function MonthIndex(n: int): (m: int)
    ensures 0 <= m < 12
  {
    CivilFromDays(n).month - 1
  }

  /** Days from `today` back to the Monday of its Monday-to-Sunday week. */
  function MondayOffset(weekday: int): (offset: int)
    requires 0 <= weekday < 7
    ensures -6 <= offset <= 0
    ensures (weekday + offset) % 7 == 1
  {
    if weekday == 0 then -6 else 1 - weekday
  }

  /**
   * The canonical day key `YYYY-MM-DD` the app builds with
   * `${getFullYear()}-${pad2(getMonth() + 1)}-${pad2(getDate())}`: the year is
   * not padded, month and day are padded to two digits.
   */
  function KeyOf(d: Date): (k: string)
    requires Valid(d)
    ensures ' ' !in k
  {
    DigitsLack(Pad2(d.month), ' ');
    DigitsLack(Pad2(d.day), ' ');
    IntToString(d.year) + "-" + Pad2(d.month) + "-" + Pad2(d.day)
  }

  /** The day key of a day number. */
  function DayKey(n: int): (k: string)
    ensures ' ' !in k
  {
    KeyOf(CivilFromDays(n))
  }

  /** The `full-date` shape of section 5.6 of RFC 3339: four digits, '-', two digits, '-', two digits. */
  predicate IsFullDate(k: string) {
    && |k| == 10
    && k[4] == '-' && k[7] == '-'
    && forall i :: 0 <= i < 10 && i != 4 && i != 7 ==> IsDigit(k[i])
  }

  predicate FourDigits(d: Date) { 1000 <= d.year <= 9999 }

  predicate FourDigitYear(n: int) { FourDigits(CivilFromDays(n)) }

  lemma KeyParts(d: Date)
    requires Valid(d) && FourDigits(d)
    ensures KeyOf(d) == FixedDigits(d.year, 4) + "-" + FixedDigits(d.month, 2) + "-" + FixedDigits(d.day, 2)
  {
    assert Pow10(4) == 10000 && Pow10(3) == 1000;
    NatToStringFixed(d.year, 4);
    Pad2Fixed(d.month);
    Pad2Fixed(d.day);
  }

  lemma KeyShape(d: Date)
    requires Valid(d) && FourDigits(d)
    ensures var k := KeyOf(d);
      && IsFullDate(k)
      && k[..4] == FixedDigits(d.year, 4)
      && k[5..7] == FixedDigits(d.month, 2)
      && k[8..] == FixedDigits(d.day, 2)
  {
    KeyParts(d);
    JoinedFields(FixedDigits(d.year, 4), FixedDigits(d.month, 2), FixedDigits(d.day, 2));
  }

  lemma JoinedFields(y: string, m: string, dd: string)
    requires |y| == 4 && |m| == 2 && |dd| == 2 && AllDigits(y) && AllDigits(m) && AllDigits(dd)
    ensures var k := y + "-" + m + "-" + dd;
      && IsFullDate(k) && k[..4] == y && k[5..7] == m && k[8..] == dd
  {
    var k := y + "-" + m + "-" + dd;
    forall i | 0 <= i < 10 && i != 4 && i != 7 ensures IsDigit(k[i]) {
      if i < 4 {
        assert k[i] == y[i];
      } else if i < 7 {
        assert k[i] == m[i - 5];
      } else {
        assert k[i] == dd[i - 8];
      }
    }
  }

  /** For four-digit years the key is an RFC 3339 full-date whose fields are the year, month and day. */
  lemma DayKeyShape(n: int)
    requires FourDigitYear(n)
    ensures var k, d := DayKey(n), CivilFromDays(n);
      && IsFullDate(k)
      && k[..4] == FixedDigits(d.year, 4)
      && k[5..7] == FixedDigits(d.month, 2)
      && k[8..] == FixedDigits(d.day, 2)
  {
    KeyShape(CivilFromDays(n));
  }

  /** One step of a field-by-field comparison: a fixed-width prefix, then the rest. */
  lemma PrefixStep(a: string, b: string, a': string, b': string)
    requires |a| == |a'|
    ensures LexLess(a + b, a' + b') <==> LexLess(a, a') || (a == a' && LexLess(b, b'))
    ensures a + b == a' + b' <==> a == a' && b == b'
  {
    LexLessAppend(a, b, a', b');
    AppendEqual(a, b, a', b');
  }

  /** Three fields of fixed widths joined by a separator compare field by field. */
  lemma FieldsLess(y: string, m: string, dd: string, y': string, m': string, dd': string, sep: string)
    requires |y| == |y'| && |m| == |m'| && !LexLess(sep, sep)
    ensures LexLess(y + sep + m + sep + dd, y' + sep + m' + sep + dd')
      <==> LexLess(y, y') || (y == y' && (LexLess(m, m') || (m == m' && LexLess(dd, dd'))))
    ensures y + sep + m + sep + dd == y' + sep + m' + sep + dd' <==> y == y' && m == m' && dd == dd'
  {
    PrefixStep(y, sep, y', sep);
    PrefixStep(y + sep, m, y' + sep, m');
    PrefixStep(y + sep + m, sep, y' + sep + m', sep);
    PrefixStep(y + sep + m + sep, dd, y' + sep + m' + sep, dd');
  }

  /** A key compares field by field: year digits, then month digits, then day digits. */
  lemma KeyFields(d: Date, d': Date)
    requires Valid(d) && FourDigits(d) && Valid(d') && FourDigits(d')
    ensures var y, m, dd := FixedDigits(d.year, 4), FixedDigits(d.month, 2), FixedDigits(d.day, 2);
      var y', m', dd' := FixedDigits(d'.year, 4), FixedDigits(d'.month, 2), FixedDigits(d'.day, 2);
      && (LexLess(KeyOf(d), KeyOf(d')) <==> LexLess(y, y') || (y == y' && (LexLess(m, m') || (m == m' && LexLess(dd, dd')))))
      && (KeyOf(d) == KeyOf(d') <==> y == y' && m == m' && dd == dd')
  {
    KeyParts(d);
    KeyParts(d');
    var y, m, dd := FixedDigits(d.year, 4), FixedDigits(d.month, 2), FixedDigits(d.day, 2);
    var y', m', dd' := FixedDigits(d'.year, 4), FixedDigits(d'.month, 2), FixedDigits(d'.day, 2);
    LexLessIrreflexive("-");
    FieldsLess(y, m, dd, y', m', dd', "-");
  }

  /** Each fixed-width field compares as its number does. */
  lemma FieldNumbers(d: Date, d': Date)
    requires Valid(d) && FourDigits(d) && Valid(d') && FourDigits(d')
    ensures LexLess(FixedDigits(d.year, 4), FixedDigits(d'.year, 4)) <==> d.year < d'.year
    ensures FixedDigits(d.year, 4) == FixedDigits(d'.year, 4) <==> d.year == d'.year
    ensures LexLess(FixedDigits(d.month, 2), FixedDigits(d'.month, 2)) <==> d.month < d'.month
    ensures FixedDigits(d.month, 2) == FixedDigits(d'.month, 2) <==> d.month == d'.month
    ensures LexLess(FixedDigits(d.day, 2), FixedDigits(d'.day, 2)) <==> d.day < d'.day
    ensures FixedDigits(d.day, 2) == FixedDigits(d'.day, 2) <==> d.day == d'.day
  {
    assert Pow10(4) == 10000 && Pow10(2) == 100;
    FixedDigitsOrder(d.year, d'.year, 4);
    FixedDigitsOrder(d.month, d'.month, 2);
    FixedDigitsOrder(d.day, d'.day, 2);
  }

  /** Keys of valid four-digit-year dates compare as strings as the dates compare in time. */
  lemma KeyOrder(d: Date, d': Date)
    requires Valid(d) && FourDigits(d) && Valid(d') && FourDigits(d')
    ensures LexLess(KeyOf(d), KeyOf(d')) <==> Before(d, d')
    ensures KeyOf(d) == KeyOf(d') <==> d == d'
  {
    KeyFields(d, d');
    FieldNumbers(d, d');
  }

  /**
   * Comparing day keys as plain strings (section 5.1 of RFC 3339) is the same as
   * comparing the days, for four-digit years.
   */
  lemma DayKeyOrder(n: int, n': int)
    requires FourDigitYear(n) && FourDigitYear(n')
    ensures LexLess(DayKey(n), DayKey(n')) <==> n < n'
    ensures DayKey(n) == DayKey(n') <==> n == n'
  {
    KeyOrder(CivilFromDays(n), CivilFromDays(n'));
    CivilOrder(n, n');
  }

  const MonthNames: seq<string> :=
    ["янв.", "фев.", "мар.", "апр.", "май", "июн.", "июл.", "авг.", "сен.", "окт.", "ноя.", "дек."]

  const DayNames: seq<string> :=
    ["воскресенье", "понедельник", "вторник", "среда", "четверг", "пятница", "суббота"]

  /** `months[month]`: undefined outside 0..11. */
  function GetMonthName(month: int): (r: Option<string>)
    ensures 0 <= month < 12 <==> r.Some?
    ensures r.Some? ==> r.value in MonthNames && r.value == MonthNames[month]
  {
    if 0 <= month < |MonthNames| then Some(MonthNames[month]) else None
  }

  /** Twelve distinct names: a month index can be read back from its name. */
  lemma MonthNamesDistinct(i: int, j: int)
    requires 0 <= i < 12 && 0 <= j < 12 && i != j
    ensures GetMonthName(i) != GetMonthName(j)
  {
  }

  /** `days[date.getDay()]`. */
  function GetDayName(n: int): (r: string)
    ensures r in DayNames && r == DayNames[Weekday(n)]
  {
    DayNames[Weekday(n)]
  }

  /** `s.replace(".", "")`: the first '.' removed. */
  function RemoveFirstDot(s: string): (r: string)
    ensures |r| <= |s|
  {
    if s == [] then [] else if s[0] == '.' then s[1..] else [s[0]] + RemoveFirstDot(s[1..])
  }

  /** A month's caption label: its table entry, or that entry without the final '.'. */
  predicate IsMonthLabel(m: string, month: int)
    requires 0 <= month < 12
  {
    '.' !in m && (m == MonthNames[month] || m + "." == MonthNames[month])
  }

  lemma MonthLabelsHaveNoDot(month: int)
    requires 0 <= month < 12
    ensures '.' !in RemoveFirstDot(MonthNames[month])
    ensures IsMonthLabel(RemoveFirstDot(MonthNames[month]), month)
  {
    var name := MonthNames[month];
    if month == 4 {
      NoDotKept(name);
    } else {
      var stem := name[..3];
      assert name == stem + ".";
      DotSuffixRemoved(stem);
    }
  }

  lemma {:induction false} NoDotKept(s: string)
    requires '.' !in s
    ensures RemoveFirstDot(s) == s
  {
    if s != [] {
      NoDotKept(s[1..]);
    }
  }

  lemma {:induction false} DotSuffixRemoved(stem: string)
    requires '.' !in stem
    ensures RemoveFirstDot(stem + ".") == stem
  {
    if stem != [] {
      assert (stem + ".")[1..] == stem[1..] + ".";
      DotSuffixRemoved(stem[1..]);
    }
  }

  lemma DigitsHaveNoDot(s: string)
    requires AllDigits(s)
    ensures '.' !in s
  {
    forall i | 0 <= i < |s| ensures s[i] != '.' {
      assert IsDigit(s[i]);
    }
  }

  /** The label of a calendar date on a given weekday. */
  function DateLabel(dayName: string, d: Date): (caption: string)
    requires Valid(d) && '.' !in dayName
    ensures '.' !in caption
    ensures |caption| > |dayName| && caption[..|dayName|] == dayName
    ensures var prefix := dayName + ", " + NatToString(d.day) + " ";
      |prefix| <= |caption| && caption[..|prefix|] == prefix && IsMonthLabel(caption[|prefix|..], d.month - 1)
  {
    var month := RemoveFirstDot(MonthNames[d.month - 1]);
    MonthLabelsHaveNoDot(d.month - 1);
    DigitsHaveNoDot(NatToString(d.day));
    dayName + ", " + NatToString(d.day) + " " + month
  }

  /** `${getDayName(date)}, ${date.getDate()} ${month name without its dot}`. */
  function FormatDate(n: int): (caption: string)
    ensures '.' !in caption
    ensures |caption| > |GetDayName(n)| && caption[..|GetDayName(n)|] == GetDayName(n)
    ensures var prefix := GetDayName(n) + ", " + NatToString(CivilFromDays(n).day) + " ";
      |prefix| <= |caption| && caption[..|prefix|] == prefix && IsMonthLabel(caption[|prefix|..], MonthIndex(n))
  {
    DateLabel(GetDayName(n), CivilFromDays(n))
  }

  /** The object `getWeekRange` returns; `start` and `end` are day numbers. */
  datatype WeekRange = WeekRange(
    start: int, end: int, startFormatted: string, endFormatted: string, dateRange: string)

  /** `${pad2(getDate())} ${getMonthName(getMonth())}`. */
  function DayMonthLabel(n: int): string {
    Pad2(CivilFromDays(n).day) + " " + MonthNames[MonthIndex(n)]
  }

  lemma {:induction false} WeekdayShift(n: int, k: int)
    ensures Weekday(n + 7 * k) == Weekday(n)
  {
  }

  /**
   * The Monday and the Sunday of the week `weekOffset` weeks away from the week
   * holding `today`: the Monday-to-Sunday week that holds `today + 7 * weekOffset`.
   */
  function WeekBounds(today: int, weekOffset: int): (b: (int, int))
    ensures Weekday(b.0) == 1 && b.1 == b.0 + 6 && Weekday(b.1) == 0
    ensures b.0 <= today + 7 * weekOffset <= b.1
  {
    var monday := today + MondayOffset(Weekday(today)) + weekOffset * 7;
    WeekdayShift(today + MondayOffset(Weekday(today)), weekOffset);
    (monday, monday + 6)
  }

  /** `getWeekRange(weekOffset)` with today passed in. */
  function GetWeekRange(today: int, weekOffset: int): (r: WeekRange)
    ensures (r.start, r.end) == WeekBounds(today, weekOffset)
    ensures r.dateRange == DayKey(r.start) + " - " + DayKey(r.end)
    ensures r.startFormatted == DayMonthLabel(r.start) && r.endFormatted == DayMonthLabel(r.end)
  {
    var (monday, sunday) := WeekBounds(today, weekOffset);
    WeekRange(monday, sunday, DayMonthLabel(monday), DayMonthLabel(sunday),
      DayKey(monday) + " - " + DayKey(sunday))
  }

  /** Two Mondays less than a week apart are the same day: the week of a day is unique. */
  lemma MondayUnique(a: int, b: int)
    requires Weekday(a) == 1 && Weekday(b) == 1 && a <= b < a + 7
    ensures a == b
  {
  }

  /** Moving one week forward moves both ends by exactly seven days. */
  lemma WeekStep(today: int, weekOffset: int)
    ensures WeekBounds(today, weekOffset + 1).0 == WeekBounds(today, weekOffset).0 + 7
    ensures WeekBounds(today, weekOffset + 1).1 == WeekBounds(today, weekOffset).1 + 7
  {
    var b, b' := WeekBounds(today, weekOffset), WeekBounds(today, weekOffset + 1);
    WeekdayShift(b.0, 1);
    if b.0 + 7 <= b'.0 {
      MondayUnique(b.0 + 7, b'.0);
    } else {
      MondayUnique(b'.0, b.0 + 7);
    }
  }

  /** The current week (offset 0) is the one Monday-to-Sunday week that holds today. */
  lemma WeekHoldsToday(today: int, monday: int)
    requires Weekday(monday) == 1 && monday <= today <= monday + 6
    ensures WeekBounds(today, 0).0 == monday
  {
    var b := WeekBounds(today, 0);
    if b.0 <= monday {
      MondayUnique(b.0, monday);
    } else {
      MondayUnique(monday, b.0);
    }
  }

  /** The two halves of `dateRange` are the Monday key and the Sunday key. */
  lemma DateRangeHalves(today: int, weekOffset: int)
    ensures var r := GetWeekRange(today, weekOffset);
      Split(r.dateRange, " - ") == [DayKey(r.start), DayKey(r.end)]
  {
    var r := GetWeekRange(today, weekOffset);
    SplitPair(DayKey(r.start), DayKey(r.end));
  }

  /** `getTodayDateString()`: the key of today in the same format as `dateRange`. */
  function GetTodayDateString(today: int): (k: string)
    ensures FourDigitYear(today) ==> IsFullDate(k)
    ensures k == DayKey(today)
  {
    TodayShape(today);
    DayKey(today)
  }

  lemma TodayShape(n: int)
    ensures FourDigitYear(n) ==> IsFullDate(DayKey(n))
  {
    if FourDigitYear(n) {
      DayKeyShape(n);
    }
  }

  /** The mask applied to the digits of the date field. */
  function DateMask(digits: string): string {
    var withYear := if |digits| > 4 then Take(digits, 4) + "-" + Drop(digits, 4) else digits;
    var withMonth := if |withYear| > 7 then Take(withYear, 7) + "-" + Take(Drop(withYear, 7), 2) else withYear;
    Take(withMonth, 10)
  }

  /** The mask in closed form: at most eight digits, with '-' after the fourth and sixth. */
  lemma DateMaskClosed(d: string)
    ensures |d| <= 4 ==> DateMask(d) == d
    ensures 4 < |d| <= 6 ==> DateMask(d) == d[..4] + ['-'] + d[4..]
    ensures 6 < |d| ==> DateMask(d) == d[..4] + ['-'] + d[4..6] + ['-'] + d[6..Min(8, |d|)]
  {
    if 6 < |d| {
      var w := d[..4] + "-" + d[4..];
      assert w[..7] == d[..4] + "-" + d[4..6];
      assert Drop(w, 7) == d[6..];
    }
  }

  /** What the date mask promises: '-' exactly at positions 4 and 7, digits elsewhere, the first eight digits kept. */
  predicate DateShaped(r: string, d: string) {
    && |r| <= 10
    && (forall i :: 0 <= i < |r| ==> (r[i] == '-' <==> i == 4 || i == 7))
    && (forall i :: 0 <= i < |r| && i != 4 && i != 7 ==> IsDigit(r[i]))
    && Without(r, '-') == Take(d, 8)
    && OnlyDigits(r) == Take(d, 8)
  }

  /** Where the dashes of a masked full date stand. */
  lemma DashPositions(a: string, b: string, e: string)
    requires AllDigits(a) && AllDigits(b) && AllDigits(e) && |a| == 4 && |b| == 2
    ensures var r := a + ['-'] + b + ['-'] + e;
      forall i :: 0 <= i < |r| ==> (r[i] == '-' <==> i == 4 || i == 7) && (i != 4 && i != 7 ==> IsDigit(r[i]))
  {
    var p := a + ['-'] + b;
    var r := p + ['-'] + e;
    forall i | 0 <= i < |r| ensures (r[i] == '-' <==> i == 4 || i == 7) && (i != 4 && i != 7 ==> IsDigit(r[i])) {
      if i < 4 {
        assert r[i] == a[i];
      } else if 4 < i < 7 {
        assert r[i] == b[i - 5];
      } else if i > 7 {
        assert r[i] == e[i - 8];
      }
    }
  }

  /** Dropping the dashes of a masked full date gives back its digits. */
  lemma DashesStripped(a: string, b: string, e: string)
    requires AllDigits(a) && AllDigits(b) && AllDigits(e)
    ensures Without(a + ['-'] + b + ['-'] + e, '-') == a + b + e
    ensures OnlyDigits(a + ['-'] + b + ['-'] + e) == a + b + e
  {
    JoinDigits(a, b, '-');
    var p := a + ['-'] + b;
    assert p + ['-'] + e == p + (['-'] + e);
    SecondDashStripped(p, e);
  }

  lemma SecondDashStripped(p: string, e: string)
    requires AllDigits(e)
    ensures Without(p + (['-'] + e), '-') == Without(p, '-') + e
    ensures OnlyDigits(p + (['-'] + e)) == OnlyDigits(p) + e
  {
    WithoutAppend(p, ['-'] + e, '-');
    OnlyDigitsAppend(p, ['-'] + e);
    DashThenDigits(e);
  }

  lemma DashThenDigits(e: string)
    requires AllDigits(e)
    ensures Without(['-'] + e, '-') == e && OnlyDigits(['-'] + e) == e
  {
    var q := ['-'] + e;
    assert q[0] == '-' && q[1..] == e;
    DigitsLack(e, '-');
    WithoutAbsent(e, '-');
    OnlyDigitsOfDigits(e);
  }

  lemma DateMaskLong(d: string)
    requires AllDigits(d) && 6 < |d|
    ensures DateShaped(DateMask(d), d)
  {
    DateMaskClosed(d);
    var a, b, e := d[..4], d[4..6], d[6..Min(8, |d|)];
    AllDigitsSlice(d, 0, 4);
    AllDigitsSlice(d, 4, 6);
    AllDigitsSlice(d, 6, Min(8, |d|));
    DashPositions(a, b, e);
    DashesStripped(a, b, e);
    assert a + b + e == Take(d, 8);
  }

  lemma DateMaskShape(d: string)
    requires AllDigits(d)
    ensures DateShaped(DateMask(d), d)
  {
    DateMaskClosed(d);
    if |d| <= 4 {
      OnlyDigitsOfDigits(d);
      DigitsLack(d, '-');
      WithoutAbsent(d, '-');
    } else if |d| <= 6 {
      AllDigitsSlice(d, 0, 4);
      AllDigitsSlice(d, 4, |d|);
      JoinDigits(d[..4], d[4..], '-');
      assert d[..4] + d[4..] == d;
    } else {
      DateMaskLong(d);
    }
  }

  /** `formatDateInput(text)`: keep the digits and shape them as `YYYY-MM-DD` while typing. */
  function FormatDateInput(text: string): (r: string)
    ensures DateShaped(r, OnlyDigits(text))
  {
    DateMaskShape(OnlyDigits(text));
    DateMask(OnlyDigits(text))
  }

  /** Typing into the mask again changes nothing: the mask is idempotent. */
  lemma FormatDateInputIdempotent(text: string)
    ensures FormatDateInput(FormatDateInput(text)) == FormatDateInput(text)
  {
    var d := OnlyDigits(text);
    var e := Take(d, 8);
    DateMaskClosed(d);
    DateMaskClosed(e);
    if 6 < |d| {
      assert e[..4] == d[..4] && e[4..6] == d[4..6] && e[6..Min(8, |e|)] == d[6..Min(8, |d|)];
    } else {
      assert e == d;
    }
  }

  /** The mask applied to the digits of a time field. */
  function TimeMask(digits: string): string {
    var withColon := if |digits| > 2 then Take(digits, 2) + ":" + Drop(digits, 2) else digits;
    Take(withColon, 5)
  }

  lemma TimeMaskClosed(d: string)
    ensures |d| <= 2 ==> TimeMask(d) == d
    ensures 2 < |d| ==> TimeMask(d) == d[..2] + [':'] + d[2..Min(4, |d|)]
  {
  }

  /** What the time mask promises: ':' exactly at position 2 once more than two digits were typed, digits elsewhere. */
  predicate TimeShaped(r: string, d: string) {
    && |r| <= 5
    && (forall i :: 0 <= i < |r| ==> (r[i] == ':' <==> i == 2))
    && (forall i :: 0 <= i < |r| && i != 2 ==> IsDigit(r[i]))
    && (|r| > 2 <==> |d| > 2)
    && Without(r, ':') == Take(d, 4)
    && OnlyDigits(r) == Take(d, 4)
  }

  lemma TimeMaskShape(d: string)
    requires AllDigits(d)
    ensures TimeShaped(TimeMask(d), d)
  {
    TimeMaskClosed(d);
    if |d| <= 2 {
      OnlyDigitsOfDigits(d);
      DigitsLack(d, ':');
      WithoutAbsent(d, ':');
    } else {
      AllDigitsSlice(d, 0, 2);
      AllDigitsSlice(d, 2, Min(4, |d|));
      JoinDigits(d[..2], d[2..Min(4, |d|)], ':');
      assert d[..2] + d[2..Min(4, |d|)] == Take(d, 4);
    }
  }

  /** `formatTimeInput(text)`: keep the digits and shape them as `HH:MM` while typing. */
  function FormatTimeInput(text: string): (r: string)
    ensures TimeShaped(r, OnlyDigits(text))
  {
    TimeMaskShape(OnlyDigits(text));
    TimeMask(OnlyDigits(text))
  }

  lemma FormatTimeInputIdempotent(text: string)
    ensures FormatTimeInput(FormatTimeInput(text)) == FormatTimeInput(text)
  {
    var d := OnlyDigits(text);
    var e := Take(d, 4);
    TimeMaskClosed(d);
    TimeMaskClosed(e);
    if 2 < |d| {
      assert e[..2] == d[..2] && e[2..Min(4, |e|)] == d[2..Min(4, |d|)];
    }
  }
}
