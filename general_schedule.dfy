/**
 * app/components/GeneralScheduleScreen.tsx: the team schedule for one week.
 * The daily schedules it is given become a map from day to shift cards, the
 * displayed week is seven days from `currentWeek`, and only the days of that
 * week whose card list is non-empty are shown.
 */
module GeneralSchedule {
  import opened Wrappers
  import opened Text
  import opened Calendar
  import opened DateUtils
  import opened Sequences
  import opened Shifts
  import opened ShiftHooks

  /** The screen's shift card: who works, on what, and when. */
  datatype Entry = Entry(member: string, shift: string, time: string)

  /** One element of the `dailySchedules` prop. */
  datatype DailySchedule = DailySchedule(day: string, shifts: seq<NamedShift>)

  /** Lines 98-101: the card of a fetched shift; the time is `start-end`. */
  function ToEntry(s: NamedShift): (e: Entry)
    ensures e.member == s.employeeName && e.shift == s.task
    ensures |e.time| == |s.startTime| + 1 + |s.endTime| && e.time[|s.startTime|] == '-'
    ensures e.time[..|s.startTime|] == s.startTime && e.time[|s.startTime| + 1..] == s.endTime
  {
    Entry(s.employeeName, s.task, s.startTime + "-" + s.endTime)
  }

  /** The index of the last schedule for `day` that has shifts, if any. */
  function LastShown(ds: seq<DailySchedule>, day: string): (r: Option<nat>)
    ensures r.Some? ==> r.value < |ds| && ds[r.value].day == day && ds[r.value].shifts != []
    ensures r.Some? ==> forall j :: r.value < j < |ds| ==> !(ds[j].day == day && ds[j].shifts != [])
    ensures r.None? ==> forall j :: 0 <= j < |ds| ==> !(ds[j].day == day && ds[j].shifts != [])
    decreases |ds|
  {
    if ds == [] then None
    else if ds[|ds| - 1].day == day && ds[|ds| - 1].shifts != [] then Some(|ds| - 1)
    else LastShown(ds[..|ds| - 1], day)
  }

  /**
   * m has a key exactly for the days with a non-empty schedule, and under it the
   * cards of the last such schedule, in order.
   */
  ghost predicate Shows(m: map<string, seq<Entry>>, ds: seq<DailySchedule>) {
    forall day ::
      && (day in m <==> LastShown(ds, day).Some?)
      && (day in m ==> m[day] == Map(ds[LastShown(ds, day).value].shifts, ToEntry))
  }

  lemma ShowsStep(m: map<string, seq<Entry>>, ds: seq<DailySchedule>, d: DailySchedule)
    requires Shows(m, ds)
    ensures Shows(if d.shifts != [] then m[d.day := Map(d.shifts, ToEntry)] else m, ds + [d])
  {
    assert (ds + [d])[..|ds|] == ds;
  }

  /** The `scheduleMap` memo (lines 90-106). */
  method ScheduleMap(dailySchedules: seq<DailySchedule>) returns (m: map<string, seq<Entry>>)
    ensures Shows(m, dailySchedules)
  {
    m := map[];
    for i := 0 to |dailySchedules|
      invariant Shows(m, dailySchedules[..i])
    {
      var daySchedule := dailySchedules[i];
      ShowsStep(m, dailySchedules[..i], daySchedule);
      if daySchedule.shifts != [] {
        m := m[daySchedule.day := Map(daySchedule.shifts, ToEntry)];
      }
      assert dailySchedules[..i + 1] == dailySchedules[..i] + [daySchedule];
    }
    assert dailySchedules[..|dailySchedules|] == dailySchedules;
  }

  /** `getWeekDates`: seven consecutive days starting at `startDate`. */
  method GetWeekDates(startDate: int) returns (dates: seq<int>)
    ensures dates == SevenDays(startDate)
  {
    dates := [];
    for i := 0 to 7
      invariant |dates| == i
      invariant forall j :: 0 <= j < i ==> dates[j] == startDate + j
    {
      dates := dates + [startDate + i];
    }
  }

  /** `formatDateKey`: the same canonical key `getTodayDateString` produces. */
  function FormatDateKey(date: int): (key: string)
    ensures key == GetTodayDateString(date)
    ensures FourDigitYear(date) ==> IsFullDate(key)
  {
    KeyOf(CivilFromDays(date))
  }

  /** Keys of different days differ, and the key order is the day order. */
  lemma FormatDateKeyOrder(a: int, b: int)
    requires FourDigitYear(a) && FourDigitYear(b)
    ensures LexLess(FormatDateKey(a), FormatDateKey(b)) <==> a < b
    ensures FormatDateKey(a) == FormatDateKey(b) <==> a == b
  {
    DayKeyOrder(a, b);
  }

  /** `(scheduleMap[formatDateKey(date)] || []).length > 0`. */
  predicate DayHasCards(m: map<string, seq<Entry>>, date: int) {
    |Bucket(m, FormatDateKey(date))| > 0
  }

  /** `weekHasShifts` (lines 142-144). */
  function WeekHasShifts(m: map<string, seq<Entry>>, weekDates: seq<int>): bool {
    Any(weekDates, (date: int) => DayHasCards(m, date))
  }

  /** The week has shifts exactly when one of its days has a card under its key. */
  lemma WeekHasShiftsSpec(m: map<string, seq<Entry>>, weekDates: seq<int>)
    ensures WeekHasShifts(m, weekDates) <==> exists i :: 0 <= i < |weekDates| && DayHasCards(m, weekDates[i])
  {
    AnySpec(weekDates, (date: int) => DayHasCards(m, date));
  }

  /** A day of the rendered week with its cards. */
  datatype DaySection = DaySection(date: int, cards: seq<Entry>)

  function Section(m: map<string, seq<Entry>>, date: int): (s: DaySection)
    ensures s.date == date && s.cards == Bucket(m, FormatDateKey(date))
  {
    DaySection(date, Bucket(m, FormatDateKey(date)))
  }

  predicate HasCards(s: DaySection) { s.cards != [] }

  /** Lines 192-196: the sections drawn, in week order; days without cards are skipped. */
  function RenderedDays(m: map<string, seq<Entry>>, weekDates: seq<int>): (r: seq<DaySection>)
    ensures forall i :: 0 <= i < |r| ==> r[i].cards != []
  {
    Filter(Map(weekDates, (date: int) => Section(m, date)), HasCards)
  }

  /** A section is drawn exactly for a day of the week that has cards, with those cards. */
  lemma RenderedDaysMember(m: map<string, seq<Entry>>, weekDates: seq<int>, s: DaySection)
    ensures s in RenderedDays(m, weekDates) <==>
      s.date in weekDates && s.cards == Bucket(m, FormatDateKey(s.date)) && s.cards != []
  {
    var f := (date: int) => Section(m, date);
    FilterMember(Map(weekDates, f), HasCards, s);
    MapMembers(weekDates, f, s);
    if s.date in weekDates && s.cards == Bucket(m, FormatDateKey(s.date)) {
      assert s == f(s.date);
    }
  }

  /** Nothing is drawn exactly when the week has no shifts, so the empty-week card and the day sections exclude each other. */
  lemma RenderedDaysEmpty(m: map<string, seq<Entry>>, weekDates: seq<int>)
    ensures RenderedDays(m, weekDates) == [] <==> !WeekHasShifts(m, weekDates)
  {
    FilterMapEmpty(weekDates, (date: int) => Section(m, date), HasCards, (date: int) => DayHasCards(m, date));
  }

  /** Line 87: `new Date("2025-07-15")`, day 20284. */
  const InitialWeek: int := 20284

  /** The initial week is 15 July 2025, a Tuesday, so the displayed week is not Monday-aligned. */
  lemma InitialWeekDate()
    ensures FormatDateKey(InitialWeek) == "2025-07-15"
    ensures Weekday(InitialWeek) == 2
  {
    DayKeyOfJuly15();
    KeyOfJuly15();
  }

  lemma DayKeyOfJuly15()
    ensures CivilFromDays(InitialWeek) == Date(2025, 7, 15)
  {
  }

  lemma KeyOfJuly15()
    ensures KeyOf(Date(2025, 7, 15)) == "2025-07-15"
  {
    var d := Date(2025, 7, 15);
    assert Valid(d) by {
      assert DaysInMonth(2025, 7) == 31;
    }
    YearText();
    MonthText();
    DayText();
    KeyOfFields(d, "2025", "07", "15");
    JulyText();
  }

  lemma KeyOfFields(d: Date, y: string, m: string, dd: string)
    requires Valid(d) && IntToString(d.year) == y && Pad2(d.month) == m && Pad2(d.day) == dd
    ensures KeyOf(d) == y + "-" + m + "-" + dd
  {
  }

  lemma JulyText()
    ensures "2025" + "-" + "07" + "-" + "15" == "2025-07-15"
  {
  }

  lemma YearText()
    ensures IntToString(2025) == "2025"
  {
    assert NatToString(2) == "2";
    assert NatToString(20) == "20";
    assert NatToString(202) == "202";
  }

  lemma MonthText()
    ensures Pad2(7) == "07"
  {
    assert NatToString(7) == "7";
    PadOnce("7", '0');
  }

  lemma DayText()
    ensures Pad2(15) == "15"
  {
    assert NatToString(1) == "1";
    assert NatToString(15) == "15";
  }

  datatype Direction = Prev | Next

  /** The week `navigateWeek(direction)` moves to. */
  function Navigated(week: int, direction: Direction): int {
    week + (if direction == Next then 7 else -7)
  }

  /** Moving forward and back returns to the same day, and the weekday never changes. */
  lemma NavigateLaws(week: int, direction: Direction)
    ensures Navigated(Navigated(week, Next), Prev) == week && Navigated(Navigated(week, Prev), Next) == week
    ensures Weekday(Navigated(week, direction)) == Weekday(week)
  {
    WeekdayShift(week, if direction == Next then 1 else -1);
  }

  /** However often the user navigates, the start of the week stays a Tuesday. */
  lemma {:induction false} AlwaysTuesday(directions: seq<Direction>)
    ensures Weekday(Replay(InitialWeek, directions)) == 2
  {
    if directions == [] {
      InitialWeekDate();
    } else {
      AlwaysTuesday(directions[..|directions| - 1]);
      NavigateLaws(Replay(InitialWeek, directions[..|directions| - 1]), directions[|directions| - 1]);
    }
  }

  /** The week after following the directions in order. */
  function Replay(week: int, directions: seq<Direction>): int
    decreases |directions|
  {
    if directions == [] then week
    else Navigated(Replay(week, directions[..|directions| - 1]), directions[|directions| - 1])
  }

  /** The screen's state: the day the displayed week starts on. */
  class GeneralScheduleScreen {
    var currentWeek: int

    constructor ()
      ensures currentWeek == InitialWeek
    {
      currentWeek := InitialWeek;
    }

    /** `navigateWeek`: exactly seven days forward or back. */
    method NavigateWeek(direction: Direction)
      modifies this
      ensures currentWeek == Navigated(old(currentWeek), direction)
      ensures currentWeek - old(currentWeek) == (if direction == Next then 7 else -7)
    {
      var newDate := currentWeek;
      newDate := newDate + (if direction == Next then 7 else -7);
      currentWeek := newDate;
    }
  }
}
