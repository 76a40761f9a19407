/**
 * The read side of convex/shifts.ts: filter, map and sort pipelines over a
 * snapshot of the tables.  Each user lookup is a map lookup; a missing user
 * gives the fallback name of the query, and an empty name is replaced only by
 * the queries that use `||`.
 */
module Shifts {
  import opened Wrappers
  import opened Text
  import opened Calendar
  import opened DateUtils
  import opened Schema
  import opened Sequences

  /** Who is calling: the handlers use a hard-coded manager whose id matches no document. */
  datatype Caller = Caller(role: Role, id: Option<nat>)

  const MockUser: Caller := Caller(Manager, None)

  /** The row `getShifts` and `getShiftById` return (`createdAt` is not modelled). */
  datatype ShiftView = ShiftView(
    id: nat, employeeId: nat, userName: string, date: string, startTime: string, endTime: string, task: string)

  /** A shift document with its fields spread out and `employeeName` added. */
  datatype NamedShift = NamedShift(
    id: nat, employeeId: nat, day: string, startTime: string, endTime: string, task: string, employeeName: string)

  /** The projection `getShiftsByEmployee` returns. */
  datatype ShiftSummary = ShiftSummary(
    id: nat, employeeId: nat, day: string, startTime: string, endTime: string, task: string)

  /** `user?.name || fallback`: a missing user or an empty name gives the fallback. */
  function NameOr(users: map<nat, User>, id: nat, fallback: string): string {
    if id in users && users[id].name != "" then users[id].name else fallback
  }

  /** `employee?.name ?? fallback`: only a missing user gives the fallback. */
  function NameOrElse(users: map<nat, User>, id: nat, fallback: string): string {
    if id in users then users[id].name else fallback
  }

  function AllShifts(t: Tables): seq<Doc<Shift>> {
    Collect(t.shifts, t.nextShift)
  }

  predicate IsStored(t: Tables, d: Doc<Shift>) {
    d.id in t.shifts && t.shifts[d.id] == d.value
  }

  lemma AllShiftsMember(t: Tables, d: Doc<Shift>)
    requires WellFormed(t)
    ensures d in AllShifts(t) <==> IsStored(t, d)
  {
    CollectAll(t.shifts, t.nextShift);
  }

  /** A JavaScript string argument used as a condition: absent and "" are both false. */
  predicate Truthy(o: Option<string>) {
    o.Some? && o.value != ""
  }

  /** Lines 21-34: an employee sees their own shifts, a manager all or those of `userId`. */
  function SelectShifts(t: Tables, caller: Caller, userId: Option<nat>): seq<Doc<Shift>> {
    if caller.role == Employee then Filter(AllShifts(t), (d: Doc<Shift>) => Some(d.value.employeeId) == caller.id)
    else if userId.Some? then Filter(AllShifts(t), (d: Doc<Shift>) => d.value.employeeId == userId.value)
    else AllShifts(t)
  }

  /** Lines 39-41: inclusive bounds, compared as strings, each ignored when falsy. */
  predicate KeepDay(day: string, startDate: Option<string>, endDate: Option<string>) {
    && !(Truthy(startDate) && LexLess(day, startDate.value))
    && !(Truthy(endDate) && LexLess(endDate.value, day))
  }

  function DateFilter(rows: seq<Doc<Shift>>, startDate: Option<string>, endDate: Option<string>): seq<Doc<Shift>> {
    if Truthy(startDate) || Truthy(endDate) then Filter(rows, (d: Doc<Shift>) => KeepDay(d.value.day, startDate, endDate))
    else rows
  }

  function ToView(users: map<nat, User>, d: Doc<Shift>): (v: ShiftView)
    ensures v.id == d.id
  {
    ShiftView(d.id, d.value.employeeId, NameOr(users, d.value.employeeId, "Unknown"),
      d.value.day, d.value.startTime, d.value.endTime, d.value.task)
  }

  /** The handler of `getShifts` for a given caller. */
  function ShiftsFor(t: Tables, caller: Caller, startDate: Option<string>, endDate: Option<string>, userId: Option<nat>): (r: seq<ShiftView>)
    ensures SortedBy(r, (v: ShiftView) => v.date)
    ensures |r| == |DateFilter(SelectShifts(t, caller, userId), startDate, endDate)|
  {
    var rows := DateFilter(SelectShifts(t, caller, userId), startDate, endDate);
    SortBy(Map(rows, (d: Doc<Shift>) => ToView(t.users, d)), (v: ShiftView) => v.date)
  }

  /** `getShifts`: the current user is the hard-coded manager. */
  function GetShifts(t: Tables, startDate: Option<string>, endDate: Option<string>, userId: Option<nat>): (r: seq<ShiftView>)
    ensures SortedBy(r, (v: ShiftView) => v.date)
  {
    ShiftsFor(t, MockUser, startDate, endDate, userId)
  }

  /** Which shifts `getShifts` keeps: those of `userId` (or all), within the falsy-aware bounds. */
  predicate Listed(s: Shift, startDate: Option<string>, endDate: Option<string>, userId: Option<nat>) {
    (userId.None? || s.employeeId == userId.value) && KeepDay(s.day, startDate, endDate)
  }

  lemma DateFilterMember(rows: seq<Doc<Shift>>, startDate: Option<string>, endDate: Option<string>, d: Doc<Shift>)
    ensures d in DateFilter(rows, startDate, endDate) <==> d in rows && KeepDay(d.value.day, startDate, endDate)
  {
    if Truthy(startDate) || Truthy(endDate) {
      FilterMember(rows, (d: Doc<Shift>) => KeepDay(d.value.day, startDate, endDate), d);
    }
  }

  /**
   * `getShifts` returns one row per stored shift it keeps, each with its own
   * fields and the user's name or "Unknown".
   */
  lemma GetShiftsMember(t: Tables, startDate: Option<string>, endDate: Option<string>, userId: Option<nat>, v: ShiftView)
    requires WellFormed(t)
    ensures v in GetShifts(t, startDate, endDate, userId) <==>
      v.id in t.shifts && Listed(t.shifts[v.id], startDate, endDate, userId) && v == ToView(t.users, Doc(v.id, t.shifts[v.id]))
  {
    var sel := SelectShifts(t, MockUser, userId);
    var rows := DateFilter(sel, startDate, endDate);
    var f := (d: Doc<Shift>) => ToView(t.users, d);
    var d := Doc(v.id, if v.id in t.shifts then t.shifts[v.id] else Shift(0, "", "", "", ""));
    SortMember(Map(rows, f), (v: ShiftView) => v.date, v);
    MapMembers(rows, f, v);
    DateFilterMember(sel, startDate, endDate, d);
    AllShiftsMember(t, d);
    if userId.Some? {
      FilterMember(AllShifts(t), (d: Doc<Shift>) => d.value.employeeId == userId.value, d);
    }
    if v in Map(rows, f) {
      var x :| x in rows && v == f(x);
      DateFilterMember(sel, startDate, endDate, x);
      AllShiftsMember(t, x);
      if userId.Some? {
        FilterMember(AllShifts(t), (d: Doc<Shift>) => d.value.employeeId == userId.value, x);
      }
      assert x == d;
    }
  }

  /** An employee caller would only ever see shifts assigned to them. */
  lemma EmployeeSeesOwn(t: Tables, id: nat, startDate: Option<string>, endDate: Option<string>, userId: Option<nat>, v: ShiftView)
    requires v in ShiftsFor(t, Caller(Employee, Some(id)), startDate, endDate, userId)
    ensures v.employeeId == id
  {
    var caller := Caller(Employee, Some(id));
    var sel := SelectShifts(t, caller, userId);
    var rows := DateFilter(sel, startDate, endDate);
    var f := (d: Doc<Shift>) => ToView(t.users, d);
    SortMember(Map(rows, f), (v: ShiftView) => v.date, v);
    MapMembers(rows, f, v);
    var x :| x in rows && v == f(x);
    DateFilterMember(sel, startDate, endDate, x);
    FilterMember(AllShifts(t), (d: Doc<Shift>) => Some(d.value.employeeId) == caller.id, x);
  }

  /** `getShiftById`, for a given caller. */
  function ShiftByIdFor(t: Tables, caller: Caller, shiftId: nat): (r: Result<ShiftView>)
    ensures r.Ok? ==> shiftId in t.shifts && r.value == ToView(t.users, Doc(shiftId, t.shifts[shiftId]))
    ensures shiftId !in t.shifts ==> r == Err(Thrown("Shift not found"))
    ensures r.Err? && shiftId in t.shifts ==> r == Err(Thrown("Access denied"))
    ensures shiftId in t.shifts ==>
      (r.Err? <==> caller.role == Employee && caller.id != Some(t.shifts[shiftId].employeeId))
  {
    if shiftId !in t.shifts then Err(Thrown("Shift not found"))
    else if caller.role == Employee && Some(t.shifts[shiftId].employeeId) != caller.id then Err(Thrown("Access denied"))
    else Ok(ToView(t.users, Doc(shiftId, t.shifts[shiftId])))
  }

  /** `getShiftById`: with the hard-coded manager, it fails only for a missing id. */
  function GetShiftById(t: Tables, shiftId: nat): (r: Result<ShiftView>)
    ensures r.Ok? <==> shiftId in t.shifts
    ensures r.Ok? ==> r.value == ToView(t.users, Doc(shiftId, t.shifts[shiftId]))
    ensures r.Err? ==> r.failure == Thrown("Shift not found")
  {
    ShiftByIdFor(t, MockUser, shiftId)
  }

  function Named(users: map<nat, User>, d: Doc<Shift>, fallback: string): (n: NamedShift)
    ensures n.id == d.id && n.day == d.value.day
  {
    NamedShift(d.id, d.value.employeeId, d.value.day, d.value.startTime, d.value.endTime, d.value.task,
      NameOrElse(users, d.value.employeeId, fallback))
  }

  function NamedId(n: NamedShift): int { n.id }

  /** A `by_day` index range scan: the shifts whose day passes the test, ordered by day. */
  function DayRange(t: Tables, inRange: string -> bool, fallback: string): (r: seq<NamedShift>)
    ensures SortedBy(r, (n: NamedShift) => n.day)
    ensures DistinctBy(r, NamedId)
  {
    var p := (d: Doc<Shift>) => inRange(d.value.day);
    var rows := Filter(AllShifts(t), p);
    var named := Map(rows, (d: Doc<Shift>) => Named(t.users, d, fallback));
    CollectSpec(t.shifts, t.nextShift);
    FilterIncreasing(AllShifts(t), p, (d: Doc<Shift>) => d.id);
    assert DistinctBy(named, NamedId);
    SortDistinct(named, (n: NamedShift) => n.day, NamedId);
    SortBy(named, (n: NamedShift) => n.day)
  }

  lemma DayRangeMember(t: Tables, inRange: string -> bool, fallback: string, n: NamedShift)
    requires WellFormed(t)
    ensures n in DayRange(t, inRange, fallback) <==>
      n.id in t.shifts && inRange(t.shifts[n.id].day) && n == Named(t.users, Doc(n.id, t.shifts[n.id]), fallback)
  {
    var p := (d: Doc<Shift>) => inRange(d.value.day);
    var rows := Filter(AllShifts(t), p);
    var f := (d: Doc<Shift>) => Named(t.users, d, fallback);
    SortMember(Map(rows, f), (n: NamedShift) => n.day, n);
    MapMembers(rows, f, n);
    if n in Map(rows, f) {
      var x :| x in rows && n == f(x);
      FilterMember(AllShifts(t), p, x);
      AllShiftsMember(t, x);
    }
    if n.id in t.shifts && inRange(t.shifts[n.id].day) && n == Named(t.users, Doc(n.id, t.shifts[n.id]), fallback) {
      var d := Doc(n.id, t.shifts[n.id]);
      AllShiftsMember(t, d);
      FilterMember(AllShifts(t), p, d);
    }
  }

  /** Lines 124-129: `startDate <= day <= endDate` as strings. */
  predicate InClosedRange(day: string, startDate: string, endDate: string) {
    LexLe(startDate, day) && LexLe(day, endDate)
  }

  /** `getShiftsByDateRange`. */
  function GetShiftsByDateRange(t: Tables, startDate: string, endDate: string): (r: seq<NamedShift>)
    ensures SortedBy(r, (n: NamedShift) => n.day)
    ensures forall j, k :: 0 <= j < k < |r| ==> r[j].id != r[k].id
  {
    DayRange(t, (day: string) => InClosedRange(day, startDate, endDate), "Unknown Member")
  }

  /**
   * Exactly the shifts with startDate <= day <= endDate, all fields copied, with
   * the employee's name or "Unknown Member".
   */
  lemma GetShiftsByDateRangeMember(t: Tables, startDate: string, endDate: string, n: NamedShift)
    requires WellFormed(t)
    ensures n in GetShiftsByDateRange(t, startDate, endDate) <==>
      && n.id in t.shifts
      && InClosedRange(t.shifts[n.id].day, startDate, endDate)
      && n == Named(t.users, Doc(n.id, t.shifts[n.id]), "Unknown Member")
  {
    DayRangeMember(t, (day: string) => InClosedRange(day, startDate, endDate), "Unknown Member", n);
  }

  /** For canonical day keys the string range is the range of days, ends included. */
  lemma DateRangeOfDays(a: int, b: int, m: int)
    requires FourDigitYear(a) && FourDigitYear(b) && FourDigitYear(m)
    ensures InClosedRange(DayKey(m), DayKey(a), DayKey(b)) <==> a <= m <= b
  {
    DayKeyOrder(a, m);
    DayKeyOrder(m, b);
  }

  function Summary(d: Doc<Shift>): (s: ShiftSummary)
    ensures s.id == d.id && s.employeeId == d.value.employeeId
  {
    ShiftSummary(d.id, d.value.employeeId, d.value.day, d.value.startTime, d.value.endTime, d.value.task)
  }

  /** `getShiftsByEmployee`: that employee's shifts, in creation order. */
  function GetShiftsByEmployee(t: Tables, employeeId: nat): (r: seq<ShiftSummary>)
    ensures forall i :: 0 <= i < |r| ==> r[i].employeeId == employeeId
  {
    var rows := Filter(AllShifts(t), (d: Doc<Shift>) => d.value.employeeId == employeeId);
    Map(rows, Summary)
  }

  /** Every shift of the employee appears, and the rows come in creation (id) order. */
  lemma GetShiftsByEmployeeSpec(t: Tables, employeeId: nat)
    requires WellFormed(t)
    ensures forall id :: id in t.shifts && t.shifts[id].employeeId == employeeId ==>
      Summary(Doc(id, t.shifts[id])) in GetShiftsByEmployee(t, employeeId)
    ensures forall j, k :: 0 <= j < k < |GetShiftsByEmployee(t, employeeId)| ==>
      GetShiftsByEmployee(t, employeeId)[j].id < GetShiftsByEmployee(t, employeeId)[k].id
  {
    var p := (d: Doc<Shift>) => d.value.employeeId == employeeId;
    var rows := Filter(AllShifts(t), p);
    CollectSpec(t.shifts, t.nextShift);
    FilterIncreasing(AllShifts(t), p, (d: Doc<Shift>) => d.id);
    forall id | id in t.shifts && t.shifts[id].employeeId == employeeId
      ensures Summary(Doc(id, t.shifts[id])) in GetShiftsByEmployee(t, employeeId)
    {
      var d := Doc(id, t.shifts[id]);
      AllShiftsMember(t, d);
      FilterMember(AllShifts(t), p, d);
      MapMembers(rows, Summary, Summary(d));
    }
  }

  /** A row is listed exactly when it is the summary of a stored shift of that employee. */
  lemma GetShiftsByEmployeeMember(t: Tables, employeeId: nat, x: ShiftSummary)
    requires WellFormed(t)
    ensures x in GetShiftsByEmployee(t, employeeId) <==>
      x.id in t.shifts && t.shifts[x.id].employeeId == employeeId && x == Summary(Doc(x.id, t.shifts[x.id]))
  {
    var p := (d: Doc<Shift>) => d.value.employeeId == employeeId;
    var rows := Filter(AllShifts(t), p);
    MapMembers(rows, Summary, x);
    if x in Map(rows, Summary) {
      var d :| d in rows && x == Summary(d);
      FilterMember(AllShifts(t), p, d);
      AllShiftsMember(t, d);
    }
    if x.id in t.shifts && t.shifts[x.id].employeeId == employeeId && x == Summary(Doc(x.id, t.shifts[x.id])) {
      GetShiftsByEmployeeSpec(t, employeeId);
    }
  }

  /** Milliseconds in a day, and the largest time value a JavaScript `Date` holds. */
  const MsPerDay: int := 86400000
  const MaxTimeValue: int := 8640000000000000

  /** The year as `toISOString` writes it: four digits, or a sign and six digits outside 0..9999. */
  function IsoYear(y: int): (s: string)
    ensures 0 <= y <= 9999 ==> |s| == 4 && AllDigits(s)
  {
    if 0 <= y <= 9999 then FixedDigits(y, 4)
    else if y < 0 then "-" + FixedDigits(-y, 6)
    else "+" + FixedDigits(y, 6)
  }

  /** The date part of `toISOString()` for a UTC day number. */
  function IsoDate(n: int): string {
    var d := CivilFromDays(n);
    IsoYear(d.year) + "-" + FixedDigits(d.month, 2) + "-" + FixedDigits(d.day, 2)
  }

  lemma IsoOfDate(d: Date)
    requires Valid(d) && FourDigits(d)
    ensures IsoYear(d.year) + "-" + FixedDigits(d.month, 2) + "-" + FixedDigits(d.day, 2) == KeyOf(d)
  {
    KeyParts(d);
  }

  /** For years 1000 to 9999 the ISO date is the same string as the canonical day key. */
  lemma IsoDateIsDayKey(n: int)
    requires FourDigitYear(n)
    ensures IsoDate(n) == DayKey(n)
  {
    IsoOfDate(CivilFromDays(n));
  }

  /** `getDayString(new Date(ms))`: the UTC date, or the RangeError of an invalid date. */
  function GetDayString(ms: int): (r: Result<string>)
    ensures r.Ok? <==> -MaxTimeValue <= ms <= MaxTimeValue
    ensures r.Ok? ==> r.value == IsoDate(ms / MsPerDay)
    ensures r.Err? ==> r.failure == Thrown("Invalid time value")
  {
    if ms < -MaxTimeValue || ms > MaxTimeValue then Err(Thrown("Invalid time value"))
    else Ok(IsoDate(ms / MsPerDay))
  }

  /** Lines 250-256: `start <= day < end` as strings. */
  predicate InHalfOpenRange(day: string, startDate: string, endDate: string) {
    LexLe(startDate, day) && LexLess(day, endDate)
  }

  /** `getShiftsForWeek`: the window from the start's UTC date to the date seven days on, end excluded. */
  function GetShiftsForWeek(t: Tables, startOfWeekMs: int): (r: Result<seq<NamedShift>>)
    ensures r.Ok? <==> -MaxTimeValue <= startOfWeekMs && startOfWeekMs + 7 * MsPerDay <= MaxTimeValue
    ensures r.Ok? ==> SortedBy(r.value, (n: NamedShift) => n.day)
    ensures r.Ok? ==> forall j, k :: 0 <= j < k < |r.value| ==> r.value[j].id != r.value[k].id
  {
    var endOfWeekMs := startOfWeekMs + 7 * MsPerDay;
    match (GetDayString(startOfWeekMs), GetDayString(endOfWeekMs))
    case (Ok(startDate), Ok(endDate)) => Ok(WeekRows(t, startDate, endDate))
    case (Err(e), _) => Err(e)
    case (_, Err(e)) => Err(e)
  }

  /** The rows of a week once its two date strings are known. */
  function WeekRows(t: Tables, startDate: string, endDate: string): (r: seq<NamedShift>)
    ensures SortedBy(r, (n: NamedShift) => n.day)
    ensures forall j, k :: 0 <= j < k < |r| ==> r[j].id != r[k].id
  {
    DayRange(t, (day: string) => InHalfOpenRange(day, startDate, endDate), "Unknown User")
  }

  lemma WeekRowsMember(t: Tables, startDate: string, endDate: string, x: NamedShift)
    requires WellFormed(t)
    ensures x in WeekRows(t, startDate, endDate) <==>
      && x.id in t.shifts
      && InHalfOpenRange(t.shifts[x.id].day, startDate, endDate)
      && x == Named(t.users, Doc(x.id, t.shifts[x.id]), "Unknown User")
  {
    DayRangeMember(t, (day: string) => InHalfOpenRange(day, startDate, endDate), "Unknown User", x);
  }

  /** In range, the handler returns the rows between the ISO dates of its start day n and of n + 7. */
  lemma ShiftsForWeekIs(t: Tables, startOfWeekMs: int, n: int)
    requires -MaxTimeValue <= startOfWeekMs && startOfWeekMs + 7 * MsPerDay <= MaxTimeValue
    requires n == startOfWeekMs / MsPerDay
    ensures GetShiftsForWeek(t, startOfWeekMs) == Ok(WeekRows(t, IsoDate(n), IsoDate(n + 7)))
  {
    DayAfterWeek(startOfWeekMs);
    DayStringOfDay(startOfWeekMs, n);
    DayStringOfDay(startOfWeekMs + 7 * MsPerDay, n + 7);
    WeekOfDayStrings(t, startOfWeekMs, IsoDate(n), IsoDate(n + 7));
  }

  lemma DayStringOfDay(ms: int, n: int)
    requires -MaxTimeValue <= ms <= MaxTimeValue && n == ms / MsPerDay
    ensures GetDayString(ms) == Ok(IsoDate(n))
  {
  }

  lemma WeekOfDayStrings(t: Tables, startOfWeekMs: int, startDate: string, endDate: string)
    requires GetDayString(startOfWeekMs) == Ok(startDate)
    requires GetDayString(startOfWeekMs + 7 * MsPerDay) == Ok(endDate)
    ensures GetShiftsForWeek(t, startOfWeekMs) == Ok(WeekRows(t, startDate, endDate))
  {
  }

  lemma DayAfterWeek(ms: int)
    ensures (ms + 7 * MsPerDay) / MsPerDay == ms / MsPerDay + 7
  {
  }

  /** For canonical day keys the half-open window of the start day and the day seven on is the week. */
  lemma WeekWindowOfDays(n: int, m: int)
    requires FourDigitYear(n) && FourDigitYear(n + 7) && FourDigitYear(m)
    ensures InHalfOpenRange(DayKey(m), IsoDate(n), IsoDate(n + 7)) <==> n <= m < n + 7
  {
    IsoDateIsDayKey(n);
    IsoDateIsDayKey(n + 7);
    DayKeyOrder(n, m);
    DayKeyOrder(m, n + 7);
  }

  /** The rows of the week of days n .. n + 6 hold the shift on day m exactly when m is one of those days. */
  lemma WeekRowsOfDays(t: Tables, n: int, m: int, x: NamedShift)
    requires WellFormed(t)
    requires FourDigitYear(n) && FourDigitYear(n + 7) && FourDigitYear(m)
    requires x.id in t.shifts && t.shifts[x.id].day == DayKey(m)
    requires x == Named(t.users, Doc(x.id, t.shifts[x.id]), "Unknown User")
    ensures x in WeekRows(t, IsoDate(n), IsoDate(n + 7)) <==> n <= m < n + 7
  {
    WeekRowsMember(t, IsoDate(n), IsoDate(n + 7), x);
    WeekWindowOfDays(n, m);
  }

  /**
   * For a week starting on day n (years 1000 to 9999), the shift on day m is
   * returned exactly when n <= m < n + 7, with the name or "Unknown User".
   */
  lemma ShiftsForWeekDays(t: Tables, startOfWeekMs: int, n: int, m: int, x: NamedShift)
    requires WellFormed(t)
    requires -MaxTimeValue <= startOfWeekMs && startOfWeekMs + 7 * MsPerDay <= MaxTimeValue
    requires n == startOfWeekMs / MsPerDay
    requires FourDigitYear(n) && FourDigitYear(n + 7) && FourDigitYear(m)
    requires x.id in t.shifts && t.shifts[x.id].day == DayKey(m)
    requires x == Named(t.users, Doc(x.id, t.shifts[x.id]), "Unknown User")
    ensures x in GetShiftsForWeek(t, startOfWeekMs).value <==> n <= m < n + 7
  {
    ShiftsForWeekIs(t, startOfWeekMs, n);
    WeekRowsOfDays(t, n, m, x);
  }
}
