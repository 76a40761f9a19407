/**
 * app/hooks/useShifts.ts: the fetched shifts are grouped into per-day buckets,
 * a seven-entry week is laid over those buckets, and the days that have work
 * are kept in order.  A bucket is keyed by the shift's own day string and a
 * week entry by the canonical key of its day, so a stored canonical day meets
 * its entry exactly.
 */
module ShiftHooks {
  import opened Wrappers
  import opened Text
  import opened DateUtils
  import opened Schema
  import opened Sequences
  import opened Shifts

  /** One day of the displayed week and the shifts fetched for it. */
  datatype WeekDay<T> = WeekDay(date: int, dateKey: string, dayShifts: seq<T>)

  function ShiftDay(n: NamedShift): string { n.day }
  function SummaryDay(s: ShiftSummary): string { s.day }

  /** `grouped` holds a bucket for each day of s, and that bucket is the day's shifts of s in order. */
  ghost predicate Groups<T>(grouped: map<string, seq<T>>, s: seq<T>, day: T -> string) {
    && (forall k :: k in grouped <==> FilterKey(s, day, k) != [])
    && (forall k :: k in grouped ==> grouped[k] == FilterKey(s, day, k))
  }

  /** Pushing x onto the bucket of its day groups one more shift. */
  lemma GroupStep<T>(grouped: map<string, seq<T>>, s: seq<T>, x: T, day: T -> string)
    requires Groups(grouped, s, day)
    ensures Groups(grouped[day(x) := (if day(x) in grouped then grouped[day(x)] else []) + [x]], s + [x], day)
  {
    forall k ensures FilterKey(s + [x], day, k) == FilterKey(s, day, k) + (if day(x) == k then [x] else []) {
      FilterKeySnoc(s, x, day, k);
    }
  }

  /** Opening an empty bucket when needed and then pushing is one update of the map. */
  lemma PushOnto<T>(before: map<string, seq<T>>, withBucket: map<string, seq<T>>, k: string, x: T)
    requires withBucket == (if k in before then before else before[k := []])
    ensures withBucket[k := withBucket[k] + [x]] == before[k := (if k in before then before[k] else []) + [x]]
  {
  }

  /**
   * The `groupedShifts` memo: nothing while the query is loading; otherwise each
   * shift is pushed onto the bucket of its day, so each bucket holds that day's
   * shifts in fetch order and no bucket is empty.
   */
  method GroupByDay<T>(shifts: Option<seq<T>>, day: T -> string) returns (grouped: map<string, seq<T>>)
    ensures shifts.None? ==> grouped == map[]
    ensures shifts.Some? ==> Groups(grouped, shifts.value, day)
  {
    grouped := map[];
    if shifts.None? {
      return;
    }
    var s := shifts.value;
    var i := 0;
    while i < |s|
      invariant 0 <= i <= |s|
      invariant Groups(grouped, s[..i], day)
    {
      var shift := s[i];
      var dateKey := day(shift);
      GroupStep(grouped, s[..i], shift, day);
      ghost var before := grouped;
      if dateKey !in grouped {
        grouped := grouped[dateKey := []];
      }
      ghost var withBucket := grouped;
      grouped := grouped[dateKey := grouped[dateKey] + [shift]];
      PushOnto(before, withBucket, dateKey, shift);
      assert s[..i + 1] == s[..i] + [shift];
      i := i + 1;
    }
    assert s[..|s|] == s;
  }

  /** The total size of the buckets of the keys ks. */
  function TotalSize<T>(s: seq<T>, key: T -> string, ks: seq<string>): nat {
    if ks == [] then 0 else |FilterKey(s, key, ks[0])| + TotalSize(s, key, ks[1..])
  }

  predicate Distinct(ks: seq<string>) {
    forall i, j :: 0 <= i < j < |ks| ==> ks[i] != ks[j]
  }

  lemma {:induction false} TotalSizeCons<T>(s: seq<T>, key: T -> string, ks: seq<string>)
    requires s != [] && Distinct(ks)
    ensures TotalSize(s, key, ks) == TotalSize(s[1..], key, ks) + (if key(s[0]) in ks then 1 else 0)
  {
    if ks != [] {
      TotalSizeCons(s, key, ks[1..]);
      assert ks == [ks[0]] + ks[1..];
      if key(s[0]) == ks[0] {
        assert key(s[0]) !in ks[1..];
      }
    }
  }

  /** Every shift lies in exactly one bucket, so over all its days the bucket sizes add up to the number of shifts. */
  lemma {:induction false} BucketSizes<T>(s: seq<T>, key: T -> string, ks: seq<string>)
    requires Distinct(ks)
    requires forall i :: 0 <= i < |s| ==> key(s[i]) in ks
    ensures TotalSize(s, key, ks) == |s|
  {
    if s == [] {
      EmptyTotal(key, ks);
    } else {
      TotalSizeCons(s, key, ks);
      BucketSizes(s[1..], key, ks);
    }
  }

  lemma {:induction false} EmptyTotal<T>(key: T -> string, ks: seq<string>)
    ensures TotalSize([], key, ks) == 0
  {
    if ks != [] {
      EmptyTotal(key, ks[1..]);
    }
  }

  /** `groupedShifts[dateKey] || []`: the bucket of a day, or no shifts. */
  function Bucket<T>(grouped: map<string, seq<T>>, dateKey: string): seq<T> {
    if dateKey in grouped then grouped[dateKey] else []
  }

  /** The entry of day n: its key and its bucket. */
  function DayEntry<T>(n: int, grouped: map<string, seq<T>>): (e: WeekDay<T>)
    ensures e.date == n && e.dateKey == DayKey(e.date) && e.dayShifts == Bucket(grouped, e.dateKey)
  {
    WeekDay(n, DayKey(n), Bucket(grouped, DayKey(n)))
  }

  /** The day numbers of the seven days from `start`. */
  function SevenDays(start: int): (days: seq<int>)
    ensures |days| == 7 && forall i :: 0 <= i < 7 ==> days[i] == start + i
  {
    seq(7, i requires 0 <= i < 7 => start + i)
  }

  /** The `weekDays` memo: seven consecutive days from `start`, each with its key and its bucket. */
  function WeekDays<T>(start: int, grouped: map<string, seq<T>>): (r: seq<WeekDay<T>>)
    ensures |r| == 7
    ensures forall i :: 0 <= i < 7 ==> r[i].date == start + i
    ensures forall i :: 0 <= i < 7 ==> r[i].dateKey == DayKey(r[i].date)
    ensures forall i :: 0 <= i < 7 ==> r[i].dayShifts == Bucket(grouped, r[i].dateKey)
  {
    Map(SevenDays(start), (n: int) => DayEntry(n, grouped))
  }

  /** Over a grouping of s, the entry of each day holds exactly that day's shifts of s, in fetch order. */
  lemma WeekDaysOfGrouping<T>(start: int, s: seq<T>, day: T -> string, grouped: map<string, seq<T>>)
    requires Groups(grouped, s, day)
    ensures forall i :: 0 <= i < 7 ==>
      WeekDays(start, grouped)[i].dayShifts == FilterKey(s, day, WeekDays(start, grouped)[i].dateKey)
  {
  }

  /** While loading there is no bucket, so every entry of the week is empty. */
  lemma WeekDaysLoading<T>(start: int, grouped: map<string, seq<T>>)
    requires grouped == map[]
    ensures forall i :: 0 <= i < 7 ==> WeekDays(start, grouped)[i].dayShifts == []
  {
  }

  /** `daysWithTasks`: the week entries that have shifts, in week order. */
  function DaysWithTasks<T>(weekDays: seq<WeekDay<T>>): (r: seq<WeekDay<T>>)
    ensures |r| <= |weekDays|
    ensures forall i :: 0 <= i < |r| ==> r[i].dayShifts != []
  {
    Filter(weekDays, (w: WeekDay<T>) => |w.dayShifts| > 0)
  }

  /** Exactly the entries with shifts are kept, and they keep the order of their days. */
  lemma DaysWithTasksSpec<T>(weekDays: seq<WeekDay<T>>, w: WeekDay<T>)
    requires forall j, k :: 0 <= j < k < |weekDays| ==> weekDays[j].date < weekDays[k].date
    ensures w in DaysWithTasks(weekDays) <==> w in weekDays && w.dayShifts != []
    ensures forall j, k :: 0 <= j < k < |DaysWithTasks(weekDays)| ==>
      DaysWithTasks(weekDays)[j].date < DaysWithTasks(weekDays)[k].date
  {
    var p := (w: WeekDay<T>) => |w.dayShifts| > 0;
    FilterMember(weekDays, p, w);
    FilterIncreasing(weekDays, p, (w: WeekDay<T>) => w.date);
  }

  /** The week's entries are in strictly increasing day order. */
  lemma WeekDaysIncreasing<T>(start: int, grouped: map<string, seq<T>>)
    ensures forall j, k :: 0 <= j < k < |WeekDays(start, grouped)| ==>
      WeekDays(start, grouped)[j].date < WeekDays(start, grouped)[k].date
  {
  }

  /** Lines 12-13: the query bounds are the two halves of `dateRange`, the Monday and the Sunday key. */
  function QueryBounds(today: int, weekOffset: int): (bounds: (string, string))
    ensures var r := GetWeekRange(today, weekOffset);
      bounds == (DayKey(r.start), DayKey(r.end))
  {
    var weekRange := GetWeekRange(today, weekOffset);
    DateRangeHalves(today, weekOffset);
    var parts := Split(weekRange.dateRange, " - ");
    (parts[0], parts[1])
  }

  /** What `useShifts` returns; `shifts` is the query result, None while it is loading. */
  datatype ShiftsHook = ShiftsHook(
    shifts: Option<seq<NamedShift>>, weekDays: seq<WeekDay<NamedShift>>, daysWithTasks: seq<WeekDay<NamedShift>>,
    weekRange: WeekRange, isLoading: bool)

  /** `useShifts(weekOffset)` for a given today and a given result of `getShiftsByDateRange(QueryBounds(..))`. */
  method UseShifts(today: int, weekOffset: int, fetched: Option<seq<NamedShift>>) returns (hook: ShiftsHook)
    ensures hook.weekRange == GetWeekRange(today, weekOffset) && hook.shifts == fetched
    ensures hook.isLoading <==> fetched.None?
    ensures |hook.weekDays| == 7
    ensures forall i :: 0 <= i < 7 ==> hook.weekDays[i].date == hook.weekRange.start + i
    ensures forall i :: 0 <= i < 7 ==> hook.weekDays[i].dateKey == DayKey(hook.weekDays[i].date)
    ensures fetched.None? ==> forall i :: 0 <= i < 7 ==> hook.weekDays[i].dayShifts == []
    ensures fetched.Some? ==> forall i :: 0 <= i < 7 ==>
      hook.weekDays[i].dayShifts == FilterKey(fetched.value, ShiftDay, hook.weekDays[i].dateKey)
    ensures hook.daysWithTasks == DaysWithTasks(hook.weekDays)
  {
    var weekRange := GetWeekRange(today, weekOffset);
    var groupedShifts := GroupByDay(fetched, ShiftDay);
    var weekDays := WeekDays(weekRange.start, groupedShifts);
    if fetched.Some? {
      WeekDaysOfGrouping(weekRange.start, fetched.value, ShiftDay, groupedShifts);
    } else {
      WeekDaysLoading(weekRange.start, groupedShifts);
    }
    hook := ShiftsHook(fetched, weekDays, DaysWithTasks(weekDays), weekRange, fetched.None?);
  }

  /**
   * With the store's answer to the query, the entry of a day of the week holds
   * exactly the stored shifts dated that day, named as `getShiftsByDateRange` names them.
   */
  lemma WeekBucketOfStore(t: Tables, a: int, b: int, n: int, x: NamedShift)
    requires WellFormed(t)
    requires FourDigitYear(a) && FourDigitYear(b) && FourDigitYear(n) && a <= n <= b
    ensures x in FilterKey(GetShiftsByDateRange(t, DayKey(a), DayKey(b)), ShiftDay, DayKey(n)) <==>
      && x.id in t.shifts
      && t.shifts[x.id].day == DayKey(n)
      && x == Named(t.users, Doc(x.id, t.shifts[x.id]), "Unknown Member")
    ensures var bucket := FilterKey(GetShiftsByDateRange(t, DayKey(a), DayKey(b)), ShiftDay, DayKey(n));
      forall j, k :: 0 <= j < k < |bucket| ==> bucket[j].id != bucket[k].id
  {
    FilterKeyDistinct(GetShiftsByDateRange(t, DayKey(a), DayKey(b)), ShiftDay, DayKey(n), NamedId);
    FilterKeyMember(GetShiftsByDateRange(t, DayKey(a), DayKey(b)), ShiftDay, DayKey(n), x);
    GetShiftsByDateRangeMember(t, DayKey(a), DayKey(b), x);
    DateRangeOfDays(a, b, n);
  }

  /** What `useEmployeeShifts` returns. */
  datatype EmployeeShiftsHook = EmployeeShiftsHook(
    shifts: Option<seq<ShiftSummary>>, groupedShifts: map<string, seq<ShiftSummary>>, isLoading: bool)

  /** `useEmployeeShifts(employeeId)` for a given result of `getShiftsByEmployee`. */
  method UseEmployeeShifts(fetched: Option<seq<ShiftSummary>>) returns (hook: EmployeeShiftsHook)
    ensures hook.shifts == fetched
    ensures hook.isLoading <==> fetched.None?
    ensures fetched.None? ==> hook.groupedShifts == map[]
    ensures fetched.Some? ==> Groups(hook.groupedShifts, fetched.value, SummaryDay)
  {
    var groupedShifts := GroupByDay(fetched, SummaryDay);
    hook := EmployeeShiftsHook(fetched, groupedShifts, fetched.None?);
  }

  /** Over the store's answer, the bucket of a day holds exactly the employee's shifts on that day. */
  lemma EmployeeBucketOfStore(t: Tables, employeeId: nat, k: string, x: ShiftSummary)
    requires WellFormed(t)
    ensures x in FilterKey(GetShiftsByEmployee(t, employeeId), SummaryDay, k) <==>
      && x.id in t.shifts
      && t.shifts[x.id].employeeId == employeeId
      && t.shifts[x.id].day == k
      && x == Summary(Doc(x.id, t.shifts[x.id]))
  {
    FilterKeyMember(GetShiftsByEmployee(t, employeeId), SummaryDay, k, x);
    GetShiftsByEmployeeMember(t, employeeId, x);
  }
}
