/**
 * app/index.tsx: the root component. It keeps the signed-in user and the
 * current view, builds one schedule per weekday name for the team screen and
 * routes between the four screens.
 */
module AppIndex {
  import opened Wrappers
  import opened Text
  import opened Calendar
  import opened DateUtils
  import opened Sequences
  import opened Shifts
  import opened Users
  import opened Views
  import opened ShiftHooks
  import opened GeneralSchedule

  /** The seven weekday names the root component keys its schedules by. */
  const Days: seq<string> := ["Понедельник", "Вторник", "Среда", "Четверг", "Пятница", "Суббота", "Воскресенье"]

  /**
   * The `dailySchedules` list: one entry per weekday name, holding what the
   * `getShiftsByDay` query gave for that name (`fetch`, since the query is a
   * call to the server), or the empty list while it gives nothing.
   */
  function DailySchedules(fetch: string -> Option<seq<NamedShift>>): (ds: seq<DailySchedule>)
    ensures |ds| == 7
    ensures forall i :: 0 <= i < 7 ==> ds[i].day == Days[i] && ds[i].shifts == OptionOr(fetch(Days[i]), [])
  {
    Map(Days, (day: string) => DailySchedule(day, OptionOr(fetch(day), [])))
  }

  /** The schedules handed to the add-shift screen: every weekday name with no shifts. */
  function AddShiftSchedules(): (ds: seq<DailySchedule>)
    ensures |ds| == 7
    ensures forall i :: 0 <= i < 7 ==> ds[i].day == Days[i] && ds[i].shifts == []
  {
    Map(Days, (day: string) => DailySchedule(day, []))
  }

  class App {
    var loggedInUser: Option<UserView>
    var currentView: AppView

    /** Lines 27-28: on the login view, nobody signed in. */
    constructor ()
      ensures loggedInUser == None && currentView == LoginView
    {
      loggedInUser := None;
      currentView := LoginView;
    }

    /** `handleLogin`: store the user and route them by role. */
    method HandleLogin(user: UserView)
      modifies this
      ensures loggedInUser == Some(user) && currentView == HomeView(user.role)
      ensures Screen() != UnauthorizedScreen
    {
      loggedInUser := Some(user);
      currentView := HomeView(user.role);
    }

    /** `handleLogout`. */
    method HandleLogout()
      modifies this
      ensures loggedInUser == None && currentView == LoginView
      ensures Screen() == LoginScreen
    {
      loggedInUser := None;
      currentView := LoginView;
    }

    /** The screen `renderView` draws for the current state. */
    function Screen(): Views.Screen
      reads this
    {
      RenderView(currentView, if loggedInUser.Some? then Some(loggedInUser.value.role) else None)
    }
  }

  /** Every day key starts with a digit or, for years before zero, a minus sign. */
  lemma KeyHead(d: Date)
    requires Valid(d)
    ensures |KeyOf(d)| > 0 && (KeyOf(d)[0] == '-' || IsDigit(KeyOf(d)[0]))
  {
    var y := IntToString(d.year);
    IntToStringHead(d.year);
    HeadOfFields(y, Pad2(d.month), Pad2(d.day));
    assert KeyOf(d) == y + "-" + Pad2(d.month) + "-" + Pad2(d.day);
  }

  lemma IntToStringHead(i: int)
    ensures |IntToString(i)| > 0 && (IntToString(i)[0] == '-' || IsDigit(IntToString(i)[0]))
  {
    if i < 0 {
      assert IntToString(i) == "-" + NatToString(-i);
    } else {
      assert IntToString(i) == NatToString(i);
    }
  }

  lemma HeadOfFields(y: string, m: string, dd: string)
    requires |y| > 0
    ensures (y + "-" + m + "-" + dd)[0] == y[0]
  {
  }

  /** Every weekday name starts with a Cyrillic capital. */
  lemma DayNameHead(i: int)
    requires 0 <= i < 7
    ensures |Days[i]| > 0 && Days[i][0] != '-' && !IsDigit(Days[i][0])
  {
    if i == 0 {
      assert Days[0] == "Понедельник";
    } else if i == 1 {
      assert Days[1] == "Вторник";
    } else if i == 2 {
      assert Days[2] == "Среда";
    } else if i == 3 {
      assert Days[3] == "Четверг";
    } else if i == 4 {
      assert Days[4] == "Пятница";
    } else if i == 5 {
      assert Days[5] == "Суббота";
    } else {
      assert Days[6] == "Воскресенье";
    }
  }

  /** No weekday name starts the way a day key does. */
  lemma DayNameIsNoKeyOf(d: Date, i: int)
    requires Valid(d) && 0 <= i < 7
    ensures Days[i] != KeyOf(d)
  {
    KeyHead(d);
    DayNameHead(i);
  }

  /** No weekday name is the key of any day. */
  lemma DayNameIsNoKey(date: int, i: int)
    requires 0 <= i < 7
    ensures Days[i] != FormatDateKey(date)
  {
    var d := CivilFromDays(date);
    DayNameIsNoKeyOf(d, i);
    assert FormatDateKey(date) == DayKey(date) == KeyOf(d);
  }

  /**
   * The team screen looks its cards up by `YYYY-MM-DD` key while the root
   * component keys its schedules by weekday name, so whatever the query gives,
   * no week ever has a shift shown.
   */
  lemma TeamWeekAlwaysEmpty(fetch: string -> Option<seq<NamedShift>>, m: map<string, seq<Entry>>, weekDates: seq<int>)
    requires Shows(m, DailySchedules(fetch))
    ensures !WeekHasShifts(m, weekDates)
    ensures RenderedDays(m, weekDates) == []
  {
    var ds := DailySchedules(fetch);
    forall i | 0 <= i < |weekDates|
      ensures !DayHasCards(m, weekDates[i])
    {
      var key := FormatDateKey(weekDates[i]);
      if key in m {
        var j := LastShown(ds, key).value;
        DayNameIsNoKey(weekDates[i], j);
      }
    }
    WeekHasShiftsSpec(m, weekDates);
    RenderedDaysEmpty(m, weekDates);
  }
}
