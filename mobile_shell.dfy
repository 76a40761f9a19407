/**
 * example_page.tsx: a self-contained shift editor over in-memory mock data.
 * The state is a list of named days, each holding an ordered list of shifts;
 * shifts are added, updated (possibly moving to another day) and deleted after
 * confirmation, and a signed-in member sees their own shifts flattened out.
 */
module Editor {
  import opened Wrappers
  import opened Text
  import opened Schema
  import opened Sequences
  import opened Views
  import Auth

  /** `Employee` of the mock data: ids are strings here. */
  datatype Staff = Staff(id: string, name: string, username: string, password: string, role: Role, avatarUrl: Option<string>)

  /** `Shift` of the mock data. */
  datatype ScheduledShift = ScheduledShift(id: string, employeeId: string, startTime: string, endTime: string, task: string)

  /** `Omit<Shift, "id">`: a shift before it is given an id. */
  datatype ShiftDraft = ShiftDraft(employeeId: string, startTime: string, endTime: string, task: string)

  /** `DailySchedule`: a day name and its shifts in order. */
  datatype DaySchedule = DaySchedule(day: string, shifts: seq<ScheduledShift>)

  /** `EditingShiftDetails` when not null. */
  datatype Editing = Editing(shift: ScheduledShift, day: string)

  /** The pending `shiftToDelete`. */
  datatype PendingDelete = PendingDelete(shiftId: string, day: string)

  /** `Shift & { day: string }`: a shift tagged with the day it sits in. */
  datatype TaggedShift = TaggedShift(shift: ScheduledShift, day: string)

  function WithId(draft: ShiftDraft, id: string): ScheduledShift {
    ScheduledShift(id, draft.employeeId, draft.startTime, draft.endTime, draft.task)
  }

  /** `shift${Date.now()}` for the clock reading `now`. */
  function ShiftId(now: int): string {
    "shift" + IntToString(now)
  }

  function ScheduleDays(schedules: seq<DaySchedule>): seq<string> {
    Map(schedules, (d: DaySchedule) => d.day)
  }

  function Ids(shifts: seq<ScheduledShift>): seq<string> {
    Map(shifts, (x: ScheduledShift) => x.id)
  }

  /** `shifts.some(s => s.id === id)`. */
  predicate HasId(shifts: seq<ScheduledShift>, id: string) {
    exists j :: 0 <= j < |shifts| && shifts[j].id == id
  }

  // ---------------------------------------------------------------------------
  // The new schedule values (pure map/filter/some/reduce)
  // ---------------------------------------------------------------------------

  /** The `handleAddShift` update: append to every day of that name, leave the rest. */
  function AppendToDay(schedules: seq<DaySchedule>, day: string, shift: ScheduledShift): (r: seq<DaySchedule>)
    ensures |r| == |schedules| && ScheduleDays(r) == ScheduleDays(schedules)
    ensures forall i :: 0 <= i < |r| && schedules[i].day != day ==> r[i] == schedules[i]
    ensures forall i :: 0 <= i < |r| && schedules[i].day == day ==> r[i].shifts == schedules[i].shifts + [shift]
  {
    Map(schedules, (d: DaySchedule) => if d.day == day then d.(shifts := d.shifts + [shift]) else d)
  }

  /** `shifts.filter(s => s.id !== id)`: everything but the shifts with that id, in order. */
  function WithoutId(shifts: seq<ScheduledShift>, id: string): (r: seq<ScheduledShift>)
    ensures forall x :: x in r <==> x in shifts && x.id != id
    ensures !HasId(r, id)
  {
    var keep := (x: ScheduledShift) => x.id != id;
    assert forall x :: x in Filter(shifts, keep) <==> x in shifts && x.id != id by {
      forall x ensures x in Filter(shifts, keep) <==> x in shifts && keep(x) {
        FilterMember(shifts, keep, x);
      }
    }
    Filter(shifts, keep)
  }

  /** Drop the shifts with that id from every day of that name (`confirmDeleteShift`, the first half of `handleUpdateShift`). */
  function RemoveFromDay(schedules: seq<DaySchedule>, day: string, id: string): (r: seq<DaySchedule>)
    ensures |r| == |schedules| && ScheduleDays(r) == ScheduleDays(schedules)
    ensures forall i :: 0 <= i < |r| && schedules[i].day != day ==> r[i] == schedules[i]
    ensures forall i :: 0 <= i < |r| && schedules[i].day == day ==> r[i].shifts == WithoutId(schedules[i].shifts, id)
  {
    Map(schedules, (d: DaySchedule) => if d.day == day then d.(shifts := WithoutId(d.shifts, id)) else d)
  }

  /**
   * The second half of `handleUpdateShift` on one day: replace the shifts with
   * the updated one's id in place, or append it when there is none. Either way
   * the updated shift is there afterwards and no id is dropped or duplicated.
   */
  function ReplaceOrAppend(shifts: seq<ScheduledShift>, updated: ScheduledShift): (r: seq<ScheduledShift>)
    ensures updated in r
    ensures HasId(shifts, updated.id) ==> |r| == |shifts|
    ensures HasId(shifts, updated.id) ==>
              forall j :: 0 <= j < |r| ==> r[j] == (if shifts[j].id == updated.id then updated else shifts[j])
    ensures !HasId(shifts, updated.id) ==> r == shifts + [updated]
    ensures Ids(r) == if HasId(shifts, updated.id) then Ids(shifts) else Ids(shifts) + [updated.id]
  {
    if HasId(shifts, updated.id) then
      var r := Map(shifts, (x: ScheduledShift) => if x.id == updated.id then updated else x);
      var j :| 0 <= j < |shifts| && shifts[j].id == updated.id;
      assert r[j] == updated;
      r
    else
      shifts + [updated]
  }

  /** Apply `ReplaceOrAppend` to every day of that name. */
  function UpsertInDay(schedules: seq<DaySchedule>, day: string, updated: ScheduledShift): (r: seq<DaySchedule>)
    ensures |r| == |schedules| && ScheduleDays(r) == ScheduleDays(schedules)
    ensures forall i :: 0 <= i < |r| && schedules[i].day != day ==> r[i] == schedules[i]
    ensures forall i :: 0 <= i < |r| && schedules[i].day == day ==> r[i].shifts == ReplaceOrAppend(schedules[i].shifts, updated)
  {
    Map(schedules, (d: DaySchedule) => if d.day == day then d.(shifts := ReplaceOrAppend(d.shifts, updated)) else d)
  }

  /**
   * The `handleUpdateShift` update: when the day changed the id leaves the
   * original day; in the newly selected day the shift replaces its old version
   * or is appended; every other day is untouched.
   */
  function UpdateSchedules(schedules: seq<DaySchedule>, updated: ScheduledShift, originalDay: string, newDay: string): (r: seq<DaySchedule>)
    ensures |r| == |schedules| && ScheduleDays(r) == ScheduleDays(schedules)
    ensures forall i :: 0 <= i < |r| && schedules[i].day != originalDay && schedules[i].day != newDay ==> r[i] == schedules[i]
    ensures forall i :: 0 <= i < |r| && schedules[i].day == newDay ==>
      r[i].shifts == ReplaceOrAppend(schedules[i].shifts, updated) && updated in r[i].shifts
    ensures originalDay != newDay ==> forall i :: 0 <= i < |r| && schedules[i].day == originalDay ==>
      r[i].shifts == WithoutId(schedules[i].shifts, updated.id) && !HasId(r[i].shifts, updated.id)
  {
    var moved := if originalDay != newDay then RemoveFromDay(schedules, originalDay, updated.id) else schedules;
    UpsertInDay(moved, newDay, updated)
  }

  /** One day's contribution to `userMyShifts`: that member's shifts, tagged with the day. */
  function DayShiftsOf(d: DaySchedule, userId: string): (r: seq<TaggedShift>)
    ensures forall t :: t in r <==> t.day == d.day && t.shift in d.shifts && t.shift.employeeId == userId
  {
    var mine := (x: ScheduledShift) => x.employeeId == userId;
    var tag := (x: ScheduledShift) => TaggedShift(x, d.day);
    forall t ensures t in Map(Filter(d.shifts, mine), tag) <==> t.day == d.day && t.shift in d.shifts && t.shift.employeeId == userId {
      MapMembers(Filter(d.shifts, mine), tag, t);
      FilterMember(d.shifts, mine, t.shift);
    }
    Map(Filter(d.shifts, mine), tag)
  }

  /** `confirmDeleteShift` keeps the other shifts of a day in place: WithoutId works element by element. */
  lemma WithoutIdAppend(a: seq<ScheduledShift>, b: seq<ScheduledShift>, id: string)
    ensures WithoutId(a + b, id) == WithoutId(a, id) + WithoutId(b, id)
  {
    FilterAppend(a, b, (x: ScheduledShift) => x.id != id);
  }

  lemma WithoutIdSingle(x: ScheduledShift, id: string)
    ensures WithoutId([x], id) == if x.id == id then [] else [x]
  {
    assert [x][1..] == [];
  }

  /** A day's piece of `userMyShifts` follows the day's list order, element by element. */
  lemma DayShiftsOfAppend(day: string, a: seq<ScheduledShift>, b: seq<ScheduledShift>, userId: string)
    ensures DayShiftsOf(DaySchedule(day, a + b), userId) ==
      DayShiftsOf(DaySchedule(day, a), userId) + DayShiftsOf(DaySchedule(day, b), userId)
  {
    var mine := (x: ScheduledShift) => x.employeeId == userId;
    var tag := (x: ScheduledShift) => TaggedShift(x, day);
    FilterAppend(a, b, mine);
    MapAppend(Filter(a, mine), Filter(b, mine), tag);
  }

  lemma DayShiftsOfSingle(day: string, x: ScheduledShift, userId: string)
    ensures DayShiftsOf(DaySchedule(day, [x]), userId) ==
      if x.employeeId == userId then [TaggedShift(x, day)] else []
  {
    assert [x][1..] == [];
  }

  /** The `reduce` behind `userMyShifts`: a left fold that appends each day's piece. */
  function MyShifts(schedules: seq<DaySchedule>, userId: string): (r: seq<TaggedShift>)
    ensures forall k :: 0 <= k < |r| ==> r[k].shift.employeeId == userId
    decreases |schedules|
  {
    if schedules == [] then []
    else MyShifts(schedules[..|schedules| - 1], userId) + DayShiftsOf(schedules[|schedules| - 1], userId)
  }

  /** The fold keeps schedule-then-list order: it distributes over concatenation. */
  lemma {:induction false} MyShiftsAppend(a: seq<DaySchedule>, b: seq<DaySchedule>, userId: string)
    ensures MyShifts(a + b, userId) == MyShifts(a, userId) + MyShifts(b, userId)
    decreases |b|
  {
    if b == [] {
      assert a + b == a;
    } else {
      var b' := b[..|b| - 1];
      assert (a + b)[..|a + b| - 1] == a + b';
      MyShiftsAppend(a, b', userId);
    }
  }

  /** `userMyShifts` holds exactly that member's shifts, each tagged with a day holding it. */
  lemma {:induction false} MyShiftsMember(schedules: seq<DaySchedule>, userId: string, t: TaggedShift)
    ensures t in MyShifts(schedules, userId) <==>
      exists i :: 0 <= i < |schedules| && t.day == schedules[i].day && t.shift in schedules[i].shifts && t.shift.employeeId == userId
    decreases |schedules|
  {
    if schedules != [] {
      var n := |schedules| - 1;
      MyShiftsMember(schedules[..n], userId, t);
      if t in DayShiftsOf(schedules[n], userId) {
        assert t.day == schedules[n].day && t.shift in schedules[n].shifts;
      }
      if exists i :: 0 <= i < |schedules| && t.day == schedules[i].day && t.shift in schedules[i].shifts && t.shift.employeeId == userId {
        var i :| 0 <= i < |schedules| && t.day == schedules[i].day && t.shift in schedules[i].shifts && t.shift.employeeId == userId;
        if i < n {
          assert schedules[..n][i] == schedules[i];
        }
      }
    }
  }

  /** Adding a shift for someone else leaves a member's own list as it was. */
  lemma {:induction false} MyShiftsIgnoresOthers(schedules: seq<DaySchedule>, day: string, x: ScheduledShift, userId: string)
    requires x.employeeId != userId
    ensures MyShifts(AppendToDay(schedules, day, x), userId) == MyShifts(schedules, userId)
    decreases |schedules|
  {
    if schedules != [] {
      var n := |schedules| - 1;
      var r := AppendToDay(schedules, day, x);
      assert r[..n] == AppendToDay(schedules[..n], day, x);
      MyShiftsIgnoresOthers(schedules[..n], day, x, userId);
      if schedules[n].day == day {
        FilterAppend(schedules[n].shifts, [x], (y: ScheduledShift) => y.employeeId == userId);
      }
    }
  }

  /** Deleting a freshly added shift by its id undoes the addition. */
  lemma AddThenDelete(schedules: seq<DaySchedule>, day: string, x: ScheduledShift)
    requires forall i :: 0 <= i < |schedules| && schedules[i].day == day ==> !HasId(schedules[i].shifts, x.id)
    ensures RemoveFromDay(AppendToDay(schedules, day, x), day, x.id) == schedules
  {
    var r := RemoveFromDay(AppendToDay(schedules, day, x), day, x.id);
    forall i | 0 <= i < |schedules| && schedules[i].day == day
      ensures r[i] == schedules[i]
    {
      var keep := (y: ScheduledShift) => y.id != x.id;
      FilterAppend(schedules[i].shifts, [x], keep);
      FilterAll(schedules[i].shifts, keep);
    }
  }

  // ---------------------------------------------------------------------------
  // The two form handlers
  // ---------------------------------------------------------------------------

  datatype LoginAttempt = LoggedIn(user: Staff) | LoginFailed(error: string)

  /** `employees.find(emp => emp.username === username)`, as an index. */
  function FirstWithUsername(employees: seq<Staff>, username: string): (r: Option<nat>)
    ensures r.Some? ==> r.value < |employees| && employees[r.value].username == username
    ensures r.Some? ==> forall j :: 0 <= j < r.value ==> employees[j].username != username
    ensures r.None? ==> forall j :: 0 <= j < |employees| ==> employees[j].username != username
  {
    if employees == [] then None
    else if employees[0].username == username then Some(0)
    else match FirstWithUsername(employees[1..], username)
      case None => None
      case Some(k) => Some(k + 1)
  }

  /** `LoginPage.handleSubmit`: only the first member with that username is tried. */
  function LoginSubmit(employees: seq<Staff>, username: string, password: string): (r: LoginAttempt)
    ensures r.LoggedIn? <==> exists i :: (0 <= i < |employees| && employees[i].username == username &&
                                          employees[i].password == password &&
                                          forall j :: 0 <= j < i ==> employees[j].username != username)
    ensures r.LoggedIn? ==> r.user in employees && r.user.username == username && r.user.password == password
    ensures r.LoginFailed? ==> r.error == Auth.LoginError
  {
    match FirstWithUsername(employees, username)
    case None => LoginFailed(Auth.LoginError)
    case Some(i) => if employees[i].password == password then LoggedIn(employees[i]) else LoginFailed(Auth.LoginError)
  }

  /** The values of the shift form. */
  datatype ShiftForm = ShiftForm(employeeId: string, day: string, startTime: string, endTime: string, task: string)

  /** What submitting the form does: an alert, or a call of `onAddShift` or `onUpdateShift`. */
  datatype Submission =
    | Rejected(alert: string)
    | AddRequest(draft: ShiftDraft, day: string)
    | UpdateRequest(shift: ScheduledShift, originalDay: string, newDay: string)

  const MissingFieldsAlert: string := "Пожалуйста, заполните все обязательные поля."

  /** `AddShiftPage.handleSubmit`: employee, day and task are required; the times are not. */
  function SubmitShiftForm(form: ShiftForm, editing: Option<Editing>): (r: Submission)
    ensures r.Rejected? <==> form.employeeId == "" || form.day == "" || form.task == ""
    ensures r.Rejected? ==> r.alert == MissingFieldsAlert
    ensures r.AddRequest? <==> !r.Rejected? && editing.None?
    ensures r.AddRequest? ==> r == AddRequest(ShiftDraft(form.employeeId, form.startTime, form.endTime, form.task), form.day)
    ensures r.UpdateRequest? ==> r.originalDay == editing.value.day && r.newDay == form.day
    ensures r.UpdateRequest? ==>
              r.shift == ScheduledShift(editing.value.shift.id, form.employeeId, form.startTime, form.endTime, form.task)
  {
    if form.employeeId == "" || form.day == "" || form.task == "" then Rejected(MissingFieldsAlert)
    else match editing
      case None => AddRequest(ShiftDraft(form.employeeId, form.startTime, form.endTime, form.task), form.day)
      case Some(e) => UpdateRequest(ScheduledShift(e.shift.id, form.employeeId, form.startTime, form.endTime, form.task), e.day, form.day)
  }

  // ---------------------------------------------------------------------------
  // The component state and its handlers
  // ---------------------------------------------------------------------------

  class MobileAppShell {
    var currentView: AppView
    var loggedInUser: Option<Staff>
    var employees: seq<Staff>
    var dailySchedules: seq<DaySchedule>
    var editingShiftDetails: Option<Editing>
    var showDeleteConfirm: bool
    var shiftToDelete: Option<PendingDelete>

    /** Lines 38-44, with the mock data as parameters. */
    constructor (initialEmployees: seq<Staff>, initialSchedules: seq<DaySchedule>)
      ensures currentView == LoginView && loggedInUser == None
      ensures employees == initialEmployees && dailySchedules == initialSchedules
      ensures editingShiftDetails == None && !showDeleteConfirm && shiftToDelete == None
    {
      currentView := LoginView;
      loggedInUser := None;
      employees := initialEmployees;
      dailySchedules := initialSchedules;
      editingShiftDetails := None;
      showDeleteConfirm := false;
      shiftToDelete := None;
    }

    /** `handleLogin`: store the member and route them by role. */
    method HandleLogin(user: Staff)
      modifies this
      ensures loggedInUser == Some(user) && currentView == HomeView(user.role)
      ensures Screen() != UnauthorizedScreen
      ensures employees == old(employees) && dailySchedules == old(dailySchedules)
      ensures editingShiftDetails == old(editingShiftDetails)
      ensures showDeleteConfirm == old(showDeleteConfirm) && shiftToDelete == old(shiftToDelete)
    {
      loggedInUser := Some(user);
      currentView := HomeView(user.role);
    }

    /** `handleLogout`: sign out and drop any edit in progress. */
    method HandleLogout()
      modifies this
      ensures loggedInUser == None && currentView == LoginView && editingShiftDetails == None
      ensures UserMyShifts() == []
      ensures employees == old(employees) && dailySchedules == old(dailySchedules)
      ensures showDeleteConfirm == old(showDeleteConfirm) && shiftToDelete == old(shiftToDelete)
    {
      loggedInUser := None;
      currentView := LoginView;
      editingShiftDetails := None;
    }

    /** `handleAddShift`, with the clock reading `now` the new id is made from. */
    method HandleAddShift(draft: ShiftDraft, day: string, now: int)
      modifies this
      ensures dailySchedules == AppendToDay(old(dailySchedules), day, WithId(draft, ShiftId(now)))
      ensures currentView == GeneralScheduleView
      ensures loggedInUser == old(loggedInUser) && employees == old(employees)
      ensures editingShiftDetails == old(editingShiftDetails)
      ensures showDeleteConfirm == old(showDeleteConfirm) && shiftToDelete == old(shiftToDelete)
    {
      dailySchedules := AppendToDay(dailySchedules, day, WithId(draft, ShiftId(now)));
      currentView := GeneralScheduleView;
    }

    /** `handleEditRequest`: open the form on that shift. */
    method HandleEditRequest(shift: ScheduledShift, day: string)
      modifies this
      ensures editingShiftDetails == Some(Editing(shift, day)) && currentView == AddShiftView
      ensures loggedInUser == old(loggedInUser) && employees == old(employees) && dailySchedules == old(dailySchedules)
      ensures showDeleteConfirm == old(showDeleteConfirm) && shiftToDelete == old(shiftToDelete)
    {
      editingShiftDetails := Some(Editing(shift, day));
      currentView := AddShiftView;
    }

    /** `handleCancelEdit`. */
    method HandleCancelEdit()
      modifies this
      ensures editingShiftDetails == None && currentView == GeneralScheduleView
      ensures loggedInUser == old(loggedInUser) && employees == old(employees) && dailySchedules == old(dailySchedules)
      ensures showDeleteConfirm == old(showDeleteConfirm) && shiftToDelete == old(shiftToDelete)
    {
      editingShiftDetails := None;
      currentView := GeneralScheduleView;
    }

    /** `handleUpdateShift`. */
    method HandleUpdateShift(updated: ScheduledShift, originalDay: string, newDay: string)
      modifies this
      ensures dailySchedules == UpdateSchedules(old(dailySchedules), updated, originalDay, newDay)
      ensures editingShiftDetails == None && currentView == GeneralScheduleView
      ensures loggedInUser == old(loggedInUser) && employees == old(employees)
      ensures showDeleteConfirm == old(showDeleteConfirm) && shiftToDelete == old(shiftToDelete)
    {
      dailySchedules := UpdateSchedules(dailySchedules, updated, originalDay, newDay);
      editingShiftDetails := None;
      currentView := GeneralScheduleView;
    }

    /** `handleDeleteShiftRequest`: remember the shift and ask for confirmation. */
    method HandleDeleteShiftRequest(shiftId: string, day: string)
      modifies this
      ensures shiftToDelete == Some(PendingDelete(shiftId, day)) && showDeleteConfirm
      ensures currentView == old(currentView) && loggedInUser == old(loggedInUser) && employees == old(employees)
      ensures dailySchedules == old(dailySchedules) && editingShiftDetails == old(editingShiftDetails)
    {
      shiftToDelete := Some(PendingDelete(shiftId, day));
      showDeleteConfirm := true;
    }

    /** `confirmDeleteShift`: nothing at all happens without a pending delete. */
    method ConfirmDeleteShift()
      modifies this
      ensures old(shiftToDelete).None? ==>
                dailySchedules == old(dailySchedules) && showDeleteConfirm == old(showDeleteConfirm) && shiftToDelete == None
      ensures old(shiftToDelete).Some? ==>
                dailySchedules == RemoveFromDay(old(dailySchedules), old(shiftToDelete).value.day, old(shiftToDelete).value.shiftId)
                && !showDeleteConfirm && shiftToDelete == None
      ensures currentView == old(currentView) && loggedInUser == old(loggedInUser) && employees == old(employees)
      ensures editingShiftDetails == old(editingShiftDetails)
    {
      if shiftToDelete.None? {
        return;
      }
      dailySchedules := RemoveFromDay(dailySchedules, shiftToDelete.value.day, shiftToDelete.value.shiftId);
      showDeleteConfirm := false;
      shiftToDelete := None;
    }

    /** `userMyShifts`: empty when nobody is signed in. */
    function UserMyShifts(): seq<TaggedShift>
      reads this
    {
      if loggedInUser.None? then [] else MyShifts(dailySchedules, loggedInUser.value.id)
    }

    /** The screen `renderView` draws. */
    function Screen(): Views.Screen
      reads this
    {
      RenderView(currentView, if loggedInUser.Some? then Some(loggedInUser.value.role) else None)
    }

    /** The login page's submit, calling `onLogin` on success and showing the error otherwise. */
    method SubmitLogin(username: string, password: string) returns (error: Option<string>)
      modifies this
      ensures employees == old(employees) && dailySchedules == old(dailySchedules)
      ensures editingShiftDetails == old(editingShiftDetails)
      ensures showDeleteConfirm == old(showDeleteConfirm) && shiftToDelete == old(shiftToDelete)
      ensures LoginSubmit(employees, username, password).LoggedIn? ==>
                var user := LoginSubmit(employees, username, password).user;
                error.None? && loggedInUser == Some(user) && currentView == HomeView(user.role)
      ensures LoginSubmit(employees, username, password).LoginFailed? ==>
                error == Some(Auth.LoginError) && loggedInUser == old(loggedInUser) && currentView == old(currentView)
    {
      var attempt := LoginSubmit(employees, username, password);
      if attempt.LoginFailed? {
        return Some(attempt.error);
      }
      HandleLogin(attempt.user);
      error := None;
    }

    /** The shift form's submit against the current edit; `now` is the clock reading for a new id. */
    method SubmitShift(form: ShiftForm, now: int) returns (alert: Option<string>)
      modifies this
      ensures SubmitShiftForm(form, old(editingShiftDetails)).Rejected? ==>
                alert == Some(MissingFieldsAlert) && dailySchedules == old(dailySchedules)
                && currentView == old(currentView) && editingShiftDetails == old(editingShiftDetails)
      ensures SubmitShiftForm(form, old(editingShiftDetails)).AddRequest? ==>
                alert.None? && currentView == GeneralScheduleView && editingShiftDetails == old(editingShiftDetails)
                && dailySchedules == AppendToDay(old(dailySchedules), form.day,
                                                 WithId(ShiftDraft(form.employeeId, form.startTime, form.endTime, form.task), ShiftId(now)))
      ensures SubmitShiftForm(form, old(editingShiftDetails)).UpdateRequest? ==>
                var u := SubmitShiftForm(form, old(editingShiftDetails));
                alert.None? && currentView == GeneralScheduleView && editingShiftDetails == None
                && dailySchedules == UpdateSchedules(old(dailySchedules), u.shift, u.originalDay, u.newDay)
      ensures loggedInUser == old(loggedInUser) && employees == old(employees)
      ensures showDeleteConfirm == old(showDeleteConfirm) && shiftToDelete == old(shiftToDelete)
    {
      var submission := SubmitShiftForm(form, editingShiftDetails);
      match submission
      case Rejected(message) =>
        alert := Some(message);
      case AddRequest(draft, day) =>
        HandleAddShift(draft, day, now);
        alert := None;
      case UpdateRequest(shift, originalDay, newDay) =>
        HandleUpdateShift(shift, originalDay, newDay);
        alert := None;
    }
  }

  /** Line 157, 168 and 171: the gating of the editor's screens. */
  lemma EditorGating(shell: MobileAppShell)
    ensures shell.Screen() == AddShiftScreen <==> shell.currentView == AddShiftView && shell.loggedInUser.Some? && shell.loggedInUser.value.role == Manager
    ensures shell.currentView in {GeneralScheduleView, MyScheduleView} && shell.loggedInUser.None? ==> shell.Screen() == UnauthorizedScreen
  {
  }
}
