/**
 * The write side of convex/shifts.ts and convex/users.ts: a store object whose
 * two tables are maps from id to record, updated in place by the mutations.
 * `db.insert` takes the next id of the table; `db.patch` and `db.delete` of a
 * missing id fail and change nothing.
 */
module Store {
  import opened Wrappers
  import opened Text
  import opened Schema
  import opened Users
  import opened Shifts

  /** The `updates` object of `updateShift`: the fields to overwrite. */
  datatype ShiftPatch = ShiftPatch(
    employeeId: Option<nat>, day: Option<string>, startTime: Option<string>, endTime: Option<string>, task: Option<string>)

  /** `db.patch` of a shift: supplied fields overwrite, the others stay. */
  function PatchShift(s: Shift, p: ShiftPatch): Shift {
    Shift(OptionOr(p.employeeId, s.employeeId), OptionOr(p.day, s.day), OptionOr(p.startTime, s.startTime),
      OptionOr(p.endTime, s.endTime), OptionOr(p.task, s.task))
  }

  /** The `updates` object of `updateUser`. */
  datatype UserPatch = UserPatch(
    name: Option<string>, username: Option<string>, password: Option<string>, role: Option<Role>, avatarUrl: Option<string>)

  function PatchUser(u: User, p: UserPatch): User {
    User(OptionOr(p.name, u.name), OptionOr(p.username, u.username), OptionOr(p.password, u.password),
      OptionOr(p.role, u.role), if p.avatarUrl.Some? then p.avatarUrl else u.avatarUrl)
  }

  /** An empty patch leaves a record as it is, and patching twice is patching once. */
  lemma PatchShiftLaws(s: Shift, p: ShiftPatch)
    ensures PatchShift(s, ShiftPatch(None, None, None, None, None)) == s
    ensures PatchShift(PatchShift(s, p), p) == PatchShift(s, p)
  {
  }

  lemma PatchUserLaws(u: User, p: UserPatch)
    ensures PatchUser(u, UserPatch(None, None, None, None, None)) == u
    ensures PatchUser(PatchUser(u, p), p) == PatchUser(u, p)
  {
  }

  /** The shifts whose day contains '.', the ones the migration deletes. */
  function Dotted(shifts: map<nat, Shift>): set<nat> {
    set k | k in shifts && '.' in shifts[k].day
  }

  function MigrationMessage(count: nat): string {
    "Migration completed. Deleted " + NatToString(count) + " shifts with incorrect date format."
  }

  class Database {
    var users: map<nat, User>
    var shifts: map<nat, Shift>
    var nextUserId: nat
    var nextShiftId: nat

    ghost predicate Valid()
      reads this
    {
      Bounded(users, nextUserId) && Bounded(shifts, nextShiftId)
    }

    /** The tables as the queries see them. */
    function Snapshot(): (t: Tables)
      reads this
      ensures Valid() ==> WellFormed(t)
    {
      Tables(users, shifts, nextUserId, nextShiftId)
    }

    constructor ()
      ensures Valid() && users == map[] && shifts == map[]
    {
      users, shifts := map[], map[];
      nextUserId, nextShiftId := 0, 0;
    }

    /** `db.insert("users", u)`. */
    method InsertUser(u: User) returns (userId: nat)
      requires Valid()
      modifies this
      ensures Valid()
      ensures userId !in old(users) && users == old(users)[userId := u]
      ensures shifts == old(shifts) && nextShiftId == old(nextShiftId)
      ensures userId == old(nextUserId) && nextUserId == userId + 1
    {
      userId := nextUserId;
      users := users[userId := u];
      nextUserId := nextUserId + 1;
    }

    /** `db.insert("shifts", s)`. */
    method InsertShift(s: Shift) returns (shiftId: nat)
      requires Valid()
      modifies this
      ensures Valid()
      ensures shiftId !in old(shifts) && shifts == old(shifts)[shiftId := s]
      ensures users == old(users) && nextUserId == old(nextUserId)
      ensures shiftId == old(nextShiftId) && nextShiftId == shiftId + 1
    {
      shiftId := nextShiftId;
      shifts := shifts[shiftId := s];
      nextShiftId := nextShiftId + 1;
    }

    /** `createShift`: one new shift with exactly the given fields; nothing is checked. */
    method CreateShift(employeeId: nat, day: string, startTime: string, endTime: string, task: string) returns (shiftId: nat)
      requires Valid()
      modifies this
      ensures Valid()
      ensures shiftId !in old(shifts) && shifts == old(shifts)[shiftId := Shift(employeeId, day, startTime, endTime, task)]
      ensures users == old(users)
      ensures shiftId == old(nextShiftId) && nextShiftId == shiftId + 1 && nextUserId == old(nextUserId)
    {
      shiftId := InsertShift(Shift(employeeId, day, startTime, endTime, task));
    }

    /** `deleteShift`: removes only that shift. */
    method DeleteShift(shiftId: nat) returns (r: Result<()>)
      requires Valid()
      modifies this
      ensures Valid()
      ensures shiftId in old(shifts) ==> r.Ok? && shifts == old(shifts) - {shiftId}
      ensures shiftId !in old(shifts) ==> r == Err(MissingDocument) && shifts == old(shifts)
      ensures users == old(users) && nextUserId == old(nextUserId) && nextShiftId == old(nextShiftId)
    {
      if shiftId !in shifts {
        return Err(MissingDocument);
      }
      shifts := shifts - {shiftId};
      r := Ok(());
    }

    /** `updateShift`: the supplied fields of that shift change, nothing else does. */
    method UpdateShift(shiftId: nat, employeeId: Option<nat>, day: Option<string>, startTime: Option<string>,
      endTime: Option<string>, task: Option<string>) returns (r: Result<()>)
      requires Valid()
      modifies this
      ensures Valid()
      ensures shiftId in old(shifts) ==> r.Ok?
      ensures shiftId in old(shifts) ==>
        shifts == old(shifts)[shiftId := PatchShift(old(shifts)[shiftId], ShiftPatch(employeeId, day, startTime, endTime, task))]
      ensures shiftId !in old(shifts) ==> r == Err(MissingDocument) && shifts == old(shifts)
      ensures users == old(users) && nextUserId == old(nextUserId) && nextShiftId == old(nextShiftId)
    {
      var updates := CollectShiftUpdates(employeeId, day, startTime, endTime, task);
      if shiftId !in shifts {
        return Err(MissingDocument);
      }
      shifts := shifts[shiftId := PatchShift(shifts[shiftId], updates)];
      r := Ok(());
    }

    /** The `updates` object of `updateShift`: each field given is copied, the others stay absent. */
    static method CollectShiftUpdates(employeeId: Option<nat>, day: Option<string>, startTime: Option<string>,
      endTime: Option<string>, task: Option<string>) returns (updates: ShiftPatch)
      ensures updates == ShiftPatch(employeeId, day, startTime, endTime, task)
    {
      updates := ShiftPatch(None, None, None, None, None);
      if employeeId.Some? { updates := updates.(employeeId := employeeId); }
      if day.Some? { updates := updates.(day := day); }
      if startTime.Some? { updates := updates.(startTime := startTime); }
      if endTime.Some? { updates := updates.(endTime := endTime); }
      if task.Some? { updates := updates.(task := task); }
    }

    /**
     * `migrateDateFormats`: deletes exactly the shifts whose day contains '.',
     * keeps the others as they were, and reports how many it deleted.
     */
    method MigrateDateFormats() returns (message: string)
      requires Valid()
      modifies this
      ensures Valid()
      ensures forall k :: k in shifts <==> k in old(shifts) && '.' !in old(shifts)[k].day
      ensures forall k :: k in shifts ==> shifts[k] == old(shifts)[k]
      ensures message == MigrationMessage(|Dotted(old(shifts))|)
      ensures users == old(users) && nextUserId == old(nextUserId) && nextShiftId == old(nextShiftId)
    {
      var allShifts := Collect(shifts, nextShiftId);
      ScanEntries(shifts, nextShiftId);
      ghost var before := shifts;
      ghost var deleted: set<nat> := {};
      var deletedCount: nat := 0;
      var i := 0;
      while i < |allShifts|
        invariant 0 <= i <= |allShifts|
        invariant users == old(users) && nextUserId == old(nextUserId) && nextShiftId == old(nextShiftId)
        invariant deleted <= Dotted(before)
        invariant Visited(allShifts, i, deleted) && Unvisited(allShifts, i, deleted)
        invariant shifts == RemoveKeys(before, deleted)
        invariant deletedCount == |deleted|
      {
        var shift := allShifts[i];
        ScanStep(allShifts, i, deleted);
        if '.' in shift.value.day {
          RemoveKeysStep(before, deleted, shift.id);
          shifts := shifts - {shift.id};
          deleted := deleted + {shift.id};
          deletedCount := deletedCount + 1;
        }
        i := i + 1;
      }
      AllDottedDeleted(before, nextShiftId, deleted);
      RemoveKeysSpec(before, deleted);
      message := MigrationMessage(deletedCount);
    }

    /** `createUser`: refused when the username is taken, otherwise one new user. */
    method CreateUser(name: string, username: string, password: string, role: Role, avatarUrl: Option<string>)
      returns (r: Result<nat>)
      requires Valid()
      modifies this
      ensures Valid()
      ensures Taken(old(users), username) <==> r.Err?
      ensures r.Err? ==> r.failure == Thrown("Username already exists") && users == old(users)
      ensures r.Ok? ==> r.value !in old(users) && users == old(users)[r.value := User(name, username, password, role, avatarUrl)]
      ensures UsernamesUnique(old(users)) ==> UsernamesUnique(users)
      ensures shifts == old(shifts) && nextShiftId == old(nextShiftId)
    {
      FindByUsernameSpec(Snapshot(), username);
      var existingUser := FindByUsername(Snapshot(), username);
      if existingUser.Some? {
        return Err(Thrown("Username already exists"));
      }
      var userId := InsertUser(User(name, username, password, role, avatarUrl));
      r := Ok(userId);
    }

    /**
     * `updateUser`: refused for a missing id, and for a new non-empty username
     * that differs from the current one and is taken; otherwise the supplied
     * fields change and the id is returned.
     */
    method UpdateUser(userId: nat, name: Option<string>, username: Option<string>, password: Option<string>,
      role: Option<Role>, avatarUrl: Option<string>) returns (r: Result<nat>)
      requires Valid()
      modifies this
      ensures Valid()
      ensures userId !in old(users) ==> r == Err(Thrown("User not found"))
      ensures (userId in old(users) && Truthy(username) && username.value != old(users)[userId].username
        && Taken(old(users), username.value)) ==> r == Err(Thrown("Username already exists"))
      ensures r.Err? ==> users == old(users)
      ensures r.Ok? ==> r.value == userId && userId in old(users)
      ensures r.Ok? ==>
        users == old(users)[userId := PatchUser(old(users)[userId], UserPatch(name, username, password, role, avatarUrl))]
      ensures r.Ok? <==> (userId in old(users) &&
        !(Truthy(username) && username.value != old(users)[userId].username && Taken(old(users), username.value)))
      ensures shifts == old(shifts) && nextShiftId == old(nextShiftId) && nextUserId == old(nextUserId)
    {
      if userId !in users {
        return Err(Thrown("User not found"));
      }
      var user := users[userId];
      if Truthy(username) && username.value != user.username {
        FindByUsernameSpec(Snapshot(), username.value);
        var existingUser := FindByUsername(Snapshot(), username.value);
        if existingUser.Some? {
          return Err(Thrown("Username already exists"));
        }
      }
      var updates := CollectUserUpdates(name, username, password, role, avatarUrl);
      users := users[userId := PatchUser(user, updates)];
      r := Ok(userId);
    }

    /** The `updates` object of `updateUser`: each field given is copied, the others stay absent. */
    static method CollectUserUpdates(name: Option<string>, username: Option<string>, password: Option<string>,
      role: Option<Role>, avatarUrl: Option<string>) returns (updates: UserPatch)
      ensures updates == UserPatch(name, username, password, role, avatarUrl)
    {
      updates := UserPatch(None, None, None, None, None);
      if name.Some? { updates := updates.(name := name); }
      if username.Some? { updates := updates.(username := username); }
      if password.Some? { updates := updates.(password := password); }
      if role.Some? { updates := updates.(role := role); }
      if avatarUrl.Some? { updates := updates.(avatarUrl := avatarUrl); }
    }

    /** `initializeMockData`: seeds three users and two shifts, once; `today` is the UTC day number. */
    method InitializeMockData(today: int) returns (message: string)
      requires Valid()
      modifies this
      ensures Valid()
      ensures old(users) != map[] ==> message == "Mock data already exists"
      ensures old(users) != map[] ==> users == old(users) && shifts == old(shifts)
      ensures old(users) == map[] ==> message == "Mock data initialized successfully"
      ensures old(users) == map[] ==>
        users == MockUsers(old(nextUserId)) && shifts == MockShifts(old(shifts), old(nextShiftId), old(nextUserId), IsoDate(today), IsoDate(today + 1))
      ensures nextShiftId >= old(nextShiftId) && nextUserId >= old(nextUserId)
    {
      if users != map[] {
        return "Mock data already exists";
      }
      ghost var m, s := nextUserId, nextShiftId;
      var managerId := InsertUser(MockManager);
      var employee1Id := InsertUser(MockFirstEmployee);
      var employee2Id := InsertUser(MockSecondEmployee);
      assert users == MockUsers(m);
      var todayKey, tomorrowKey := IsoDate(today), IsoDate(today + 1);
      var _ := InsertShift(Shift(employee1Id, todayKey, "09:00", "17:00", "Поддержка клиентов"));
      var _ := InsertShift(Shift(employee2Id, tomorrowKey, "10:00", "18:00", "Ввод данных"));
      assert shifts == MockShifts(old(shifts), s, m, todayKey, tomorrowKey);
      message := "Mock data initialized successfully";
    }
  }

  /** The entries of m whose key is not in s. */
  function RemoveKeys(m: map<nat, Shift>, s: set<nat>): map<nat, Shift> {
    map k | k in m && k !in s :: m[k]
  }

  lemma RemoveKeysStep(m: map<nat, Shift>, s: set<nat>, k: nat)
    ensures RemoveKeys(m, s + {k}) == RemoveKeys(m, s) - {k}
  {
  }

  lemma RemoveKeysSpec(m: map<nat, Shift>, s: set<nat>)
    ensures forall k :: k in RemoveKeys(m, s) <==> k in m && k !in s
    ensures forall k :: k in RemoveKeys(m, s) ==> RemoveKeys(m, s)[k] == m[k]
  {
  }

  /** Every dotted document before position i has been deleted. */
  predicate Visited(docs: seq<Doc<Shift>>, i: int, deleted: set<nat>) {
    forall j :: 0 <= j < i && j < |docs| && '.' in docs[j].value.day ==> docs[j].id in deleted
  }

  /** No document from position i on has been deleted yet. */
  predicate Unvisited(docs: seq<Doc<Shift>>, i: int, deleted: set<nat>) {
    forall j :: 0 <= i <= j < |docs| ==> docs[j].id !in deleted
  }

  /** Visiting document i, and deleting it when its day is dotted, moves the scan on by one. */
  lemma ScanStep(docs: seq<Doc<Shift>>, i: int, deleted: set<nat>)
    requires 0 <= i < |docs| && IdsIncreasing(docs)
    requires Visited(docs, i, deleted) && Unvisited(docs, i, deleted)
    ensures var next := if '.' in docs[i].value.day then deleted + {docs[i].id} else deleted;
      Visited(docs, i + 1, next) && Unvisited(docs, i + 1, next)
  {
  }

  /** Each scanned document is the stored entry under its id, in increasing id order. */
  lemma ScanEntries(shifts: map<nat, Shift>, bound: nat)
    ensures forall j :: 0 <= j < |Collect(shifts, bound)| ==>
      Collect(shifts, bound)[j].id in shifts && shifts[Collect(shifts, bound)[j].id] == Collect(shifts, bound)[j].value
    ensures IdsIncreasing(Collect(shifts, bound))
  {
    CollectSpec(shifts, bound);
    forall j | 0 <= j < |Collect(shifts, bound)|
      ensures Collect(shifts, bound)[j].id in shifts && shifts[Collect(shifts, bound)[j].id] == Collect(shifts, bound)[j].value
    {
      assert Collect(shifts, bound)[j] in Collect(shifts, bound);
    }
  }

  /** A scan that visits every dotted shift has deleted exactly the dotted shifts. */
  lemma AllDottedDeleted(shifts: map<nat, Shift>, bound: nat, deleted: set<nat>)
    requires Bounded(shifts, bound)
    requires deleted <= Dotted(shifts)
    requires Visited(Collect(shifts, bound), |Collect(shifts, bound)|, deleted)
    ensures deleted == Dotted(shifts)
  {
    var docs := Collect(shifts, bound);
    CollectAll(shifts, bound);
    forall k | k in Dotted(shifts) ensures k in deleted {
      assert Doc(k, shifts[k]) in docs;
      var j :| 0 <= j < |docs| && docs[j] == Doc(k, shifts[k]);
    }
  }

  /** The seeded users, with ids m, m + 1 and m + 2. */
  function MockUsers(m: nat): map<nat, User> {
    map[m := MockManager, m + 1 := MockFirstEmployee, m + 2 := MockSecondEmployee]
  }

  /** The two seeded shifts at ids s and s + 1, for the two employees, on the two given days. */
  function MockShifts(shifts: map<nat, Shift>, s: nat, m: nat, todayKey: string, tomorrowKey: string): map<nat, Shift> {
    shifts[s := Shift(m + 1, todayKey, "09:00", "17:00", "Поддержка клиентов")]
          [s + 1 := Shift(m + 2, tomorrowKey, "10:00", "18:00", "Ввод данных")]
  }

  /** The seeded usernames are distinct, so the seeded table satisfies the uniqueness `createUser` keeps. */
  lemma MockUsersUnique(m: nat)
    ensures UsernamesUnique(MockUsers(m))
    ensures |MockUsers(m)| == 3
  {
    var u := MockUsers(m);
    assert MockManager.username[0] != MockFirstEmployee.username[0];
    assert MockManager.username[0] != MockSecondEmployee.username[0];
    assert MockFirstEmployee.username[0] != MockSecondEmployee.username[0];
    assert u.Keys == {m, m + 1, m + 2};
  }

  const MockManager: User := User("Иван Менеджер", "менеджер", "password123", Manager, None)
  const MockFirstEmployee: User := User("Алиса Сотрудник", "алиса", "password123", Employee, None)
  const MockSecondEmployee: User := User("Борис Сотрудник", "борис", "password123", Employee, None)

  /** The seeded manager can log in with the seeded password, and a wrong password is refused. */
  lemma MockManagerLogsIn(t: Tables)
    requires WellFormed(t) && UsernamesUnique(t.users)
    requires exists i :: i in t.users && t.users[i] == MockManager
    ensures LoginUser(t, "менеджер", "password123").Ok?
    ensures LoginUser(t, "менеджер", "password").Err?
  {
    var i :| i in t.users && t.users[i] == MockManager;
    FindUnique(t, "менеджер", i);
  }
}
