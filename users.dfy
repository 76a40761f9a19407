/**
 * The read side of convex/users.ts: lookups and projections over a snapshot of
 * the tables.  The projections have no password field, so no result of these
 * queries can carry one.
 */
module Users {
  import opened Wrappers
  import opened Schema
  import opened Sequences

  /** What `loginUser`, `getUsers` and `getUserById` return (`createdAt` is not modelled). */
  datatype UserView = UserView(id: nat, name: string, username: string, role: Role, avatarUrl: Option<string>)

  function View(d: Doc<User>): (v: UserView)
    ensures v.id == d.id && v.username == d.value.username && v.role == d.value.role
  {
    UserView(d.id, d.value.name, d.value.username, d.value.role, d.value.avatarUrl)
  }

  function AllUsers(t: Tables): seq<Doc<User>> {
    Collect(t.users, t.nextUser)
  }

  /** No two stored users share a username. */
  predicate UsernamesUnique(users: map<nat, User>) {
    forall i, j :: i in users && j in users && users[i].username == users[j].username ==> i == j
  }

  predicate Taken(users: map<nat, User>, username: string) {
    exists i :: i in users && users[i].username == username
  }

  /** The first document of a scan with the given username. */
  function FirstNamed(docs: seq<Doc<User>>, username: string): (r: Option<Doc<User>>)
    ensures r.Some? ==> r.value in docs && r.value.value.username == username
    ensures r.None? ==> forall k :: 0 <= k < |docs| ==> docs[k].value.username != username
  {
    if docs == [] then None
    else if docs[0].value.username == username then Some(docs[0])
    else FirstNamed(docs[1..], username)
  }

  lemma {:induction false} FirstNamedIsFirst(docs: seq<Doc<User>>, username: string)
    requires IdsIncreasing(docs)
    ensures var r := FirstNamed(docs, username);
      r.Some? ==> forall k :: 0 <= k < |docs| && docs[k].id < r.value.id ==> docs[k].value.username != username
  {
    if docs != [] && docs[0].value.username != username {
      assert IdsIncreasing(docs[1..]);
      FirstNamedIsFirst(docs[1..], username);
      var r := FirstNamed(docs, username);
      if r.Some? {
        forall k | 0 <= k < |docs| && docs[k].id < r.value.id ensures docs[k].value.username != username {
          if k > 0 {
            assert docs[k] == docs[1..][k - 1];
          }
        }
      }
    }
  }

  /** `.withIndex("by_username", q => q.eq("username", u)).first()`: the earliest-created match. */
  function FindByUsername(t: Tables, username: string): Option<Doc<User>> {
    FirstNamed(AllUsers(t), username)
  }

  /**
   * The lookup finds a stored user with that username and no earlier one has
   * it; it finds nothing exactly when the username is free.
   */
  lemma FindByUsernameSpec(t: Tables, username: string)
    requires WellFormed(t)
    ensures var r := FindByUsername(t, username);
      && (r.Some? ==> r.value.id in t.users && t.users[r.value.id] == r.value.value && r.value.value.username == username)
      && (r.Some? ==> forall i :: i in t.users && i < r.value.id ==> t.users[i].username != username)
      && (r.None? <==> !Taken(t.users, username))
  {
    var docs := AllUsers(t);
    CollectAll(t.users, t.nextUser);
    CollectSpec(t.users, t.nextUser);
    FirstNamedIsFirst(docs, username);
    var r := FindByUsername(t, username);
    if r.Some? {
      forall i | i in t.users && i < r.value.id ensures t.users[i].username != username {
        var d := Doc(i, t.users[i]);
        assert d in docs;
        var k :| 0 <= k < |docs| && docs[k] == d;
      }
    } else {
      forall i | i in t.users ensures t.users[i].username != username {
        var d := Doc(i, t.users[i]);
        assert d in docs;
        var k :| 0 <= k < |docs| && docs[k] == d;
      }
    }
  }

  /** With unique usernames, the user found is the one stored under that username. */
  lemma FindUnique(t: Tables, username: string, id: nat)
    requires WellFormed(t) && UsernamesUnique(t.users)
    requires id in t.users && t.users[id].username == username
    ensures FindByUsername(t, username) == Some(Doc(id, t.users[id]))
  {
    FindByUsernameSpec(t, username);
  }

  /** `loginUser`. */
  function LoginUser(t: Tables, username: string, password: string): (r: Result<UserView>)
    ensures r.Err? ==> r.failure == Thrown("Invalid credentials")
    ensures r.Ok? <==> FindByUsername(t, username).Some? && FindByUsername(t, username).value.value.password == password
    ensures r.Ok? ==> r.value == View(FindByUsername(t, username).value)
  {
    match FindByUsername(t, username)
    case None => Err(Thrown("Invalid credentials"))
    case Some(d) => if d.value.password != password then Err(Thrown("Invalid credentials")) else Ok(View(d))
  }

  /**
   * With unique usernames, login succeeds exactly when a stored user has both
   * that username and exactly that password, and returns that user.
   */
  lemma LoginUserSpec(t: Tables, username: string, password: string)
    requires WellFormed(t) && UsernamesUnique(t.users)
    ensures LoginUser(t, username, password).Ok? <==>
      exists i :: i in t.users && t.users[i].username == username && t.users[i].password == password
    ensures LoginUser(t, username, password).Ok? ==>
      var v := LoginUser(t, username, password).value;
      v.id in t.users && v == View(Doc(v.id, t.users[v.id])) && t.users[v.id].password == password
  {
    FindByUsernameSpec(t, username);
    if exists i :: i in t.users && t.users[i].username == username && t.users[i].password == password {
      var i :| i in t.users && t.users[i].username == username && t.users[i].password == password;
      FindUnique(t, username, i);
    }
  }

  /** `getUsers`: users of the given role, or all users, in creation order. */
  function GetUsers(t: Tables, role: Option<Role>): seq<UserView> {
    if role.Some? then Map(Filter(AllUsers(t), (d: Doc<User>) => Some(d.value.role) == role), View)
    else Map(AllUsers(t), View)
  }

  /** Exactly the stored users of that role (all users without a role), each projected without its password. */
  lemma GetUsersMember(t: Tables, role: Option<Role>, v: UserView)
    requires WellFormed(t)
    ensures v in GetUsers(t, role) <==>
      v.id in t.users && (role.None? || t.users[v.id].role == role.value) && v == View(Doc(v.id, t.users[v.id]))
  {
    var p := (d: Doc<User>) => Some(d.value.role) == role;
    var rows := if role.Some? then Filter(AllUsers(t), p) else AllUsers(t);
    CollectAll(t.users, t.nextUser);
    MapMembers(rows, View, v);
    var d := Doc(v.id, if v.id in t.users then t.users[v.id] else User("", "", "", Manager, None));
    if role.Some? {
      FilterMember(AllUsers(t), p, d);
    }
    if v in Map(rows, View) {
      var x :| x in rows && v == View(x);
      if role.Some? {
        FilterMember(AllUsers(t), p, x);
      }
      assert x == d;
    }
  }

  /** Without a role filter every user is listed once. */
  lemma GetUsersAll(t: Tables)
    requires WellFormed(t)
    ensures |GetUsers(t, None)| == |t.users|
  {
    CollectAll(t.users, t.nextUser);
  }

  /** `getUserById`. */
  function GetUserById(t: Tables, userId: nat): (r: Result<UserView>)
    ensures r.Ok? <==> userId in t.users
    ensures r.Ok? ==> r.value == View(Doc(userId, t.users[userId]))
    ensures r.Err? ==> r.failure == Thrown("User not found")
  {
    if userId !in t.users then Err(Thrown("User not found")) else Ok(View(Doc(userId, t.users[userId])))
  }
}
