/**
 * app/hooks/useAuth.ts: the signed-in user and the current view, changed by
 * logging in (through the `loginUser` mutation), logging out and navigating.
 */
module Auth {
  import opened Wrappers
  import opened Schema
  import opened Users
  import opened Views

  /** What `handleLogin` resolves to. */
  datatype LoginOutcome = LoginOutcome(success: bool, error: Option<string>)

  const LoginError: string := "Неверное имя пользователя или пароль."

  class AuthHook {
    var currentUser: Option<UserView>
    var currentView: AppView

    /** Lines 7-8: nobody signed in, on the login view. */
    constructor ()
      ensures currentUser == None && currentView == LoginView
    {
      currentUser := None;
      currentView := LoginView;
    }

    /** `isAuthenticated`. */
    predicate IsAuthenticated()
      reads this
    {
      currentUser.Some?
    }

    /**
     * `handleLogin` against the store `t` the mutation reads: success stores the
     * user and routes by role; failure reports the fixed error and changes nothing.
     */
    method HandleLogin(t: Tables, username: string, password: string) returns (outcome: LoginOutcome)
      modifies this
      ensures outcome.success <==> LoginUser(t, username, password).Ok?
      ensures outcome.success ==>
                outcome.error.None?
                && currentUser == Some(LoginUser(t, username, password).value)
                && currentView == HomeView(LoginUser(t, username, password).value.role)
      ensures !outcome.success ==>
                outcome.error == Some(LoginError)
                && currentUser == old(currentUser) && currentView == old(currentView)
    {
      var user := LoginUser(t, username, password);
      if user.Err? {
        return LoginOutcome(false, Some(LoginError));
      }
      currentUser := Some(user.value);
      currentView := HomeView(user.value.role);
      outcome := LoginOutcome(true, None);
    }

    /** `handleLogout`. */
    method HandleLogout()
      modifies this
      ensures currentUser == None && currentView == LoginView
      ensures !IsAuthenticated()
    {
      currentUser := None;
      currentView := LoginView;
    }

    /** `navigateTo`: any view, with no role check; the user is kept. */
    method NavigateTo(view: AppView)
      modifies this
      ensures currentView == view && currentUser == old(currentUser)
    {
      currentView := view;
    }
  }

  /**
   * With usernames unique, a login through the hook succeeds exactly for a
   * stored username with that exact password.
   */
  lemma HandleLoginSucceeds(t: Tables, username: string, password: string)
    requires WellFormed(t) && UsernamesUnique(t.users)
    ensures LoginUser(t, username, password).Ok? <==>
      exists i :: i in t.users && t.users[i].username == username && t.users[i].password == password
  {
    LoginUserSpec(t, username, password);
  }
}
