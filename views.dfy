/**
 * The views of the app and which screen each one shows for the signed-in
 * user's role; the same routing is written out in app/index.tsx and in
 * example_page.tsx.
 */
module Views {
  import opened Wrappers
  import opened Schema

  /** `AppView`: a closed set of four views. */
  datatype AppView = LoginView | GeneralScheduleView | MyScheduleView | AddShiftView

  /** What `renderView` draws. */
  datatype Screen = LoginScreen | UnauthorizedScreen | GeneralScheduleScreen | MyScheduleScreen | AddShiftScreen

  /** The view a user lands on after logging in: the team schedule for a manager, their own otherwise. */
  function HomeView(role: Role): (view: AppView)
    ensures view == GeneralScheduleView <==> role.Manager?
    ensures view == MyScheduleView <==> role.Employee?
  {
    if role == Manager then GeneralScheduleView else MyScheduleView
  }

  /**
   * `renderView` for the current view and the role of the signed-in user (None
   * when nobody is signed in). The `default` branch cannot be reached because
   * the view type is closed.
   */
  function RenderView(view: AppView, role: Option<Role>): (screen: Screen)
    ensures screen == LoginScreen <==> view == LoginView
    ensures screen == AddShiftScreen <==> view == AddShiftView && role == Some(Manager)
    ensures screen == GeneralScheduleScreen <==> view == GeneralScheduleView && role.Some?
    ensures screen == MyScheduleScreen <==> view == MyScheduleView && role.Some?
    ensures screen == UnauthorizedScreen <==>
      ((view == GeneralScheduleView || view == MyScheduleView) && role.None?) || (view == AddShiftView && role != Some(Manager))
  {
    match view
    case LoginView => LoginScreen
    case GeneralScheduleView => if role.None? then UnauthorizedScreen else GeneralScheduleScreen
    case MyScheduleView => if role.None? then UnauthorizedScreen else MyScheduleScreen
    case AddShiftView => if role != Some(Manager) then UnauthorizedScreen else AddShiftScreen
  }

  /** Right after logging in, the screen shown is never the unauthorized one. */
  lemma HomeViewRenders(role: Role)
    ensures RenderView(HomeView(role), Some(role)) == (if role == Manager then GeneralScheduleScreen else MyScheduleScreen)
  {
  }
}
