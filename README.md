# Synker shift scheduling, modelled in Dafny

Synker is a small shift-scheduling app for a team: a manager plans who works
which shift on which day, and each employee sees their own shifts. The model
covers four parts of it:

- **The Convex backend** (`convex/shifts.ts`, `convex/users.ts`). The database
  is a `Store.Database` object with two tables, `users` and `shifts`. Each table
  is a map from id to record. Ids are natural numbers handed out in increasing
  order, so id order is creation order.
  - The queries (module `Users` and module `Shifts`) are filter, map and sort
    pipelines over a snapshot of the tables.
  - The mutations are methods of the store that change the maps in place.
- **The date helpers** (`app/utils/dateUtils.ts` and the copies in
  `GeneralScheduleScreen.tsx`), in modules `Calendar`, `DateUtils` and `Text`.
  - A day is an integer day number counted from 1970-01-01.
  - The Gregorian civil date is computed from it, and the weekday is a function
    of it.
  - Day keys are `YYYY-MM-DD` strings, the `full-date` form of section 5.6 of
    RFC 3339.
  - For four-digit years, comparing keys as strings is the same as comparing the
    days (section 5.1 of RFC 3339). The shift queries rely on this.
- **Schedule aggregation** (`app/hooks/useShifts.ts`, `GeneralScheduleScreen.tsx`),
  in modules `ShiftHooks` and `GeneralSchedule`:
  - grouping the fetched shifts into per-day buckets;
  - the seven-day week laid over those buckets and the days that have work;
  - the team screen's card map, its week and its week navigation.
- **Session and editor state** (`app/hooks/useAuth.ts`, `app/index.tsx`,
  `example_page.tsx`), in modules `Views`, `Auth`, `AppIndex` and `Editor`. Each
  stateful React component is a class whose fields are its state variables:
  - login, logout and routing by role;
  - gating of the manager-only screen;
  - the in-memory schedule editor (add, update or move, confirmed delete, "my
    shifts").

"Today", the clock reading used for fresh shift ids and the results of server
queries are parameters.

Two behaviours of the code are worth stating directly:

- A shift whose `employeeId` matches no user is kept in every query result. It
  gets a placeholder name, which differs per query: `"Unknown"`,
  `"Unknown Member"` or `"Unknown User"`.
- `app/index.tsx` imports `{ GeneralScheduleScreen }` by name (line 10). The
  component file exports that screen only as its default export
  (app/components/GeneralScheduleScreen.tsx:83), so as written the named import
  is undefined and the root cannot render the team screen.
- Suppose the import is resolved to the default export. Then a second mismatch
  remains: `app/index.tsx` keys its daily schedules by Russian weekday names,
  while the team screen looks them up by `YYYY-MM-DD` keys.
  `AppIndex.TeamWeekAlwaysEmpty` proves that under this assumption the team
  screen, fed by the root's schedules, never shows a shift, whatever the query
  returns.

## Model

| member | source | states |
|---|---|---|
| Schema.CollectSpec | convex/users.ts:73 | A full table scan holds exactly the stored documents below the bound, in strictly increasing id order |
| Schema.CollectAll | convex/shifts.ts:281 | Scanning up to the next free id visits every stored document, once each |
| Users.View | convex/users.ts:46-52 | The projection a query returns keeps the id, username and role and has no password field |
| Users.FirstNamed | convex/users.ts:37-40 | The username lookup returns a document with that username, or none exists in the scan |
| Users.FirstNamedIsFirst | convex/users.ts:37-40 | The document found is the earliest-created one with that username |
| Users.FindByUsernameSpec | convex/users.ts:123-126 | The lookup finds a stored user with that username and no earlier one; it finds nothing exactly when the username is free |
| Users.FindUnique | convex/users.ts:37-40 | With unique usernames, the user found is the one stored under that username |
| Users.LoginUser | convex/users.ts:36-53 | Login succeeds exactly when the first user with that username has exactly that password; it returns that user's projection and otherwise fails with "Invalid credentials" |
| Users.LoginUserSpec | convex/users.ts:37-44 | With unique usernames, login succeeds exactly when a stored user has both that username and that password |
| Users.GetUsersMember | convex/users.ts:65-82 | `getUsers` lists exactly the stored users of the given role (all users without a role), each projected without its password |
| Users.GetUsersAll | convex/users.ts:73-82 | Without a role filter every user is listed exactly once |
| Users.GetUserById | convex/users.ts:94-106 | The lookup succeeds exactly for a stored id and returns that user's projection; otherwise it fails with "User not found" |
| Shifts.AllShiftsMember | convex/shifts.ts:33 | The shift scan holds exactly the stored shifts |
| Shifts.ShiftsFor | convex/shifts.ts:18-62 | For any caller, the result is sorted by date and has one row per selected shift that passes the date filter |
| Shifts.GetShifts | convex/shifts.ts:5-64 | The rows of `getShifts` are in ascending date order |
| Shifts.DateFilterMember | convex/shifts.ts:37-43 | A shift passes the date filter exactly when no truthy start bound is above its day and no truthy end bound is below it; both bounds are inclusive string comparisons |
| Shifts.GetShiftsMember | convex/shifts.ts:26-62 | A row is returned exactly for a stored shift of `userId` (any shift without it) within the bounds, with its own fields and the user's name or "Unknown" |
| Shifts.EmployeeSeesOwn | convex/shifts.ts:21-25 | An employee caller would only ever see shifts assigned to them |
| Shifts.ShiftByIdFor | convex/shifts.ts:78-102 | A missing id gives "Shift not found"; for a stored shift the lookup fails, with "Access denied", exactly when an employee asks for another member's shift; otherwise the shift's row is returned |
| Shifts.GetShiftById | convex/shifts.ts:67-104 | With the hard-coded manager caller, the lookup fails only for a missing id, with "Shift not found" |
| Shifts.DayRange | convex/shifts.ts:124-140 | A `by_day` range scan is in day order and returns each stored shift at most once (no two rows share an id) |
| Shifts.DayRangeMember | convex/shifts.ts:124-140 | A `by_day` range scan returns exactly the stored shifts whose day is in range, each with all fields and the name fallback |
| Shifts.GetShiftsByDateRange | convex/shifts.ts:117-144 | The range result is in day order, and no two rows share an id |
| Shifts.GetShiftsByDateRangeMember | convex/shifts.ts:124-142 | Exactly the shifts with startDate <= day <= endDate are returned, all their fields but `_creationTime` copied, with the employee's name or "Unknown Member" |
| Shifts.DateRangeOfDays | convex/shifts.ts:126-128 | For canonical day keys of four-digit years, the inclusive string range is the inclusive range of days |
| Shifts.GetShiftsByEmployee | convex/shifts.ts:146-165 | Every row belongs to the requested employee |
| Shifts.GetShiftsByEmployeeSpec | convex/shifts.ts:151-163 | Every shift of that employee is listed, and the rows come in creation (id) order |
| Shifts.GetShiftsByEmployeeMember | convex/shifts.ts:151-163 | A row is listed exactly when it is the summary of a stored shift of that employee |
| Shifts.IsoYear | convex/shifts.ts:232 | Years 0 to 9999 are written as exactly four digits |
| Shifts.IsoDateIsDayKey | convex/shifts.ts:231-233 | For years 1000 to 9999 the `toISOString` date part is the canonical day key |
| Shifts.GetDayString | convex/shifts.ts:231-233 | The day string exists exactly for valid JavaScript time values and is the ISO date of the UTC day; otherwise it fails with "Invalid time value" |
| Shifts.GetShiftsForWeek | convex/shifts.ts:235-274 | The week query succeeds exactly when both ends are valid time values; its rows are in day order and no two share an id |
| Shifts.WeekRows | convex/shifts.ts:244-270 | The rows of a week window are in day order and no two share an id |
| Shifts.WeekRowsMember | convex/shifts.ts:250-270 | Exactly the shifts with start <= day < end (as strings) are returned, with the name or "Unknown User" |
| Shifts.ShiftsForWeekIs | convex/shifts.ts:241-257 | In range, the window runs from the ISO date of the start day n to that of day n + 7 |
| Shifts.WeekWindowOfDays | convex/shifts.ts:250-256 | For canonical keys, the half-open string window of days n and n + 7 holds exactly the days n to n + 6 |
| Shifts.WeekRowsOfDays | convex/shifts.ts:250-257 | The week's rows hold the shift on day m exactly when n <= m < n + 7 |
| Shifts.ShiftsForWeekDays | convex/shifts.ts:235-274 | For a week starting on day n, the shift stored on day m is returned exactly when n <= m < n + 7 |
| Store.PatchShiftLaws | convex/shifts.ts:219-226 | An empty patch leaves a shift unchanged, and applying the same patch twice is the same as applying it once |
| Store.PatchUserLaws | convex/users.ts:174-181 | The same two laws for user patches |
| Store.Database.constructor | convex/schema.ts:4-23 | A new database has two empty tables, within their id bounds |
| Store.Database.InsertUser | convex/users.ts:132-138 | `db.insert` adds one user under a fresh id and leaves every other entry and the shifts table unchanged |
| Store.Database.InsertShift | convex/shifts.ts:180-186 | `db.insert` adds one shift under a fresh id and leaves everything else unchanged |
| Store.Database.CreateShift | convex/shifts.ts:168-190 | Exactly one new shift with the five given fields, under a fresh id that is returned; nothing is checked and nothing else changes |
| Store.Database.DeleteShift | convex/shifts.ts:193-203 | Removes only the given shift; for a missing id it fails and changes nothing |
| Store.Database.UpdateShift | convex/shifts.ts:206-228 | Overwrites only the supplied fields of that shift; other fields, other shifts and the users table are unchanged; a missing id fails and changes nothing |
| Store.Database.CollectShiftUpdates | convex/shifts.ts:219-224 | The `updates` object holds exactly the supplied fields |
| Store.Database.MigrateDateFormats | convex/shifts.ts:277-295 | Deletes exactly the shifts whose day contains '.', keeps every other shift as it was, and reports the number deleted |
| Store.Database.CreateUser | convex/users.ts:111-142 | Fails with "Username already exists" exactly when the username is taken; otherwise it inserts exactly one user; it keeps usernames unique |
| Store.Database.UpdateUser | convex/users.ts:145-184 | A missing id gives "User not found". A truthy new username that differs from the current one and is taken gives "Username already exists". Any failure changes nothing. Otherwise only the supplied fields change and the id is returned |
| Store.Database.CollectUserUpdates | convex/users.ts:174-179 | The `updates` object holds exactly the supplied fields |
| Store.Database.InitializeMockData | convex/users.ts:187-242 | With any user present it changes nothing and says "Mock data already exists". Otherwise it adds the three seeded users and the two seeded shifts, dated today and tomorrow |
| Store.MockUsersUnique | convex/users.ts:197-217 | The three seeded usernames are distinct |
| Store.MockManagerLogsIn | convex/users.ts:197-202 | The seeded manager can log in with the seeded password, and a wrong password is refused |
| Calendar.CivilFromDays | app/utils/dateUtils.ts:68-71 | Every day number has a valid Gregorian date: month 1 to 12, and a day within that month's length, leap years included |
| Calendar.Weekday | app/utils/dateUtils.ts:3 | `getDay()` is between 0 (Sunday) and 6 |
| Calendar.CivilMonotone | app/utils/dateUtils.ts:17-26 | A later day number is a later calendar date |
| Calendar.CivilSuccessor | app/utils/dateUtils.ts:68-71 | Day n + 1 is the calendar date after day n: the next day of the month, else the 1st of the next month, else 1 January of the next year |
| Calendar.CivilOrder | app/utils/dateUtils.ts:17-26 | Day numbers and calendar dates are in the same order, in both directions, and distinct days have distinct dates |
| Calendar.EpochIsThursday | app/utils/dateUtils.ts:3 | Day 0 is 1970-01-01, a Thursday |
| Text.OnlyDigits | app/utils/dateUtils.ts:76 | Removing the non-digits leaves only digits and never lengthens the text |
| Text.OnlyDigitsOfDigits | app/utils/dateUtils.ts:76 | Text made only of digits is left unchanged |
| Text.OnlyDigitsAppend | app/utils/dateUtils.ts:87 | Removing non-digits distributes over concatenation |
| Text.Take | app/utils/dateUtils.ts:83 | `slice(0, n)` is the prefix of length min(n, length) |
| Text.Drop | app/utils/dateUtils.ts:78 | `slice(n)` is what follows that prefix |
| Text.NatToString | app/utils/dateUtils.ts:15 | A number's decimal text is non-empty and made of digits |
| Text.PadStart | app/utils/dateUtils.ts:15 | `padStart` reaches the width, keeps the text as its suffix and fills only in front |
| Text.Pad2 | app/utils/dateUtils.ts:70-71 | Two-digit padding gives at least two digits |
| Text.Pad2Fixed | app/utils/dateUtils.ts:70-71 | For numbers below 100, two-digit padding is exactly the number's two-digit field |
| Text.NatToStringFixed | app/utils/dateUtils.ts:69 | A four-digit year's plain text is its four-digit field, so the unpadded year still has fixed width |
| Text.FixedDigitsOrder | app/utils/dateUtils.ts:17-26 | Fixed-width digit fields compare as strings exactly as their numbers compare |
| Text.LexLessTotal | convex/shifts.ts:62 | String order is total |
| Text.LexLessTransitive | convex/shifts.ts:62 | String order is transitive |
| Text.LexLessIrreflexive | convex/shifts.ts:39-40 | No string is below itself |
| Text.LexLeAntisymmetric | convex/shifts.ts:39-40 | Two strings each at most the other are equal |
| Text.SplitPair | app/hooks/useShifts.ts:12-13 | Splitting "a - b" on " - " gives back a and b when neither holds a space |
| Sequences.FilterMember | convex/shifts.ts:38-42 | `filter` keeps an element exactly when it is in the input and passes the test |
| Sequences.FilterIncreasing | app/hooks/useShifts.ts:38 | `filter` keeps the input order |
| Sequences.MapMembers | convex/shifts.ts:47-59 | Every output of `map` is the image of an input |
| Sequences.AnySpec | app/components/GeneralScheduleScreen.tsx:142-144 | `some` holds exactly when some element passes |
| Sequences.SortBy | convex/shifts.ts:62 | The sort keeps the length and its output is sorted by the key |
| Sequences.SortPermutation | convex/shifts.ts:62 | The sort is a permutation of its input |
| Sequences.SortMember | convex/shifts.ts:62 | The sort keeps exactly the input's elements |
| Sequences.SortStable | convex/shifts.ts:62 | The sort is stable: elements with equal keys keep their relative order |
| Sequences.SortSortedIdentity | convex/shifts.ts:62 | Sorting already sorted input changes nothing |
| Sequences.FilterKeyMember | app/hooks/useShifts.ts:20-24 | A day's bucket holds exactly the shifts with that day |
| DateUtils.MondayOffset | app/utils/dateUtils.ts:3-4 | The offset lies in [-6, 0], and today plus the offset is a Monday |
| DateUtils.MonthIndex | app/utils/dateUtils.ts:15-16 | `getMonth()` is between 0 and 11 |
| DateUtils.KeyOf | app/utils/dateUtils.ts:17-26 | A day key holds no space, so the " - " separator of `dateRange` is unambiguous |
| DateUtils.KeyShape | app/utils/dateUtils.ts:67-73 | For four-digit years, the key is an RFC 3339 full-date |
| DateUtils.DayKeyShape | app/utils/dateUtils.ts:17-26 | For four-digit years, the key of a day is a full-date whose fields are that day's year, month and day |
| DateUtils.KeyOrder | app/utils/dateUtils.ts:17-26 | Keys of valid four-digit-year dates compare as strings as the dates compare in time, and equal keys mean equal dates |
| DateUtils.DayKeyOrder | app/utils/dateUtils.ts:17-26 | Comparing day keys as strings is comparing the days, in both directions |
| DateUtils.GetMonthName | app/utils/dateUtils.ts:30-46 | A month name exists exactly for 0 to 11 and is that entry of the twelve-name table |
| DateUtils.MonthNamesDistinct | app/utils/dateUtils.ts:31-44 | Different months have different names |
| DateUtils.GetDayName | app/utils/dateUtils.ts:48-59 | The day name is the table entry of the day's weekday |
| DateUtils.MonthLabelsHaveNoDot | app/utils/dateUtils.ts:62-64 | Removing the first '.' from any month name leaves no '.' |
| DateUtils.FormatDate | app/utils/dateUtils.ts:61-65 | The caption is the weekday name, ", ", the unpadded day of the month, a space, and the month's table entry without its final '.'; it contains no '.' |
| DateUtils.DateLabel | app/utils/dateUtils.ts:61-65 | The same caption shape for a given weekday name and calendar date |
| DateUtils.WeekdayShift | app/utils/dateUtils.ts:7 | Moving by whole weeks keeps the weekday |
| DateUtils.WeekBounds | app/utils/dateUtils.ts:2-10 | The week runs from a Monday to the Sunday six days later and holds today + 7 * weekOffset |
| DateUtils.GetWeekRange | app/utils/dateUtils.ts:1-28 | `start` and `end` are those bounds, `dateRange` is "<Monday key> - <Sunday key>", and the two labels are the day-and-month labels of the two ends |
| DateUtils.MondayUnique | app/utils/dateUtils.ts:4-7 | Two Mondays less than a week apart are the same day, so a day's week is unique |
| DateUtils.WeekStep | app/utils/dateUtils.ts:7-10 | Increasing `weekOffset` by one moves both ends by exactly seven days |
| DateUtils.WeekHoldsToday | app/utils/dateUtils.ts:2-7 | With offset 0 the week is the one Monday-to-Sunday week that holds today |
| DateUtils.DateRangeHalves | app/utils/dateUtils.ts:17-26 | Splitting `dateRange` on " - " gives the Monday key and the Sunday key |
| DateUtils.GetTodayDateString | app/utils/dateUtils.ts:67-73 | Today's string is the same key format as `dateRange` and, for four-digit years, a full-date |
| DateUtils.DateMaskClosed | app/utils/dateUtils.ts:77-83 | The date mask in closed form: a dash after the fourth and, with more than six digits, after the sixth digit; at most eight digits kept |
| DateUtils.DateMaskShape | app/utils/dateUtils.ts:75-84 | For digit input the mask gives the date shape |
| DateUtils.FormatDateInput | app/utils/dateUtils.ts:75-84 | The output has at most 10 characters, '-' exactly at indexes 4 and 7, digits elsewhere; without its dashes it is the first (at most eight) digits of the input |
| DateUtils.FormatDateInputIdempotent | app/utils/dateUtils.ts:75-84 | Applying the date mask to its own output changes nothing |
| DateUtils.TimeMaskClosed | app/utils/dateUtils.ts:88-91 | The time mask in closed form: a colon after the second digit, at most four digits kept |
| DateUtils.TimeMaskShape | app/utils/dateUtils.ts:86-92 | For digit input the mask gives the time shape |
| DateUtils.FormatTimeInput | app/utils/dateUtils.ts:86-92 | The output has at most 5 characters and ':' at index 2 exactly when the input has more than two digits; without it the output is the first (at most four) digits of the input |
| DateUtils.FormatTimeInputIdempotent | app/utils/dateUtils.ts:86-92 | Applying the time mask to its own output changes nothing |
| ShiftHooks.GroupStep | app/hooks/useShifts.ts:20-24 | Pushing a shift onto the bucket of its day groups one more shift |
| ShiftHooks.GroupByDay | app/hooks/useShifts.ts:16-26 | While loading the grouping is empty. Otherwise there is a bucket exactly for each day of the fetched shifts, holding that day's shifts in fetch order |
| ShiftHooks.BucketSizes | app/hooks/useShifts.ts:19-24 | Every shift lies in exactly one bucket, so the bucket sizes add up to the number of shifts |
| ShiftHooks.DayEntry | app/hooks/useShifts.ts:30-34 | A week entry holds its day, that day's key and that day's bucket or no shifts |
| ShiftHooks.WeekDays | app/hooks/useShifts.ts:28-36 | There are exactly 7 entries; entry i is day start + i with its key and its bucket |
| ShiftHooks.WeekDaysOfGrouping | app/hooks/useShifts.ts:28-36 | Over a grouping, each week entry holds exactly that day's fetched shifts, in fetch order |
| ShiftHooks.WeekDaysLoading | app/hooks/useShifts.ts:17 | While loading, every week entry is empty |
| ShiftHooks.WeekDaysIncreasing | app/hooks/useShifts.ts:29-31 | The week's entries are in strictly increasing day order |
| ShiftHooks.DaysWithTasks | app/hooks/useShifts.ts:38 | Only entries with shifts are kept |
| ShiftHooks.DaysWithTasksSpec | app/hooks/useShifts.ts:38 | Exactly the entries with shifts are kept, in week order |
| ShiftHooks.QueryBounds | app/hooks/useShifts.ts:11-14 | The query bounds are the Monday key and the Sunday key of the week |
| ShiftHooks.UseShifts | app/hooks/useShifts.ts:8-47 | The hook returns the week range and the query result; `isLoading` holds exactly while the result is missing; it has 7 week entries with their day keys, each holding exactly that day's fetched shifts (none while loading); `daysWithTasks` is the non-empty entries |
| ShiftHooks.WeekBucketOfStore | app/hooks/useShifts.ts:11-33 | With the store's answer, a day's entry holds exactly the stored shifts dated that day, each once, named as `getShiftsByDateRange` names them |
| ShiftHooks.UseEmployeeShifts | app/hooks/useShifts.ts:49-70 | The employee hook groups the fetched shifts by day the same way; `isLoading` holds exactly while the result is missing |
| ShiftHooks.EmployeeBucketOfStore | app/hooks/useShifts.ts:50-63 | Over the store's answer, a day's bucket holds exactly the summaries of the stored shifts of that employee on that day |
| GeneralSchedule.ToEntry | app/components/GeneralScheduleScreen.tsx:97-102 | A card takes the employee name as member and the task as shift, and its time is start, '-', end |
| GeneralSchedule.LastShown | app/components/GeneralScheduleScreen.tsx:94-104 | Finds the last schedule for a day that has shifts, or reports that there is none |
| GeneralSchedule.ScheduleMap | app/components/GeneralScheduleScreen.tsx:90-106 | The map has a key exactly for the days with a non-empty schedule; under it are the cards of the last such schedule, in order |
| GeneralSchedule.GetWeekDates | app/components/GeneralScheduleScreen.tsx:109-117 | Seven consecutive days starting at the given day |
| GeneralSchedule.FormatDateKey | app/components/GeneralScheduleScreen.tsx:119-126 | The same key `getTodayDateString` gives: a full-date for four-digit years |
| GeneralSchedule.FormatDateKeyOrder | app/components/GeneralScheduleScreen.tsx:119-126 | Keys of different days differ, and key order is day order |
| GeneralSchedule.WeekHasShiftsSpec | app/components/GeneralScheduleScreen.tsx:142-144 | `weekHasShifts` holds exactly when one day of the week has cards under its key |
| GeneralSchedule.Section | app/components/GeneralScheduleScreen.tsx:193-195 | A section is a day with the cards under its key |
| GeneralSchedule.RenderedDays | app/components/GeneralScheduleScreen.tsx:192-196 | Days without cards are skipped |
| GeneralSchedule.RenderedDaysMember | app/components/GeneralScheduleScreen.tsx:192-196 | A section is drawn exactly for a day of the week that has cards, with those cards |
| GeneralSchedule.RenderedDaysEmpty | app/components/GeneralScheduleScreen.tsx:185-196 | Nothing is drawn exactly when the week has no shifts, so the empty-week card and the day sections never both show |
| GeneralSchedule.InitialWeekDate | app/components/GeneralScheduleScreen.tsx:87 | The initial week starts on 2025-07-15, a Tuesday, so the week is not Monday-aligned |
| GeneralSchedule.NavigateLaws | app/components/GeneralScheduleScreen.tsx:134-138 | Forward then back returns to the same day, and navigating never changes the weekday |
| GeneralSchedule.AlwaysTuesday | app/components/GeneralScheduleScreen.tsx:134-138 | However the user navigates, the displayed week starts on a Tuesday |
| GeneralSchedule.GeneralScheduleScreen.constructor | app/components/GeneralScheduleScreen.tsx:87 | The screen starts on 2025-07-15 |
| GeneralSchedule.GeneralScheduleScreen.NavigateWeek | app/components/GeneralScheduleScreen.tsx:134-138 | Moves the week by exactly +7 or -7 days |
| Views.HomeView | app/hooks/useAuth.ts:15 | After login, a manager lands on the team schedule and an employee on their own |
| Views.RenderView | app/index.tsx:48-69 | The gating of the screens: the two schedules need a signed-in user, the add-shift screen needs a manager, and the unauthorized screen shows exactly otherwise |
| Views.HomeViewRenders | app/index.tsx:38-62 | Right after login, the screen shown is the role's home screen and never the unauthorized one |
| Auth.AuthHook.constructor | app/hooks/useAuth.ts:7-8 | Nobody is signed in, and the view is login |
| Auth.AuthHook.HandleLogin | app/hooks/useAuth.ts:11-20 | Success holds exactly when `loginUser` succeeds; it stores the user and routes by role. Failure returns the fixed error and leaves user and view unchanged |
| Auth.AuthHook.HandleLogout | app/hooks/useAuth.ts:22-25 | The user is cleared, the view is login, and `isAuthenticated` is false |
| Auth.AuthHook.NavigateTo | app/hooks/useAuth.ts:27-29 | Any view is set, with no role check, and the user is kept |
| Auth.HandleLoginSucceeds | app/hooks/useAuth.ts:13-16 | With unique usernames, a login through the hook succeeds exactly for a stored username with that exact password |
| AppIndex.DailySchedules | app/index.tsx:30-36 | Exactly 7 schedules, one per weekday name in order, each with the query result or no shifts |
| AppIndex.AddShiftSchedules | app/index.tsx:65 | The same 7 names, each with no shifts |
| AppIndex.App.constructor | app/index.tsx:27-28 | The app starts on the login view with nobody signed in |
| AppIndex.App.HandleLogin | app/index.tsx:38-41 | The user is stored and routed by role, and the screen shown is not the unauthorized one |
| AppIndex.App.HandleLogout | app/index.tsx:43-46 | The user is cleared and the login screen shows |
| AppIndex.DayNameIsNoKey | app/index.tsx:16-24 | No weekday name is the key of any day |
| AppIndex.TeamWeekAlwaysEmpty | app/index.tsx:30-58 | With the named import taken as the default export, over the schedules the root component builds, no week ever has a shift shown and no day section is drawn |
| Editor.AppendToDay | example_page.tsx:57-64 | Adding a shift appends it to every day of that name and leaves the other days, and the day list, unchanged; with no day of that name nothing changes |
| Editor.WithoutId | example_page.tsx:131 | Removing an id keeps exactly the other shifts |
| Editor.WithoutIdAppend | example_page.tsx:131 | Removing an id works element by element over the list, so the kept shifts stay in order with their multiplicity |
| Editor.WithoutIdSingle | example_page.tsx:131 | A one-shift list loses its shift exactly when it has that id |
| Editor.RemoveFromDay | example_page.tsx:126-134 | Deleting removes that id only from the days of that name |
| Editor.ReplaceOrAppend | example_page.tsx:96-114 | In the target day, the updated shift replaces its old version in place (same ids, same length), or is appended when absent |
| Editor.UpsertInDay | example_page.tsx:96-114 | The replace-or-append happens only on the days of the new name |
| Editor.UpdateSchedules | example_page.tsx:78-116 | When the day changed, the id leaves the original day; in the new day the shift is replaced or appended; all other days are unchanged |
| Editor.DayShiftsOf | example_page.tsx:144-146 | One day's part of "my shifts" is exactly that member's shifts of the day, tagged with the day |
| Editor.DayShiftsOfAppend | example_page.tsx:144-146 | A day's part distributes over the day's list, so it follows the list order |
| Editor.DayShiftsOfSingle | example_page.tsx:144-146 | A single shift contributes itself, tagged with the day, exactly when it is the member's |
| Editor.MyShifts | example_page.tsx:141-149 | Every entry belongs to the member |
| Editor.MyShiftsAppend | example_page.tsx:141-149 | "My shifts" follows schedule-then-list order: it distributes over concatenation of the schedules |
| Editor.MyShiftsMember | example_page.tsx:139-150 | "My shifts" holds exactly the member's shifts, each tagged with a day that holds it |
| Editor.MyShiftsIgnoresOthers | example_page.tsx:57-64 | Adding a shift for someone else leaves a member's own list unchanged |
| Editor.AddThenDelete | example_page.tsx:57-64 | Deleting a freshly added shift by its id undoes the addition |
| Editor.FirstWithUsername | example_page.tsx:616 | `find` returns the first member with that username, or none has it |
| Editor.LoginSubmit | example_page.tsx:615-622 | Login succeeds exactly when the first member with that username has an equal password; it fails with the fixed error otherwise |
| Editor.SubmitShiftForm | example_page.tsx:446-461 | The form is rejected, with the fixed alert, exactly when employee, day or task is empty. Otherwise a new shift becomes an add request, and an edit becomes an update request from its original day to the chosen day |
| Editor.MobileAppShell.constructor | example_page.tsx:38-44 | The initial state: login view, nobody signed in, the given members and schedules, no edit and no pending delete |
| Editor.MobileAppShell.HandleLogin | example_page.tsx:46-49 | The member is stored and routed by role, and nothing else changes |
| Editor.MobileAppShell.HandleLogout | example_page.tsx:51-55 | User cleared, view login, edit dropped, "my shifts" empty, nothing else changes |
| Editor.MobileAppShell.HandleAddShift | example_page.tsx:57-66 | The schedules get the shift, with the id made from the clock, appended to that day; the view is the team schedule |
| Editor.MobileAppShell.HandleEditRequest | example_page.tsx:68-71 | The edit is remembered and the form opens |
| Editor.MobileAppShell.HandleCancelEdit | example_page.tsx:73-76 | The edit is dropped and the team schedule shows |
| Editor.MobileAppShell.HandleUpdateShift | example_page.tsx:78-119 | The schedules become the update of the old ones; the edit is dropped and the team schedule shows |
| Editor.MobileAppShell.HandleDeleteShiftRequest | example_page.tsx:121-124 | The shift is remembered for deletion and the confirmation opens |
| Editor.MobileAppShell.ConfirmDeleteShift | example_page.tsx:126-137 | Without a pending delete nothing changes; otherwise that id leaves that day, and the dialog and the pending delete are cleared |
| Editor.MobileAppShell.SubmitLogin | example_page.tsx:615-622 | On success the member is signed in and routed; on failure the fixed error is shown and nothing changes |
| Editor.MobileAppShell.SubmitShift | example_page.tsx:446-461 | A rejected form alerts and changes nothing; an add appends the new shift, shows the team view and keeps the edit state; an update applies the move or upsert, clears the edit state and shows the team view; the login and delete state is never touched |
| Editor.EditorGating | example_page.tsx:152-185 | The add-shift screen shows exactly for a signed-in manager on that view; the schedules show the unauthorized screen when nobody is signed in |

## Left out

- `getCurrentUser` (convex/users.ts:6-28) depends on the external `getAuthUserId` and returns a fixed lookup. It is not modelled.
- `getShiftsByDay` (convex/shifts.ts:106-113) has an empty handler. Its result in `app/index.tsx` is the function parameter `fetch` of `AppIndex.DailySchedules`. It is not a query of the store.
- convex/router.ts, convex/api.ts, the presentation components and the two `AddShiftScreen` forms are user interface and HTTP plumbing. They are not part of this model.
- Time zones are not modelled:
  - `new Date(day).toDateString()` is replaced by the day string itself as the bucket key (app/hooks/useShifts.ts:21, 32, 57-58);
  - `toISOString` is taken as UTC;
  - every other `Date` is a UTC day number with no time of day;
  - `today` and the clock reading behind `shift${Date.now()}` are parameters.
  - `new Date(day)` of a non-date string is not modelled either.
- Shifts.GetShiftsForWeek: `startOfWeekMs` is a JavaScript number (convex/shifts.ts:238), but the model takes whole milliseconds. Two cases are therefore missing: the truncation toward zero that `new Date` applies to a fractional value, and the "Invalid time value" that NaN and ±Infinity give. Shifts.GetDayString has the same limitation.
- `createdAt` / `_creationTime` are not part of the models of `getUsers`, `getUserById`, `getShifts` or `getShiftById`. The same holds for `getShiftsByDateRange` and `getShiftsForWeek`, whose `...shift` spread also carries `_creationTime`.
- `localeCompare` (convex/shifts.ts:62) is modelled as plain string order. The sort is modelled as a stable insertion sort.
- `Text.LexLess` and `Text.LexLe` compare code points. JavaScript `<` and `localeCompare` compare UTF-16 code units. The two orders differ when a character outside the Basic Multilingual Plane meets one in U+E000 to U+FFFF. Date keys and time strings are ASCII, so this does not affect them.
- Reactivity and asynchrony are not modelled. `useMemo`, `useQuery` subscriptions and `Promise.all` become one sequential step each. `useCallback` is not modelled. A query's result is an `Option` argument, with `None` while it loads.
- The role filter of `getUsers` uses `if (args.role)`. A role is never an empty string, so this is modelled as "role given".
- The employee branches of `getShifts` and `getShiftById` cannot run, because the caller is hard-coded as a manager. They are modelled through `Shifts.ShiftsFor` and `Shifts.ShiftByIdFor` with an explicit caller.
- The owner check of `getShiftById` compares against the placeholder id `"mock-user"`, which matches no document. It is modelled as a caller whose id is `None`.
- `updateUser` with the new username `""` skips the uniqueness check, exactly as the code does. Usernames can therefore stop being unique. This is why `Store.Database.UpdateUser` states no uniqueness invariant.
- The `default:` branches of both `renderView` switches cannot be reached, because the view type is closed.
- The mock data module `@/lib/mock-data-v4` used by example_page.tsx is not part of this model. The initial members and schedules are the constructor's parameters.
- The shift form's initial values and their reset effect (example_page.tsx:420-444) are not modelled. The employee colours and the alert dialog's UI are not modelled either. The form's submitted values are the parameter `form` of `Editor.MobileAppShell.SubmitShift`.
- `isAuthenticated` (app/hooks/useAuth.ts:37) is the predicate `Auth.AuthHook.IsAuthenticated`. It has no contract row of its own.
