# Streaks, pending tasks and route guards of show-up, in Dafny

show-up is an accountability app. Users post one daily task per group and mark it completed or missed. A streak counts how many consecutive calendar days, in the user's own time zone, a user has completed their task in a group. This project models the parts of the app that decide how days, streaks and overdue tasks are counted, and the route guard:

- `CalendarDay` (calendar_day.dfy): the calendar-day arithmetic of `src/lib/utils/date.ts`. An instant is an integer count of milliseconds, as a JavaScript `Date` is. A time zone is a fixed offset from UTC. `LocalDay` gives the local calendar day of an instant. `StartOfDay` gives the instant of local midnight. `DaysBetween` is date-fns `differenceInDays` applied to two local midnights. On top of these sit `IsNextDay` and `DaysPending`.
- `Collections` (collections.dfy): the two operations every `findMany` performs besides its `where` clause. `Filter` keeps the matching rows and `SortBy` orders them by an integer column. Both are proved to keep exactly the right rows.
- `Streaks` (streaks.dfy): the streak engine of `src/lib/services/streak.service.ts`. `Complete` and `Break` are the record updates as functions. `StreakStore` is the streak table: a class holding a `map` from `(groupId, userId)` to the record. Its methods are the service functions, and every method keeps the invariant `0 <= currentStreak <= bestStreak`.
- `StreakHistory` (streak_history.dfy): what the two counters mean. Replaying any history of completions and misses through the engine yields two values. The current streak is the length of the longest run of consecutive-day completions that ends the history. The best streak is the length of the longest such run anywhere in the history.
- `Tasks` (tasks.dfy): the queries of `src/lib/services/task.service.ts`. The task table is a `seq<Task>`, and the clock reading is a parameter `now`.
- `AuthConfig` (auth_config.dfy): the `authorized`, `jwt` and `session` callbacks of `src/lib/auth/auth.config.ts`. `authorized` is a function returning `Allow`, `Deny` or `RedirectDashboard`. `jwt` and `session` are methods that assign the fields of the token and session-user objects they receive.
- `Options` (options.dfy): the `Option` type, which stands for `null` and absent fields.
- `Ids` (ids.dfy): the `UserId` and `GroupId` string types that the streak and task tables share.

A streak changes only through `updateStreakOnTaskCompletion` and `breakStreak`; nothing else in the code resets it after a gap. `breakStreak` returns `null` when there is no record, and the model returns `None`.

## Model

| member | source | states |
|---|---|---|
| CalendarDay.LocalDayMonotone | src/lib/utils/date.ts:33-36 | a later instant never has an earlier local day |
| CalendarDay.StartOfDay | src/lib/utils/date.ts:7-11 | getStartOfDayInTimezone lands on the same local day as its argument, is not later than it, and is less than one day earlier |
| CalendarDay.StartOfDayIsFirstInstant | src/lib/utils/date.ts:7-11 | the start of day is not later than any instant on that local day, so it is that day's first instant |
| CalendarDay.StartOfDaySameDay | src/lib/utils/date.ts:7-11 | two instants on the same local day have the same start of day |
| CalendarDay.StartOfDayIdempotent | src/lib/utils/date.ts:8-10 | applying getStartOfDayInTimezone to its own result returns the same instant |
| CalendarDay.DaysBetween | src/lib/utils/date.ts:35-37 | differenceInDays between the two local midnights equals the difference of the local days |
| CalendarDay.IsNextDay | src/lib/utils/date.ts:28-38 | isNextDay(d1, d2) holds exactly when d2's local day is d1's plus one |
| CalendarDay.IsNextDayWindow | src/lib/utils/date.ts:28-38 | isNextDay(d1, d2) holds exactly when d2 lies in the 24 hours that begin one day after d1's local midnight |
| CalendarDay.IsNextDayIrreflexive | src/lib/utils/date.ts:37 | isNextDay(d, d) is false |
| CalendarDay.IsNextDayAsymmetric | src/lib/utils/date.ts:37 | isNextDay(a, b) rules out isNextDay(b, a) |
| CalendarDay.IsNextDayIgnoresTimeOfDay | src/lib/utils/date.ts:35-37 | replacing either argument by its start of day leaves isNextDay unchanged |
| CalendarDay.DaysPending | src/lib/utils/date.ts:43-49 | getDaysPending is never negative; it is 0 exactly when the task's local day is today or later, and otherwise it is today's local day minus the task's |
| CalendarDay.DaysPendingBeforeToday | src/lib/utils/date.ts:47-48 | a task date before today's local midnight gives at least one day pending |
| CalendarDay.BeforeTodayIffEarlierDay | src/lib/services/task.service.ts:17-19 | being before today's local midnight is the same as lying on an earlier local day |
| CalendarDay.DaysPendingThreeDaysLater | src/lib/utils/date.ts:43-49 | a task dated day D and looked at three local days later is before today and three days pending |
| Collections.Filter | src/lib/services/task.service.ts:12-21 | a findMany `where` keeps every matching row as often as it occurs and no other row |
| Collections.FilterCountsMatchingIndices | src/lib/services/task.service.ts:12-23 | the number of rows kept is the number of positions whose row matches |
| Collections.FilterSameTest | src/lib/services/task.service.ts:93-99 | two `where` clauses that agree on every row select the same rows in the same order |
| Collections.InsertBy | src/lib/services/task.service.ts:43-45 | inserting a row into an ordered list keeps the list ordered and adds exactly that row |
| Collections.SortBy | src/lib/services/task.service.ts:43-45 | an `orderBy` on one column returns a permutation of its input, ordered in the requested direction |
| Streaks.NewStreak | src/lib/services/streak.service.ts:16-25 | the lazily created record sits under (groupId, userId), has both counters 0 and no lastTaskDate, and satisfies the record invariant |
| Streaks.Complete | src/lib/services/streak.service.ts:27-43 | a completion keeps the key, stores taskDate as lastTaskDate, makes the streak 1 or the old streak plus 1 (always plus 1 when there was no lastTaskDate), sets bestStreak to the larger of the new streak and the old best, and keeps the record invariant |
| Streaks.Break | src/lib/services/streak.service.ts:57-62 | breakStreak sets currentStreak to 0, leaves bestStreak and lastTaskDate alone, and keeps the record invariant |
| Streaks.FirstCompletion | src/lib/services/streak.service.ts:16-32 | on a lazily created record the first completion gives currentStreak 1 and bestStreak 1 |
| Streaks.CompletionExtendsIffNextLocalDay | src/lib/services/streak.service.ts:27-32 | a completion adds one to the streak exactly when it falls on the local day after lastTaskDate (or the streak is 0); a same-day or earlier-day completion resets it to 1 |
| Streaks.CompletionAfterBreakIsOne | src/lib/services/streak.service.ts:32 | the first completion after breakStreak gives currentStreak 1, consecutive day or not, and bestStreak is unchanged unless it was 0 |
| Streaks.StreakStore.UpdateStreakOnTaskCompletion | src/lib/services/streak.service.ts:4-44 | lazily creates a zeroed record, then extends the streak on the next local day and otherwise resets it to 1; sets bestStreak to the larger of the new streak and the old best; stores taskDate; changes no other record; keeps the table invariant |
| Streaks.StreakStore.BreakStreak | src/lib/services/streak.service.ts:46-63 | with no record, returns None and changes nothing; otherwise zeroes only currentStreak of that one record and returns it |
| Streaks.StreakStore.GetStreakForUser | src/lib/services/streak.service.ts:65-71 | returns the record stored under (groupId, userId), if there is one, and that record satisfies the invariant |
| Streaks.StreakStore.ListOrderedByStreak | src/lib/services/streak.service.ts:84-86 | the records stored under the given keys, each exactly once and nothing else, ordered by currentStreak descending |
| Streaks.StreakStore.GetAllStreaksForUser | src/lib/services/streak.service.ts:73-88 | lists each of the user's records once, and only those, ordered by currentStreak descending |
| Streaks.StreakStore.GetStreaksForGroup | src/lib/services/streak.service.ts:90-105 | lists each of the group's records once, and only those, ordered by currentStreak descending |
| StreakHistory.ReplayCountsRuns | src/lib/services/streak.service.ts:27-62 | after any history of completions and misses, currentStreak is the longest run of consecutive-day completions ending the history, and bestStreak is the longest such run anywhere in it |
| StreakHistory.ReplayRemembersLastCompletion | src/lib/services/streak.service.ts:16-43 | a record exists once some task is completed; it sits under its own key and remembers the last completion's date, which breakStreak never touches |
| StreakHistory.ThreeConsecutiveDays | src/lib/services/streak.service.ts:27-40 | completions on days D, D+1 and D+2 give currentStreak 3 and bestStreak 3 |
| StreakHistory.GapRestartsStreak | src/lib/services/streak.service.ts:27-40 | completions on days D, D+1 and D+5 give currentStreak 1 and bestStreak 2 |
| StreakHistory.MissAfterThreeDays | src/lib/services/streak.service.ts:57-62 | three consecutive completions followed by a miss give currentStreak 0 and bestStreak 3 |
| Tasks.IsPendingFor | src/lib/services/task.service.ts:59-65 | the `where` of getAllPendingTasksForUser: the row's userId matches, its status column is the string "pending", and its date is strictly before today's local midnight |
| Tasks.IsPendingIn | src/lib/services/task.service.ts:13-20 | the `where` of getPendingTasksCount and getPendingTasksWithDays: the all-groups pending filter plus the groupId condition |
| Tasks.OverdueIffDayElapsed | src/lib/services/task.service.ts:15-19 | a task matches the pending filter exactly when it is pending and its local day is before today's |
| Tasks.DueTodayNotOverdue | src/lib/services/task.service.ts:17-19 | a pending task dated exactly today's local midnight is not counted, because the comparison is strict |
| Tasks.GetPendingTasksCount | src/lib/services/task.service.ts:4-24 | the count is the number of tasks of that user and group that are pending and dated before today's local midnight |
| Tasks.GetPendingTasksWithDays | src/lib/services/task.service.ts:26-52 | selects the same rows as the count, so its length equals the count; it is in ascending date order; each entry carries daysPending equal to getDaysPending of its date, which is at least 1 |
| Tasks.GetAllPendingTasksForUser | src/lib/services/task.service.ts:54-83 | uses the same filter without the group condition and the same ascending order and daysPending annotation |
| Tasks.AllPendingCoversEveryGroup | src/lib/services/task.service.ts:34-77 | for every group, the all-groups list restricted to that group holds exactly that group's pending rows, and it contains every entry of the per-group list |
| Tasks.MatchesGroupQuery | src/lib/services/task.service.ts:94-99 | the `where` of getTasksForGroup: a match is in the group and on the given date; a given non-empty userId must match; with no options it is exactly the group condition |
| Tasks.GetTasksForGroup | src/lib/services/task.service.ts:85-113 | returns the group's tasks that pass each option that was given (date, user, status), in descending date order |
| Tasks.MatchesUserQuery | src/lib/services/task.service.ts:117-120 | the `where` of getTasksForUser: a match belongs to the user; with no (or an empty) groupId that is all; with a non-empty groupId and userId it is the same test as getTasksForGroup's with that user |
| Tasks.GetTasksForUser | src/lib/services/task.service.ts:115-133 | returns the user's tasks, restricted to a group only when one is given, in descending date order |
| Tasks.GroupQueryWithoutOptions | src/lib/services/task.service.ts:93-99 | with no options, getTasksForGroup returns exactly the group's tasks |
| Tasks.EmptyOptionsIgnored | src/lib/services/task.service.ts:97-98 | an empty-string user or status option is falsy, so it is ignored just as an absent one is |
| Tasks.UserQueryMatchesGroupQuery | src/lib/services/task.service.ts:115-133 | getTasksForUser with a group returns the same list as getTasksForGroup with that user |
| Tasks.HasTaskForDate | src/lib/services/task.service.ts:135-151 | true exactly when some task has that (groupId, userId, date) |
| Tasks.HasTaskIffGroupQueryNonEmpty | src/lib/services/task.service.ts:135-151 | hasTaskForDate agrees with a non-empty result of getTasksForGroup filtered by that date and user |
| AuthConfig.ProtectedAndAuthPagesDisjoint | src/lib/auth/auth.config.ts:10-15 | no path is both a protected page and a sign-in page |
| AuthConfig.Authorized | src/lib/auth/auth.config.ts:8-27 | a /dashboard or /group path is allowed exactly when logged in and denied otherwise; a /login or /signup path redirects a logged-in user to /dashboard and is allowed otherwise; any other path is allowed |
| AuthConfig.PrefixMatchIsPlain | src/lib/auth/auth.config.ts:10-12 | the test is a plain prefix match: /groups and /dashboardx are protected too |
| AuthConfig.JwtCallback | src/lib/auth/auth.config.ts:28-34 | with a user, copies user.id and user.timezone into the token; without one, the token is unchanged; the same token object is returned |
| AuthConfig.SessionCallback | src/lib/auth/auth.config.ts:35-41 | copies token.id and token.timezone into session.user only when both exist; otherwise nothing changes; the same session object is returned |

## Left out

- Time zones are fixed offsets from UTC. The IANA database and its daylight-saving rules inside date-fns-tz are not modelled, so the intended behaviour across a 23-hour spring-forward day is not covered. The host zone's effect on date-fns `startOfDay` and `differenceInDays` is not modelled either.
- `formatInTimezone` and `detectBrowserTimezone` (date.ts:16-23, 54-59) are left out. Their results depend on library string formatting and on the browser.
- The clock (`new Date()`) is the parameter `now`. `getDaysPending` reads the clock a second time; the model uses the same `now` for both readings.
- Prisma calls (`findUnique`, `create`, `update`, `findMany`) are operations on a map or a sequence. Generated record ids and connection handling are not modelled.
- The `include` joins (group id and name, user id, name and email) are left out. They only attach display data to the rows.
- When rows tie on the sort column, the database returns them in an unspecified order. The model's deterministic insertion order stands in for it.
- The unique constraint on (groupId, userId, date) belongs to the database write path, which is not part of this model. The task queries only read.
- Each service call is one atomic step. Concurrent completions on the same record are not modelled.
- An unresolvable zone name is not modelled: `TimeZone` is always a valid fixed offset. In the code such a name would most likely make date-fns-tz produce an invalid date, so `isNextDay` would always be false and `getDaysPending` always 0. date-fns-tz is not part of this model.
- The `Response.redirect` object is represented by `RedirectDashboard`. NextAuth's redirect to `/login` after a `Deny` happens outside the callback and is not modelled.
- Task status is the closed set pending, completed, missed. The `status` option of getTasksForGroup stays a string and is compared against the stored name.
- Counters are unbounded integers. A JavaScript number would become inexact only past 2^53, far beyond any real streak.
- Token fields other than `id` and `timezone` are an opaque map of claims. Session-user fields other than `id`, `timezone` and `email` are not modelled.
