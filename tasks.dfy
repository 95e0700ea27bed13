/**
 * The task queries of src/lib/services/task.service.ts.
 *
 * The `dailyTask` table is a sequence of rows; each `findMany` is a Filter by
 * its `where` clause followed by a SortBy on `date`. The clock reading
 * `new Date()` is the parameter `now`.
 */
module Tasks {
  import opened Options
  import opened CalendarDay
  import opened Collections
  import opened Ids

  datatype TaskStatus = Pending | Completed | Missed

  /** The string stored in the `status` column. */
  function StatusName(s: TaskStatus): string
  {
    match s
    case Pending => "pending"
    case Completed => "completed"
    case Missed => "missed"
  }

  datatype Task = Task(
    id: string,
    groupId: GroupId,
    userId: UserId,
    title: string,
    description: Option<string>,
    date: Instant,
    status: TaskStatus,
    completedAt: Option<Instant>)

  /** A row of the result of getPendingTasksWithDays: `{ ...task, daysPending }`. */
  datatype PendingTask = PendingTask(task: Task, daysPending: int)

  function DateOf(t: Task): int
  {
    t.date
  }

  /** The shared `where` clause: pending, and dated before today's local midnight. */
  predicate IsOverdue(t: Task, startOfToday: Instant)
  {
    t.status == Pending && t.date < startOfToday
  }

  /** The `where` clause of getPendingTasksCount and getPendingTasksWithDays. */
  predicate IsPendingIn(t: Task, userId: UserId, groupId: GroupId, startOfToday: Instant): (b: bool)
    ensures b <==> IsPendingFor(t, userId, startOfToday) && t.groupId == groupId
  {
    t.userId == userId && t.groupId == groupId && IsOverdue(t, startOfToday)
  }

  /** The `where` clause of getAllPendingTasksForUser. */
  predicate IsPendingFor(t: Task, userId: UserId, startOfToday: Instant): (b: bool)
    ensures b <==> t.userId == userId && StatusName(t.status) == "pending" && t.date < startOfToday
  {
    t.userId == userId && IsOverdue(t, startOfToday)
  }

  /** An overdue task is exactly an unresolved one whose local day is over. */
  lemma OverdueIffDayElapsed(t: Task, now: Instant, tz: TimeZone)
    ensures IsOverdue(t, StartOfDay(now, tz)) <==>
              t.status == Pending && LocalDay(t.date, tz) < LocalDay(now, tz)
  {
    BeforeTodayIffEarlierDay(t.date, now, tz);
  }

  /** A pending task dated today's midnight is not overdue: the comparison is strict. */
  lemma DueTodayNotOverdue(t: Task, now: Instant, tz: TimeZone)
    requires t.date == StartOfDay(now, tz)
    ensures !IsOverdue(t, StartOfDay(now, tz))
  {
  }

  /** getPendingTasksCount (task.service.ts:4-24). */
  function GetPendingTasksCount(tasks: seq<Task>, userId: UserId, groupId: GroupId,
                                tz: TimeZone, now: Instant): (r: nat)
    ensures r == |set i | 0 <= i < |tasks| && IsPendingIn(tasks[i], userId, groupId, StartOfDay(now, tz))|
  {
    var startOfToday := StartOfDay(now, tz);
    var p := (t: Task) => IsPendingIn(t, userId, groupId, startOfToday);
    FilterCountsMatchingIndices(tasks, p);
    assert IndicesWhere(tasks, p) ==
           set i | 0 <= i < |tasks| && IsPendingIn(tasks[i], userId, groupId, startOfToday);
    |Filter(tasks, p)|
  }

  /** Annotates each selected task with getDaysPending. */
  function WithDaysPending(sel: seq<Task>, tz: TimeZone, now: Instant): (r: seq<PendingTask>)
    ensures |r| == |sel|
    ensures forall i :: 0 <= i < |r| ==> r[i].task == sel[i] && r[i].daysPending == DaysPending(sel[i].date, now, tz)
  {
    seq(|sel|, i requires 0 <= i < |sel| => PendingTask(sel[i], DaysPending(sel[i].date, now, tz)))
  }

  function TasksOf(r: seq<PendingTask>): (ts: seq<Task>)
    ensures |ts| == |r| && forall i :: 0 <= i < |r| ==> ts[i] == r[i].task
  {
    seq(|r|, i requires 0 <= i < |r| => r[i].task)
  }

  /** getPendingTasksWithDays (task.service.ts:26-52). */
  function GetPendingTasksWithDays(tasks: seq<Task>, userId: UserId, groupId: GroupId,
                                   tz: TimeZone, now: Instant): (r: seq<PendingTask>)
    ensures forall t :: multiset(TasksOf(r))[t] ==
              if IsPendingIn(t, userId, groupId, StartOfDay(now, tz)) then multiset(tasks)[t] else 0
    ensures |r| == GetPendingTasksCount(tasks, userId, groupId, tz, now)
    ensures SortedBy(TasksOf(r), DateOf, Ascending)
    ensures forall i :: 0 <= i < |r| ==>
              r[i].daysPending == DaysPending(r[i].task.date, now, tz) && r[i].daysPending >= 1
  {
    var startOfToday := StartOfDay(now, tz);
    var p := (t: Task) => IsPendingIn(t, userId, groupId, startOfToday);
    var sel := SortBy(Filter(tasks, p), DateOf, Ascending);
    var r := WithDaysPending(sel, tz, now);
    assert TasksOf(r) == sel;
    assert |sel| == |Filter(tasks, p)| by {
      assert |multiset(sel)| == |multiset(Filter(tasks, p))|;
    }
    assert forall i :: 0 <= i < |sel| ==> p(sel[i]) by {
      forall i | 0 <= i < |sel| ensures p(sel[i]) {
        assert sel[i] in multiset(sel);
      }
    }
    forall i | 0 <= i < |r| ensures r[i].daysPending >= 1 {
      DaysPendingBeforeToday(sel[i].date, now, tz);
    }
    r
  }

  /** getAllPendingTasksForUser (task.service.ts:54-83): the same, across all groups. */
  function GetAllPendingTasksForUser(tasks: seq<Task>, userId: UserId,
                                     tz: TimeZone, now: Instant): (r: seq<PendingTask>)
    ensures forall t :: multiset(TasksOf(r))[t] ==
              if IsPendingFor(t, userId, StartOfDay(now, tz)) then multiset(tasks)[t] else 0
    ensures SortedBy(TasksOf(r), DateOf, Ascending)
    ensures forall i :: 0 <= i < |r| ==>
              r[i].daysPending == DaysPending(r[i].task.date, now, tz) && r[i].daysPending >= 1
  {
    var startOfToday := StartOfDay(now, tz);
    var p := (t: Task) => IsPendingFor(t, userId, startOfToday);
    var sel := SortBy(Filter(tasks, p), DateOf, Ascending);
    var r := WithDaysPending(sel, tz, now);
    assert TasksOf(r) == sel;
    assert forall i :: 0 <= i < |sel| ==> p(sel[i]) by {
      forall i | 0 <= i < |sel| ensures p(sel[i]) {
        assert sel[i] in multiset(sel);
      }
    }
    forall i | 0 <= i < |r| ensures r[i].daysPending >= 1 {
      DaysPendingBeforeToday(sel[i].date, now, tz);
    }
    r
  }

  /**
   * The all-groups list holds, for every group, exactly that group's pending
   * rows (as many copies of each), and every annotated row of the group list
   * appears in it.
   */
  lemma AllPendingCoversEveryGroup(tasks: seq<Task>, userId: UserId, groupId: GroupId,
                                   tz: TimeZone, now: Instant)
    ensures forall t :: multiset(TasksOf(GetPendingTasksWithDays(tasks, userId, groupId, tz, now)))[t] ==
              if t.groupId == groupId
              then multiset(TasksOf(GetAllPendingTasksForUser(tasks, userId, tz, now)))[t] else 0
    ensures forall x :: x in GetPendingTasksWithDays(tasks, userId, groupId, tz, now) ==>
              x in GetAllPendingTasksForUser(tasks, userId, tz, now)
  {
    var allR := GetAllPendingTasksForUser(tasks, userId, tz, now);
    var oneR := GetPendingTasksWithDays(tasks, userId, groupId, tz, now);
    var all, one := TasksOf(allR), TasksOf(oneR);
    var today := StartOfDay(now, tz);
    assert forall t: Task :: multiset(one)[t] == if t.groupId == groupId then multiset(all)[t] else 0 by {
      forall t: Task ensures multiset(one)[t] == if t.groupId == groupId then multiset(all)[t] else 0 {
        assert multiset(one)[t] == if IsPendingIn(t, userId, groupId, today) then multiset(tasks)[t] else 0;
        assert multiset(all)[t] == if IsPendingFor(t, userId, today) then multiset(tasks)[t] else 0;
      }
    }
    forall x | x in oneR
      ensures x in allR
    {
      var i :| 0 <= i < |oneR| && oneR[i] == x;
      assert one[i] == x.task;
      assert x.task in multiset(one);
      assert x.task in multiset(all);
      var j :| 0 <= j < |all| && all[j] == x.task;
      assert allR[j].task == x.task;
      assert allR[j] == x;
    }
  }

  /** JavaScript truthiness of an optional string option: absent or "" means "not given". */
  predicate Given(o: Option<string>)
  {
    o.Some? && o.value != ""
  }

  /** The `where` clause of getTasksForGroup (task.service.ts:94-99). */
  predicate MatchesGroupQuery(t: Task, groupId: GroupId, date: Option<Instant>,
                              userId: Option<UserId>, status: Option<string>): (b: bool)
    ensures b ==> t.groupId == groupId && (date.Some? ==> t.date == date.value)
    ensures b && Given(userId) ==> t.userId == userId.value
    ensures date.None? && !Given(userId) && !Given(status) ==> (b <==> t.groupId == groupId)
  {
    && t.groupId == groupId
    && (date.Some? ==> t.date == date.value)
    && (Given(userId) ==> t.userId == userId.value)
    && (Given(status) ==> StatusName(t.status) == status.value)
  }

  /** getTasksForGroup (task.service.ts:85-113): newest first. */
  function GetTasksForGroup(tasks: seq<Task>, groupId: GroupId, date: Option<Instant>,
                            userId: Option<UserId>, status: Option<string>): (r: seq<Task>)
    ensures forall t :: multiset(r)[t] ==
              if MatchesGroupQuery(t, groupId, date, userId, status) then multiset(tasks)[t] else 0
    ensures SortedBy(r, DateOf, Descending)
  {
    SortBy(Filter(tasks, (t: Task) => MatchesGroupQuery(t, groupId, date, userId, status)), DateOf, Descending)
  }

  /** The `where` clause of getTasksForUser (task.service.ts:117-120). */
  predicate MatchesUserQuery(t: Task, userId: UserId, groupId: Option<GroupId>): (b: bool)
    ensures b ==> t.userId == userId
    ensures !Given(groupId) ==> (b <==> t.userId == userId)
    ensures Given(groupId) && userId != "" ==>
              (b <==> MatchesGroupQuery(t, groupId.value, None, Some(userId), None))
  {
    t.userId == userId && (Given(groupId) ==> t.groupId == groupId.value)
  }

  /** getTasksForUser (task.service.ts:115-133): newest first. */
  function GetTasksForUser(tasks: seq<Task>, userId: UserId, groupId: Option<GroupId>): (r: seq<Task>)
    ensures forall t :: multiset(r)[t] ==
              if MatchesUserQuery(t, userId, groupId) then multiset(tasks)[t] else 0
    ensures SortedBy(r, DateOf, Descending)
  {
    SortBy(Filter(tasks, (t: Task) => MatchesUserQuery(t, userId, groupId)), DateOf, Descending)
  }

  /** With no options, getTasksForGroup returns every task of the group. */
  lemma GroupQueryWithoutOptions(tasks: seq<Task>, groupId: GroupId)
    ensures forall t :: t in tasks && t.groupId == groupId ==> t in GetTasksForGroup(tasks, groupId, None, None, None)
    ensures forall t :: t in GetTasksForGroup(tasks, groupId, None, None, None) ==> t in tasks && t.groupId == groupId
  {
    var r := GetTasksForGroup(tasks, groupId, None, None, None);
    assert forall t :: t in r <==> t in multiset(r);
    assert forall t :: t in tasks <==> t in multiset(tasks);
  }

  /** An empty user or status option is ignored, exactly as if it were absent. */
  lemma EmptyOptionsIgnored(tasks: seq<Task>, groupId: GroupId, date: Option<Instant>)
    ensures GetTasksForGroup(tasks, groupId, date, Some(""), Some("")) ==
            GetTasksForGroup(tasks, groupId, date, None, None)
  {
    FilterSameTest(tasks, (t: Task) => MatchesGroupQuery(t, groupId, date, Some(""), Some("")),
                          (t: Task) => MatchesGroupQuery(t, groupId, date, None, None));
  }

  /** A user's tasks in one group are the group's tasks filtered by that (non-empty) user id. */
  lemma UserQueryMatchesGroupQuery(tasks: seq<Task>, userId: UserId, groupId: GroupId)
    requires userId != "" && groupId != ""
    ensures GetTasksForUser(tasks, userId, Some(groupId)) ==
            GetTasksForGroup(tasks, groupId, None, Some(userId), None)
  {
    FilterSameTest(tasks, (t: Task) => MatchesUserQuery(t, userId, Some(groupId)),
                          (t: Task) => MatchesGroupQuery(t, groupId, None, Some(userId), None));
  }

  /** hasTaskForDate (task.service.ts:135-151): a lookup on the unique (groupId, userId, date) key. */
  function HasTaskForDate(tasks: seq<Task>, userId: UserId, groupId: GroupId, date: Instant): (r: bool)
    ensures r <==> exists i :: 0 <= i < |tasks| &&
                     tasks[i].groupId == groupId && tasks[i].userId == userId && tasks[i].date == date
  {
    if tasks == [] then false
    else
      var last := tasks[|tasks| - 1];
      var found := HasTaskForDate(tasks[..|tasks| - 1], userId, groupId, date);
      assert forall i :: 0 <= i < |tasks| - 1 ==> tasks[..|tasks| - 1][i] == tasks[i];
      found || (last.groupId == groupId && last.userId == userId && last.date == date)
  }

  /** hasTaskForDate agrees with getTasksForGroup filtered by that date and (non-empty) user. */
  lemma HasTaskIffGroupQueryNonEmpty(tasks: seq<Task>, userId: UserId, groupId: GroupId, date: Instant)
    requires userId != ""
    ensures HasTaskForDate(tasks, userId, groupId, date) <==>
            GetTasksForGroup(tasks, groupId, Some(date), Some(userId), None) != []
  {
    var r := GetTasksForGroup(tasks, groupId, Some(date), Some(userId), None);
    if HasTaskForDate(tasks, userId, groupId, date) {
      var i :| 0 <= i < |tasks| && tasks[i].groupId == groupId && tasks[i].userId == userId && tasks[i].date == date;
      assert tasks[i] in multiset(tasks);
      assert multiset(r)[tasks[i]] > 0;
    }
    if r != [] {
      assert r[0] in multiset(r);
      assert r[0] in multiset(tasks);
      var i :| 0 <= i < |tasks| && tasks[i] == r[0];
    }
  }
}
