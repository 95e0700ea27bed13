/**
 * What the two counters of a streak record mean.
 *
 * One (group, user) pair sees a history of events: a task completed (with
 * the task's date and the user's zone at the time) or a task marked missed.
 * Replay folds the engine's own transitions over a history, starting from no
 * record. The theorem ReplayCountsRuns says that the current streak is the
 * length of the longest run of consecutive-day completions that ends the
 * history, and the best streak is the length of the longest such run
 * anywhere in it.
 */
module StreakHistory {
  import opened Options
  import opened CalendarDay
  import opened Ids
  import opened Streaks

  datatype Event = Completion(date: Instant, tz: TimeZone) | Miss

  /** What the table holds for the pair after one more event. */
  function Step(rec: Option<Streak>, groupId: GroupId, userId: UserId, e: Event): Option<Streak>
  {
    match e
    case Completion(d, tz) => Some(CompleteRecord(rec, groupId, userId, d, tz))
    case Miss => BreakRecord(rec)
  }

  /** What the table holds for the pair after the whole history. */
  function Replay(groupId: GroupId, userId: UserId, evs: seq<Event>): Option<Streak>
  {
    if evs == [] then None
    else Step(Replay(groupId, userId, evs[..|evs| - 1]), groupId, userId, evs[|evs| - 1])
  }

  function Current(rec: Option<Streak>): int
  {
    if rec.Some? then rec.value.currentStreak else 0
  }

  function Best(rec: Option<Streak>): int
  {
    if rec.Some? then rec.value.bestStreak else 0
  }

  /** `b` completes a task on the local day after the one `a` completed. */
  predicate Chains(a: Event, b: Event)
  {
    a.Completion? && b.Completion? && IsNextDay(a.date, b.date, b.tz)
  }

  /** evs[i..j] is a run: only completions, each on the day after the one before. */
  ghost predicate IsRun(evs: seq<Event>, i: int, j: int)
    requires 0 <= i <= j <= |evs|
  {
    && (forall k :: i <= k < j ==> evs[k].Completion?)
    && (forall k :: i < k < j ==> Chains(evs[k - 1], evs[k]))
  }

  /** The date of the last completion in the history, if any. */
  function LastCompletion(evs: seq<Event>): Option<Instant>
  {
    if evs == [] then None
    else if evs[|evs| - 1].Completion? then Some(evs[|evs| - 1].date)
    else LastCompletion(evs[..|evs| - 1])
  }

  /** The facts Replay keeps about a history, proved event by event. */
  ghost predicate Tracks(groupId: GroupId, userId: UserId, evs: seq<Event>, rec: Option<Streak>)
  {
    var c, b := Current(rec), Best(rec);
    && (rec.None? <==> LastCompletion(evs).None?)
    && (rec.Some? ==> KeyOf(rec.value) == (groupId, userId) && WellFormed(rec.value)
                      && rec.value.lastTaskDate == LastCompletion(evs))
    && 0 <= c <= |evs| && IsRun(evs, |evs| - c, |evs|)
    && (forall i :: 0 <= i <= |evs| && IsRun(evs, i, |evs|) ==> |evs| - i <= c)
    && 0 <= b <= |evs|
    && (forall i, j :: 0 <= i <= j <= |evs| && IsRun(evs, i, j) ==> j - i <= b)
    && (exists i, j :: 0 <= i <= j <= |evs| && j - i == b && IsRun(evs, i, j))
  }

  lemma RunOfPrefix(evs: seq<Event>, e: Event, i: int, j: int)
    requires 0 <= i <= j <= |evs|
    ensures IsRun(evs + [e], i, j) == IsRun(evs, i, j)
  {
    assert forall k :: 0 <= k < |evs| ==> (evs + [e])[k] == evs[k];
  }

  /** Every suffix of a run is a run. */
  /** A run that ends the history with length c: evs[|evs|-1] is its last completion. */
  lemma RunEndsWithLastCompletion(evs: seq<Event>, c: int)
    requires 0 < c <= |evs| && IsRun(evs, |evs| - c, |evs|)
    ensures LastCompletion(evs) == Some(evs[|evs| - 1].date)
  {
  }

  /** A run ending at the new last event can be at most one longer than the old trailing run. */
  lemma {:induction false} TrailingRunBound(evs: seq<Event>, e: Event, s: seq<Event>, c: int, c': int)
    requires s == evs + [e]
    requires 0 <= c <= |evs|
    requires forall i :: 0 <= i <= |evs| && IsRun(evs, i, |evs|) ==> |evs| - i <= c
    requires e.Miss? ==> c' == 0
    requires e.Completion? ==> c' == c + 1 || (c' == 1 && (c == 0 || !Chains(evs[|evs| - 1], e)))
    ensures forall i :: 0 <= i <= |s| && IsRun(s, i, |s|) ==> |s| - i <= c'
  {
    forall i | 0 <= i <= |s| && IsRun(s, i, |s|)
      ensures |s| - i <= c'
    {
      if i < |s| {
        assert s[|s| - 1] == e;
        assert e.Completion?;
        if i < |evs| {
          assert IsRun(s, i, |evs|);
          RunOfPrefix(evs, e, i, |evs|);
          assert Chains(s[|evs| - 1], s[|evs|]);
          assert s[|evs| - 1] == evs[|evs| - 1];
          assert 1 <= |evs| - i <= c;
        }
      }
    }
  }

  lemma {:induction false} StepTracks(groupId: GroupId, userId: UserId, evs: seq<Event>,
                                      rec: Option<Streak>, e: Event)
    requires Tracks(groupId, userId, evs, rec)
    ensures Tracks(groupId, userId, evs + [e], Step(rec, groupId, userId, e))
  {
    var s := evs + [e];
    var rec' := Step(rec, groupId, userId, e);
    var c, b := Current(rec), Best(rec);
    var c', b' := Current(rec'), Best(rec');
    assert s[..|evs|] == evs;
    assert s[|s| - 1] == e;
    forall i, j | 0 <= i <= j <= |evs|
      ensures IsRun(s, i, j) == IsRun(evs, i, j)
    {
      RunOfPrefix(evs, e, i, j);
    }
    var w, w' :| 0 <= w <= w' <= |evs| && w' - w == b && IsRun(evs, w, w');
    match e
    case Miss =>
      assert c' == 0 && b' == b;
      assert LastCompletion(s) == LastCompletion(evs);
      TrailingRunBound(evs, e, s, c, c');
      assert IsRun(s, w, w');
      assert !s[|s| - 1].Completion?;
      forall i, j | 0 <= i <= j <= |s| && IsRun(s, i, j)
        ensures j - i <= b'
      {
      }
    case Completion(d, tz) =>
      assert LastCompletion(s) == Some(d);
      if rec.Some? && c > 0 {
        RunEndsWithLastCompletion(evs, c);
      }
      assert c' == c + 1 || (c' == 1 && (c == 0 || !Chains(evs[|evs| - 1], e)));
      assert b' == Streaks.Max(c', b);
      TrailingRunBound(evs, e, s, c, c');
      assert IsRun(s, |s| - c', |s|) by {
        if c' == c + 1 {
          assert IsRun(s, |evs| - c, |evs|);
          if c > 0 {
            assert Chains(s[|evs| - 1], s[|evs|]);
          }
        }
      }
      forall i, j | 0 <= i <= j <= |s| && IsRun(s, i, j)
        ensures j - i <= b'
      {
        if j == |s| {
          assert j - i <= c';
        }
      }
      if b' == b {
        assert IsRun(s, w, w');
      } else {
        assert IsRun(s, |s| - c', |s|);
      }
  }

  lemma {:induction false} ReplayTracks(groupId: GroupId, userId: UserId, evs: seq<Event>)
    ensures Tracks(groupId, userId, evs, Replay(groupId, userId, evs))
  {
    if evs == [] {
      assert IsRun(evs, 0, 0);
    } else {
      var init := evs[..|evs| - 1];
      ReplayTracks(groupId, userId, init);
      StepTracks(groupId, userId, init, Replay(groupId, userId, init), evs[|evs| - 1]);
      assert init + [evs[|evs| - 1]] == evs;
    }
  }

  /**
   * The current streak is the longest run of consecutive-day completions
   * that ends the history; the best streak is the longest run anywhere.
   */
  lemma ReplayCountsRuns(groupId: GroupId, userId: UserId, evs: seq<Event>)
    ensures var rec := Replay(groupId, userId, evs);
            var c, b := Current(rec), Best(rec);
            && 0 <= c <= b <= |evs|
            && IsRun(evs, |evs| - c, |evs|)
            && (forall i :: 0 <= i <= |evs| && IsRun(evs, i, |evs|) ==> |evs| - i <= c)
            && (forall i, j :: 0 <= i <= j <= |evs| && IsRun(evs, i, j) ==> j - i <= b)
            && (exists i, j :: 0 <= i <= j <= |evs| && j - i == b && IsRun(evs, i, j))
  {
    ReplayTracks(groupId, userId, evs);
  }

  /** The record exists exactly once a task has been completed, and remembers the last one's date. */
  lemma ReplayRemembersLastCompletion(groupId: GroupId, userId: UserId, evs: seq<Event>)
    ensures var rec := Replay(groupId, userId, evs);
            && (rec.Some? <==> LastCompletion(evs).Some?)
            && (rec.Some? ==> rec.value.lastTaskDate == LastCompletion(evs) && KeyOf(rec.value) == (groupId, userId))
  {
    ReplayTracks(groupId, userId, evs);
  }

  /** Replaying a history one event longer is one more Step. */
  lemma ReplaySnoc(groupId: GroupId, userId: UserId, evs: seq<Event>, e: Event)
    ensures Replay(groupId, userId, evs + [e]) == Step(Replay(groupId, userId, evs), groupId, userId, e)
  {
    assert (evs + [e])[..|evs|] == evs;
  }

  /** Completions on days D, D+1, D+2 give a current and best streak of 3. */
  lemma ThreeConsecutiveDays(groupId: GroupId, userId: UserId, d: Instant, tz: TimeZone)
    ensures var rec := Replay(groupId, userId,
                              [Completion(d, tz), Completion(d + MsPerDay, tz), Completion(d + 2 * MsPerDay, tz)]);
            rec.Some? && rec.value.currentStreak == 3 && rec.value.bestStreak == 3
  {
    var e0, e1, e2 := Completion(d, tz), Completion(d + MsPerDay, tz), Completion(d + 2 * MsPerDay, tz);
    LocalDayShift(d, 1, tz);
    LocalDayShift(d, 2, tz);
    ReplaySnoc(groupId, userId, [], e0);
    assert [] + [e0] == [e0];
    ReplaySnoc(groupId, userId, [e0], e1);
    assert [e0] + [e1] == [e0, e1];
    ReplaySnoc(groupId, userId, [e0, e1], e2);
    assert [e0, e1] + [e2] == [e0, e1, e2];
    var r1 := Replay(groupId, userId, [e0]);
    assert r1.value.currentStreak == 1 && r1.value.lastTaskDate == Some(d);
    var r2 := Replay(groupId, userId, [e0, e1]);
    assert r2.value.currentStreak == 2 && r2.value.bestStreak == 2;
  }

  /** Completions on days D, D+1, D+5 end with current streak 1 and best streak 2. */
  lemma GapRestartsStreak(groupId: GroupId, userId: UserId, d: Instant, tz: TimeZone)
    ensures var rec := Replay(groupId, userId,
                              [Completion(d, tz), Completion(d + MsPerDay, tz), Completion(d + 5 * MsPerDay, tz)]);
            rec.Some? && rec.value.currentStreak == 1 && rec.value.bestStreak == 2
  {
    var e0, e1, e2 := Completion(d, tz), Completion(d + MsPerDay, tz), Completion(d + 5 * MsPerDay, tz);
    LocalDayShift(d, 1, tz);
    LocalDayShift(d, 5, tz);
    ReplaySnoc(groupId, userId, [], e0);
    assert [] + [e0] == [e0];
    ReplaySnoc(groupId, userId, [e0], e1);
    assert [e0] + [e1] == [e0, e1];
    ReplaySnoc(groupId, userId, [e0, e1], e2);
    assert [e0, e1] + [e2] == [e0, e1, e2];
    var r1 := Replay(groupId, userId, [e0]);
    assert r1.value.currentStreak == 1 && r1.value.lastTaskDate == Some(d);
    var r2 := Replay(groupId, userId, [e0, e1]);
    assert r2.value.currentStreak == 2 && r2.value.bestStreak == 2;
  }

  /** Three consecutive completions and then a miss: current 0, best still 3. */
  lemma MissAfterThreeDays(groupId: GroupId, userId: UserId, d: Instant, tz: TimeZone)
    ensures var rec := Replay(groupId, userId,
                              [Completion(d, tz), Completion(d + MsPerDay, tz), Completion(d + 2 * MsPerDay, tz), Miss]);
            rec.Some? && rec.value.currentStreak == 0 && rec.value.bestStreak == 3
  {
    var three := [Completion(d, tz), Completion(d + MsPerDay, tz), Completion(d + 2 * MsPerDay, tz)];
    ThreeConsecutiveDays(groupId, userId, d, tz);
    ReplaySnoc(groupId, userId, three, Miss);
    assert three + [Miss] ==
           [Completion(d, tz), Completion(d + MsPerDay, tz), Completion(d + 2 * MsPerDay, tz), Miss];
  }
}
