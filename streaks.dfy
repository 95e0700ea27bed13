/**
 * The streak engine of src/lib/services/streak.service.ts.
 *
 * The streak table is a map from the unique key (groupId, userId) to the
 * record; `findUnique`, `create`, `update` and `findMany` become lookups and
 * assignments on that map. Each service function runs as one atomic step.
 */
module Streaks {
  import opened Options
  import opened CalendarDay
  import opened Collections
  import opened Ids

  type StreakKey = (GroupId, UserId)

  datatype Streak = Streak(
    groupId: GroupId,
    userId: UserId,
    currentStreak: int,
    bestStreak: int,
    lastTaskDate: Option<Instant>)

  /** The record invariant: both counters are non-negative and best is a high-water mark. */
  predicate WellFormed(s: Streak)
  {
    0 <= s.currentStreak <= s.bestStreak
  }

  function KeyOf(s: Streak): StreakKey
  {
    (s.groupId, s.userId)
  }

  function CurrentOf(s: Streak): int
  {
    s.currentStreak
  }

  /** The record `prisma.streak.create` makes (streak.service.ts:16-25). */
  function NewStreak(groupId: GroupId, userId: UserId): (r: Streak)
    ensures KeyOf(r) == (groupId, userId) && WellFormed(r)
    ensures r.currentStreak == 0 && r.bestStreak == 0 && r.lastTaskDate.None?
  {
    Streak(groupId, userId, 0, 0, None)
  }

  function Max(a: int, b: int): int
  {
    if a >= b then a else b
  }

  /**
   * The update of streak.service.ts:27-43 applied to the record read (or
   * just created): a completion on the day after `lastTaskDate`, or with no
   * `lastTaskDate`, extends the streak; any other completion restarts it at 1.
   */
  function Complete(s: Streak, taskDate: Instant, tz: TimeZone): (r: Streak)
    ensures KeyOf(r) == KeyOf(s)
    ensures r.lastTaskDate == Some(taskDate)
    ensures r.currentStreak == 1 || r.currentStreak == s.currentStreak + 1
    ensures r.bestStreak >= s.bestStreak && r.bestStreak >= r.currentStreak
    ensures r.bestStreak == Max(r.currentStreak, s.bestStreak)
    ensures s.lastTaskDate.None? ==> r.currentStreak == s.currentStreak + 1
    ensures WellFormed(s) ==> WellFormed(r) && r.currentStreak >= 1
  {
    var isConsecutive :=
      match s.lastTaskDate
      case None => true
      case Some(last) => IsNextDay(last, taskDate, tz);
    var newCurrent := if isConsecutive then s.currentStreak + 1 else 1;
    s.(currentStreak := newCurrent,
       bestStreak := Max(newCurrent, s.bestStreak),
       lastTaskDate := Some(taskDate))
  }

  /** The update of streak.service.ts:57-62: only the current count is reset. */
  function Break(s: Streak): (r: Streak)
    ensures r.currentStreak == 0
    ensures KeyOf(r) == KeyOf(s) && r.bestStreak == s.bestStreak && r.lastTaskDate == s.lastTaskDate
    ensures WellFormed(s) ==> WellFormed(r)
  {
    s.(currentStreak := 0)
  }

  function Lookup(records: map<StreakKey, Streak>, groupId: GroupId, userId: UserId): Option<Streak>
  {
    if (groupId, userId) in records then Some(records[(groupId, userId)]) else None
  }

  /** updateStreakOnTaskCompletion's effect on one key: lazily create, then complete. */
  function CompleteRecord(rec: Option<Streak>, groupId: GroupId, userId: UserId,
                          taskDate: Instant, tz: TimeZone): Streak
  {
    Complete(if rec.Some? then rec.value else NewStreak(groupId, userId), taskDate, tz)
  }

  /** breakStreak's effect on one key: nothing when there is no record. */
  function BreakRecord(rec: Option<Streak>): Option<Streak>
  {
    if rec.Some? then Some(Break(rec.value)) else None
  }

  /** On a fresh record the first completion always gives a streak of 1 (best 1). */
  lemma FirstCompletion(groupId: GroupId, userId: UserId, taskDate: Instant, tz: TimeZone)
    ensures var r := CompleteRecord(None, groupId, userId, taskDate, tz);
            r.currentStreak == 1 && r.bestStreak == 1 && r.lastTaskDate == Some(taskDate)
  {
  }

  /**
   * A completion extends the streak exactly when it falls on the local day
   * after the last task's day, and otherwise restarts it, whatever the time
   * of day of either instant.
   */
  lemma CompletionExtendsIffNextLocalDay(s: Streak, last: Instant, taskDate: Instant, tz: TimeZone)
    requires WellFormed(s) && s.lastTaskDate == Some(last)
    ensures (Complete(s, taskDate, tz).currentStreak == s.currentStreak + 1)
              <==> (LocalDay(taskDate, tz) == LocalDay(last, tz) + 1 || s.currentStreak == 0)
    ensures LocalDay(taskDate, tz) <= LocalDay(last, tz) ==> Complete(s, taskDate, tz).currentStreak == 1
  {
  }

  /** After breakStreak the next completion starts over at 1, consecutive day or not. */
  lemma CompletionAfterBreakIsOne(s: Streak, taskDate: Instant, tz: TimeZone)
    requires WellFormed(s)
    ensures Complete(Break(s), taskDate, tz).currentStreak == 1
    ensures Complete(Break(s), taskDate, tz).bestStreak == s.bestStreak
              || (s.bestStreak == 0 && Complete(Break(s), taskDate, tz).bestStreak == 1)
  {
  }

  /** The table keyed by (groupId, userId). */
  class StreakStore {
    var records: map<StreakKey, Streak>

    /** Every record sits under its own key and keeps the record invariant. */
    ghost predicate Valid()
      reads this
    {
      forall k :: k in records ==> KeyOf(records[k]) == k && WellFormed(records[k])
    }

    constructor ()
      ensures Valid() && records == map[]
    {
      records := map[];
    }

    /** updateStreakOnTaskCompletion (streak.service.ts:4-44). */
    method UpdateStreakOnTaskCompletion(userId: UserId, groupId: GroupId, taskDate: Instant, tz: TimeZone)
      returns (updated: Streak)
      requires Valid()
      modifies this
      ensures Valid()
      ensures updated == CompleteRecord(Lookup(old(records), groupId, userId), groupId, userId, taskDate, tz)
      ensures records == old(records)[(groupId, userId) := updated]
      ensures (groupId, userId) !in old(records) ==> updated.currentStreak == 1 && updated.bestStreak == 1
      ensures (groupId, userId) in old(records) ==>
                var before := old(records)[(groupId, userId)];
                (updated.currentStreak ==
                   if before.lastTaskDate.Some? && !IsNextDay(before.lastTaskDate.value, taskDate, tz)
                   then 1 else before.currentStreak + 1)
                && updated.bestStreak == Max(updated.currentStreak, before.bestStreak)
      ensures updated.lastTaskDate == Some(taskDate) && KeyOf(updated) == (groupId, userId)
    {
      var key := (groupId, userId);
      var streak: Streak;
      if key in records {
        streak := records[key];
      } else {
        streak := NewStreak(groupId, userId);
        records := records[key := streak];
      }

      var isConsecutive := true;
      if streak.lastTaskDate.Some? {
        isConsecutive := IsNextDay(streak.lastTaskDate.value, taskDate, tz);
      }
      var newCurrentStreak := if isConsecutive then streak.currentStreak + 1 else 1;
      var newBestStreak := Max(newCurrentStreak, streak.bestStreak);

      updated := streak.(currentStreak := newCurrentStreak,
                         bestStreak := newBestStreak,
                         lastTaskDate := Some(taskDate));
      records := records[key := updated];
    }

    /** breakStreak (streak.service.ts:46-63). */
    method BreakStreak(userId: UserId, groupId: GroupId) returns (result: Option<Streak>)
      requires Valid()
      modifies this
      ensures Valid()
      ensures result == BreakRecord(Lookup(old(records), groupId, userId))
      ensures result.None? ==> records == old(records)
      ensures result.Some? ==> records == old(records)[(groupId, userId) := result.value]
    {
      var key := (groupId, userId);
      if key !in records {
        return None;
      }
      var streak := records[key];
      var updated := streak.(currentStreak := 0);
      records := records[key := updated];
      result := Some(updated);
    }

    /** getStreakForUser (streak.service.ts:65-71). */
    function GetStreakForUser(userId: UserId, groupId: GroupId): (r: Option<Streak>)
      reads this
      requires Valid()
      ensures r.Some? <==> (groupId, userId) in records
      ensures r.Some? ==> r.value == records[(groupId, userId)]
      ensures r.Some? ==> KeyOf(r.value) == (groupId, userId) && WellFormed(r.value)
    {
      Lookup(records, groupId, userId)
    }

    /**
     * `r` lists the records stored under `keys`, each exactly once, ordered
     * by current streak, highest first.
     */
    ghost predicate ListsRecords(r: seq<Streak>, keys: set<StreakKey>)
      reads this
      requires keys <= records.Keys
    {
      && SortedBy(r, CurrentOf, Descending)
      && (forall s :: s in r <==> KeyOf(s) in keys && KeyOf(s) in records && records[KeyOf(s)] == s)
      && (forall s :: multiset(r)[s] <= 1)
    }

    /** The records under `keys`, ordered by currentStreak descending. */
    method ListOrderedByStreak(keys: set<StreakKey>) returns (r: seq<Streak>)
      requires Valid() && keys <= records.Keys
      ensures ListsRecords(r, keys)
    {
      r := [];
      var todo := keys;
      while todo != {}
        invariant todo <= keys
        invariant SortedBy(r, CurrentOf, Descending)
        invariant forall s :: s in r <==> KeyOf(s) in keys - todo && KeyOf(s) in records && records[KeyOf(s)] == s
        invariant forall s :: multiset(r)[s] <= 1
        decreases todo
      {
        var k :| k in todo;
        var s := records[k];
        assert s !in r;
        var r' := InsertBy(r, s, CurrentOf, Descending);
        assert forall y :: y in r' <==> y in multiset(r) || y == s by {
          assert forall y :: y in r' <==> y in multiset(r');
        }
        r, todo := r', todo - {k};
      }
    }

    /** getAllStreaksForUser (streak.service.ts:73-88): the user's records in every group. */
    method GetAllStreaksForUser(userId: UserId) returns (r: seq<Streak>)
      requires Valid()
      ensures ListsRecords(r, set k | k in records && k.1 == userId)
      ensures forall s :: s in r ==> s.userId == userId && WellFormed(s)
    {
      r := ListOrderedByStreak(set k | k in records && k.1 == userId);
    }

    /** getStreaksForGroup (streak.service.ts:90-105): every member's record in one group. */
    method GetStreaksForGroup(groupId: GroupId) returns (r: seq<Streak>)
      requires Valid()
      ensures ListsRecords(r, set k | k in records && k.0 == groupId)
      ensures forall s :: s in r ==> s.groupId == groupId && WellFormed(s)
    {
      r := ListOrderedByStreak(set k | k in records && k.0 == groupId);
    }
  }
}
