/**
 * Answer streaks (`update_streak`, `get_streak`): each time both partners
 * have answered a day's question, each partner's streak record is advanced
 * to that question's date. Answering on the calendar day after the last one
 * extends the streak, answering on the same day changes nothing, anything
 * else starts again at 1. Milestones are recorded once each, in the order
 * they are reached.
 */
module Streaks {
  import opened Common
  import opened Calendar

  const STREAK_MILESTONES: seq<int> := [7, 14, 30, 60, 100, 365]

  datatype Streak = Streak(current: int, longest: int, last: Option<Date>, milestones: seq<int>)

  /** The record `register` stores, and the one `update_streak` starts from when none is stored. */
  const FRESH: Streak := Streak(0, 0, None, [])

  /** The dates in a record are ones `strptime` can produce. */
  predicate DatesValid(s: Streak) {
    s.last.Some? ==> Valid(s.last.value)
  }

  /**
   * The `for milestone in STREAK_MILESTONES` loop over the candidates in
   * `todo`: each one the streak has reached and the record lacks is appended.
   */
  function AddMilestones(reached: seq<int>, current: int, todo: seq<int>): seq<int>
    decreases |todo|
  {
    if todo == [] then reached
    else
      var m := todo[0];
      AddMilestones(if current >= m && m !in reached then reached + [m] else reached, current, todo[1..])
  }

  /** The new value of `current_streak`, from the day difference to the last answer. */
  function NextCurrent(s: Streak, d: Date): int
    requires DatesValid(s) && Valid(d)
  {
    match s.last
    case None => 1
    case Some(l) =>
      var diff := Ordinal(d) - Ordinal(l);
      if diff == 0 then s.current
      else if diff == 1 then s.current + 1
      else 1
  }

  /** `update_streak(user, d)` applied to the stored record `s`. */
  function Advance(s: Streak, d: Date): Streak
    requires DatesValid(s) && Valid(d)
  {
    if s.last == Some(d) then s
    else
      var current := NextCurrent(s, d);
      Streak(current, if current > s.longest then current else s.longest, Some(d),
             AddMilestones(s.milestones, current, STREAK_MILESTONES))
  }

  /**
   * The three cases of the day difference, stated with calendar days rather
   * than ordinals: the same date leaves the record alone, the next calendar
   * day extends the streak by one, any other date (or no earlier date)
   * restarts it at 1. The longest streak never decreases and is never below
   * the current one after an update.
   */
  lemma AdvanceCases(s: Streak, d: Date)
    requires DatesValid(s) && Valid(d)
    ensures var r := Advance(s, d);
      && (s.last == Some(d) ==> r == s)
      && (s.last.Some? && d == NextDay(s.last.value) ==> r.current == s.current + 1)
      && (s.last != Some(d) && !(s.last.Some? && d == NextDay(s.last.value)) ==> r.current == 1)
      && (s.last != Some(d) ==> r.last == Some(d) && r.longest >= r.current)
      && r.longest >= s.longest
  {
    if s.last.Some? {
      var l := s.last.value;
      DifferenceOfOne(l, d);
      if Ordinal(d) == Ordinal(l) {
        OrdinalInjective(d, l);
      }
    }
  }

  /** Every element of `s` is different from the others. */
  predicate Distinct(s: seq<int>) {
    forall i, j :: 0 <= i < j < |s| ==> s[i] != s[j]
  }

  /**
   * The milestone loop keeps what was reached, in order, adds only
   * candidates the streak has reached, adds every such candidate, and never
   * adds one twice.
   */
  lemma {:induction false} AddMilestonesSpec(reached: seq<int>, current: int, todo: seq<int>)
    requires Distinct(todo)
    ensures var r := AddMilestones(reached, current, todo);
      && |reached| <= |r| && r[..|reached|] == reached
      && (forall k :: |reached| <= k < |r| ==> r[k] in todo && r[k] <= current)
      && (forall m :: m in todo && m <= current ==> m in r)
      && (Distinct(reached) ==> Distinct(r))
    decreases |todo|
  {
    if todo != [] {
      var m := todo[0];
      var next := if current >= m && m !in reached then reached + [m] else reached;
      assert Distinct(todo[1..]);
      AddMilestonesSpec(next, current, todo[1..]);
      var r := AddMilestones(next, current, todo[1..]);
      assert r[..|next|] == next;
      assert r[..|reached|] == next[..|reached|];
      forall k | |reached| <= k < |r|
        ensures r[k] in todo && r[k] <= current
      {
        if k < |next| {
          assert r[k] == next[k] == m;
        } else {
          assert r[k] in todo[1..];
        }
      }
      forall x | x in todo && x <= current
        ensures x in r
      {
        if x == m {
          if m in reached {
            assert m == r[..|reached|][IndexIn(reached, m)];
          } else {
            assert r[..|next|][|reached|] == m;
          }
        } else {
          assert x in todo[1..];
        }
      }
    }
  }

  function IndexIn(s: seq<int>, x: int): (i: nat)
    requires x in s
    ensures i < |s| && s[i] == x
  {
    if s[0] == x then 0 else 1 + IndexIn(s[1..], x)
  }

  /**
   * What every stored streak record satisfies: the longest streak bounds the
   * current one and every recorded milestone; milestones are distinct
   * entries of `STREAK_MILESTONES`; and each milestone up to the current
   * streak has been recorded.
   */
  predicate StreakValid(s: Streak) {
    && DatesValid(s)
    && 0 <= s.current <= s.longest
    && Distinct(s.milestones)
    && (forall k :: 0 <= k < |s.milestones| ==> s.milestones[k] in STREAK_MILESTONES && s.milestones[k] <= s.longest)
    && (forall m :: m in STREAK_MILESTONES && m <= s.current ==> m in s.milestones)
  }

  lemma FreshValid()
    ensures StreakValid(FRESH)
  {
  }

  lemma MilestonesDistinct()
    ensures Distinct(STREAK_MILESTONES)
  {
  }

  /**
   * The milestones after the loop, for a valid record and a new streak
   * `current`: the old ones first, all distinct, all from the list and
   * within the new longest streak, and every one up to `current` present.
   */
  lemma MovedMilestones(s: Streak, current: int)
    requires StreakValid(s) && current >= 0
    ensures var ms := AddMilestones(s.milestones, current, STREAK_MILESTONES);
      var longest := if current > s.longest then current else s.longest;
      && |s.milestones| <= |ms| && ms[..|s.milestones|] == s.milestones
      && Distinct(ms)
      && (forall k :: 0 <= k < |ms| ==> ms[k] in STREAK_MILESTONES && ms[k] <= longest)
      && (forall m :: m in STREAK_MILESTONES && m <= current ==> m in ms)
  {
    MilestonesDistinct();
    AddMilestonesSpec(s.milestones, current, STREAK_MILESTONES);
    var ms := AddMilestones(s.milestones, current, STREAK_MILESTONES);
    forall k | 0 <= k < |s.milestones|
      ensures ms[k] == s.milestones[k]
    {
      assert ms[k] == ms[..|s.milestones|][k];
    }
  }

  /** A record moved to date `d` with streak `current` stays valid and keeps its milestones in front. */
  lemma MovedValid(s: Streak, current: int, d: Date)
    requires StreakValid(s) && Valid(d) && current >= 0
    ensures var r := Streak(current, if current > s.longest then current else s.longest, Some(d),
                            AddMilestones(s.milestones, current, STREAK_MILESTONES));
      && StreakValid(r)
      && |s.milestones| <= |r.milestones| && r.milestones[..|s.milestones|] == s.milestones
  {
    MovedMilestones(s, current);
  }

  /** Advancing keeps a record valid, keeps every milestone already reached, and keeps them in front. */
  lemma AdvanceValid(s: Streak, d: Date)
    requires StreakValid(s) && Valid(d)
    ensures var r := Advance(s, d);
      && StreakValid(r)
      && |s.milestones| <= |r.milestones| && r.milestones[..|s.milestones|] == s.milestones
  {
    if s.last != Some(d) {
      MovedValid(s, NextCurrent(s, d), d);
    }
  }

  /**
   * The body of `update_streak` on the record `stored` (None when no record
   * exists), with the loop over the milestones; the result is what is
   * written back (the unchanged record when the date is the same as before).
   */
  method UpdateStreak(stored: Option<Streak>, d: Date) returns (r: Streak)
    requires stored.Some? ==> DatesValid(stored.value)
    requires Valid(d)
    ensures r == Advance(stored.GetOr(FRESH), d)
  {
    var s := stored.GetOr(FRESH);
    if s.last == Some(d) {
      return s;
    }
    var current := NextCurrent(s, d);
    var longest := s.longest;
    if current > longest {
      longest := current;
    }
    var milestones := s.milestones;
    var i := 0;
    while i < |STREAK_MILESTONES|
      invariant 0 <= i <= |STREAK_MILESTONES|
      invariant AddMilestones(milestones, current, STREAK_MILESTONES[i..])
             == AddMilestones(s.milestones, current, STREAK_MILESTONES)
    {
      var m := STREAK_MILESTONES[i];
      assert STREAK_MILESTONES[i..][1..] == STREAK_MILESTONES[i + 1..];
      if current >= m && m !in milestones {
        milestones := milestones + [m];
      }
      i := i + 1;
    }
    r := Streak(current, longest, Some(d), milestones);
  }

  /** `get_streak`: the stored record, or zeros when there is none. */
  function GetStreak(stored: Option<Streak>): (s: Streak)
    ensures stored.None? ==> s.current == 0 && s.longest == 0 && s.last.None? && s.milestones == []
    ensures stored.Some? ==> s == stored.value
  {
    stored.GetOr(FRESH)
  }
}
