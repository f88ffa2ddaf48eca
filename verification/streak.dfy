/** The daily-activity streak of latest/app.tsx (`updateStreak`). Calendar days
    are integer day numbers; "yesterday" is `today - 1`; the empty date key of a
    learner who never recorded activity is `None`. */
module Streak {
  import opened Common

  datatype Streak = Streak(last: Option<int>, count: int)

  /** `{ last: '', count: 0 }`. */
  const NoStreak: Streak := Streak(None, 0)

  /** A streak the tracker can be in: no date and no count, or a date and a count
      of at least one. */
  predicate Valid(s: Streak) {
    (s.last.None? && s.count == 0) || (s.last.Some? && s.count >= 1)
  }

  /** `updateStreak` on day `today`. */
  function UpdateStreak(s: Streak, today: int): (r: Streak)
    ensures Valid(s) ==> Valid(r)
    ensures r.last == Some(today)
    ensures s.last != Some(today) && s.count >= 0 ==> r.count >= 1
  {
    if s.last == Some(today) then s
    else Streak(Some(today), if s.last == Some(today - 1) then s.count + 1 else 1)
  }

  /** A second call on the same day changes nothing. */
  lemma UpdateStreakIdempotent(s: Streak, today: int)
    ensures UpdateStreak(UpdateStreak(s, today), today) == UpdateStreak(s, today)
  {
  }

  /** The streak after recording activity on each of `days`, in order. */
  function Replay(days: seq<int>): Streak
    decreases |days|
  {
    if |days| == 0 then NoStreak else UpdateStreak(Replay(days[..|days| - 1]), days[|days| - 1])
  }

  predicate NonDecreasing(days: seq<int>) {
    forall i, j :: 0 <= i < j < |days| ==> days[i] <= days[j]
  }

  /** Replaying a chronological activity log leaves the last day as the streak
      date and counts exactly the run of consecutive days ending there: every day
      of the run occurs in the log and the day before the run does not. */
  lemma {:induction false} ReplayCountsTrailingRun(days: seq<int>)
    requires |days| > 0
    requires NonDecreasing(days)
    ensures Replay(days).last == Some(days[|days| - 1])
    ensures Replay(days).count >= 1
    ensures forall j :: days[|days| - 1] - Replay(days).count < j <= days[|days| - 1] ==> j in days
    ensures days[|days| - 1] - Replay(days).count !in days
    decreases |days|
  {
    var n := |days|;
    var t := days[n - 1];
    var r := Replay(days);
    if n == 1 {
      assert days[..0] == [];
      assert r == UpdateStreak(Replay([]), t);
      assert r == Streak(Some(t), 1);
      assert days == [t];
    } else {
      var p := days[..n - 1];
      assert NonDecreasing(p);
      ReplayCountsTrailingRun(p);
      var prev := Replay(p);
      var pl := p[n - 2];
      assert days == p + [t];
      assert r == UpdateStreak(prev, t);
      assert pl <= t;
      forall j | j in p
        ensures j <= pl
      {
        var k :| 0 <= k < |p| && p[k] == j;
        assert days[k] <= days[n - 2];
      }
      if t == pl {
        assert r == prev;
      } else if t == pl + 1 {
        assert r.count == prev.count + 1;
        forall j | t - r.count < j <= t
          ensures j in days
        {
          if j < t {
            assert j in p;
          }
        }
      } else {
        assert r.count == 1;
        assert t - 1 !in p;
      }
    }
  }
}
