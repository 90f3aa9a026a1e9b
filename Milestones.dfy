/** The streak badges: the milestones a streak has reached, and which of them is the
    latest (the one that may animate). */
module Milestones {

  datatype Milestone = Milestone(days: int, title: string, color: string)

  /** The milestone table, in ascending order of days. */
  const Table: seq<Milestone> := [
    Milestone(3, "3 Day Streak!", "from-orange-400 to-red-500"),
    Milestone(7, "Week Warrior!", "from-yellow-400 to-orange-500"),
    Milestone(14, "Two Weeks!", "from-green-400 to-emerald-500"),
    Milestone(30, "Month Master!", "from-purple-400 to-pink-500")
  ]

  predicate Ascending(ms: seq<Milestone>) {
    forall i, j :: 0 <= i < j < |ms| ==> ms[i].days < ms[j].days
  }

  /** `milestones.filter(m => streak >= m.days)` over any list. */
  function Reached(ms: seq<Milestone>, streak: int): (r: seq<Milestone>)
    ensures |r| <= |ms|
  {
    if ms == [] then []
    else (if streak >= ms[0].days then [ms[0]] else []) + Reached(ms[1..], streak)
  }

  /** The filter keeps exactly the milestones the streak has reached. */
  lemma {:induction false} ReachedMembers(ms: seq<Milestone>, streak: int)
    ensures forall m :: m in Reached(ms, streak) <==> m in ms && streak >= m.days
  {
    if ms != [] {
      ReachedMembers(ms[1..], streak);
      assert ms == [ms[0]] + ms[1..];
    }
  }

  /** `achievedMilestones`. */
  function Achieved(streak: int): seq<Milestone> {
    Reached(Table, streak)
  }

  /** How many thresholds a streak has passed, read off the table by hand. */
  function Level(streak: int): (k: nat)
    ensures k <= |Table|
  {
    if streak >= 30 then 4 else if streak >= 14 then 3 else if streak >= 7 then 2 else if streak >= 3 then 1 else 0
  }

  /** From an ascending list, the filter keeps a prefix: everything up to the first
      threshold above the streak. */
  lemma {:induction false} ReachedAscending(ms: seq<Milestone>, streak: int, k: nat)
    requires Ascending(ms) && k <= |ms|
    requires forall i :: 0 <= i < k ==> ms[i].days <= streak
    requires k == |ms| || ms[k].days > streak
    ensures Reached(ms, streak) == ms[..k]
  {
    if ms != [] {
      if k == 0 {
        forall i | 0 <= i < |ms| ensures ms[i].days > streak {
          assert i == 0 || ms[0].days < ms[i].days;
        }
        NoneReached(ms, streak);
      } else {
        var tail := ms[1..];
        AscendingTail(ms);
        forall i | 0 <= i < k - 1 ensures tail[i].days <= streak {
          assert tail[i] == ms[i + 1];
        }
        assert k - 1 == |tail| || tail[k - 1] == ms[k];
        ReachedAscending(tail, streak, k - 1);
        ReachedKeep(ms, streak, k);
      }
    }
  }

  /** A first milestone that is reached stays in front of the rest. */
  lemma ReachedKeep(ms: seq<Milestone>, streak: int, k: nat)
    requires 0 < k <= |ms| && ms[0].days <= streak
    requires Reached(ms[1..], streak) == ms[1..][..k - 1]
    ensures Reached(ms, streak) == ms[..k]
  {
    assert ms[..k] == [ms[0]] + ms[1..][..k - 1];
  }

  lemma AscendingTail(ms: seq<Milestone>)
    requires ms != [] && Ascending(ms)
    ensures Ascending(ms[1..])
  {
    var tail := ms[1..];
    forall i, j | 0 <= i < j < |tail| ensures tail[i].days < tail[j].days {
      assert tail[i] == ms[i + 1] && tail[j] == ms[j + 1];
    }
  }

  lemma {:induction false} NoneReached(ms: seq<Milestone>, streak: int)
    requires forall i :: 0 <= i < |ms| ==> ms[i].days > streak
    ensures Reached(ms, streak) == []
  {
    if ms != [] {
      NoneReached(ms[1..], streak);
    }
  }

  /** The milestones achieved are the first `Level(streak)` of the table, in order. */
  lemma AchievedIsPrefix(streak: int)
    ensures Achieved(streak) == Table[..Level(streak)]
  {
    ReachedAscending(Table, streak, Level(streak));
  }

  /** Below three days nothing is shown; from thirty days on, all four badges are. */
  lemma AchievedBounds(streak: int)
    ensures streak < 3 <==> Achieved(streak) == []
    ensures streak >= 30 ==> Achieved(streak) == Table
  {
    AchievedIsPrefix(streak);
    assert Table[..4] == Table;
  }

  /** A longer streak keeps every badge and may add more. */
  lemma AchievedMonotone(s1: int, s2: int)
    requires s1 <= s2
    ensures Achieved(s1) <= Achieved(s2)
  {
    AchievedIsPrefix(s1);
    AchievedIsPrefix(s2);
  }

  // ---------------------------------------------------------------------------
  // The latest badge

  function Days(ms: seq<Milestone>): (ds: seq<int>)
    ensures |ds| == |ms| && forall i :: 0 <= i < |ms| ==> ds[i] == ms[i].days
  {
    seq(|ms|, i requires 0 <= i < |ms| => ms[i].days)
  }

  /** `Math.max(...ds)` over a non-empty list. */
  function Max(ds: seq<int>): (m: int)
    requires ds != []
    ensures m in ds && forall i :: 0 <= i < |ds| ==> ds[i] <= m
  {
    if |ds| == 1 then ds[0]
    else
      var rest := Max(ds[1..]);
      assert forall i :: 1 <= i < |ds| ==> ds[i] == ds[1..][i - 1];
      if ds[0] >= rest then ds[0] else rest
  }

  /** `isLatest` of a badge among the achieved ones. */
  predicate IsLatest(m: Milestone, achieved: seq<Milestone>)
    requires achieved != []
  {
    m.days == Max(Days(achieved))
  }

  /** `animate && isLatest`: whether a badge plays the entrance animation. */
  predicate Animates(m: Milestone, achieved: seq<Milestone>, animate: bool)
    requires achieved != []
  {
    animate && IsLatest(m, achieved)
  }

  /** Exactly one achieved badge is the latest: the last, with the largest threshold. */
  lemma LatestIsLast(streak: int, i: nat)
    requires i < |Achieved(streak)|
    ensures IsLatest(Achieved(streak)[i], Achieved(streak)) <==> i == |Achieved(streak)| - 1
  {
    var a := Achieved(streak);
    AchievedIsPrefix(streak);
    assert Ascending(a);
    var ds := Days(a);
    var k := |a| - 1;
    assert forall j :: 0 <= j < |ds| ==> ds[j] <= ds[k];
    assert Max(ds) == ds[k];
  }
}
