/** The home page: the streak shown in the header (`calculateStreak`, which walks the
    entries newest first against the calendar from today) and the "already wrote
    today" check. */
module Index {
  import opened Common
  import opened Sorting
  import opened Stats

  /** The walk of `calculateStreak` over the newest-first dates: the number of leading
      dates that equal today, today - 1, today - 2, ... in turn. */
  function CalendarWalk(desc: seq<int>, today: int): (r: nat)
    ensures r <= |desc|
    ensures forall j :: 0 <= j < r ==> desc[j] == today - j
    ensures r < |desc| ==> desc[r] != today - r
  {
    if desc == [] || desc[0] != today then 0
    else
      var r := CalendarWalk(desc[1..], today - 1);
      assert forall j :: 1 <= j < r + 1 ==> desc[j] == desc[1..][j - 1];
      r + 1
  }

  /** `calculateStreak`: an empty list gives 0; otherwise a sorted copy, newest first,
      is walked while each date equals today minus the streak so far. */
  method CalculateStreak(entries: seq<Entry>, today: int) returns (streak: nat)
    ensures streak == CalendarWalk(SortDesc(Days(entries)), today)
    ensures entries == [] ==> streak == 0
    ensures streak <= |entries|
  {
    if |entries| == 0 {
      return 0;
    }
    var sortedEntries := SortDesc(Days(entries));
    streak := WalkDates(sortedEntries, today);
  }

  /** The loop of `calculateStreak` over the newest-first dates: it stops at the first
      date that is not today minus the streak so far. */
  method WalkDates(sortedEntries: seq<int>, today: int) returns (streak: nat)
    ensures streak == CalendarWalk(sortedEntries, today)
  {
    streak := 0;
    var i := 0;
    while i < |sortedEntries|
      invariant 0 <= i <= |sortedEntries|
      invariant streak == i
      invariant forall j :: 0 <= j < i ==> sortedEntries[j] == today - j
    {
      if sortedEntries[i] == today - streak {
        streak := streak + 1;
      } else {
        break;
      }
      i := i + 1;
    }
    CalendarWalkFrom(sortedEntries, today, streak);
  }

  /** The walk is characterised by its two ensures: a prefix that matches the calendar
      and cannot be extended is the walk. */
  lemma {:induction false} CalendarWalkFrom(desc: seq<int>, today: int, k: nat)
    requires k <= |desc|
    requires forall j :: 0 <= j < k ==> desc[j] == today - j
    requires k < |desc| ==> desc[k] != today - k
    ensures CalendarWalk(desc, today) == k
    decreases k
  {
    if k > 0 {
      assert forall j :: 0 <= j < k - 1 ==> desc[1..][j] == desc[j + 1];
      CalendarWalkFrom(desc[1..], today - 1, k - 1);
    }
  }

  /** Without an entry dated today the streak is 0: there is no yesterday grace. */
  lemma NoEntryTodayMeansZero(entries: seq<Entry>, today: int)
    requires forall i :: 0 <= i < |entries| ==> entries[i].day != today
    ensures CalendarWalk(SortDesc(Days(entries)), today) == 0
  {
    var desc := SortDesc(Days(entries));
    if desc != [] {
      assert desc[0] in multiset(desc);
      assert desc[0] in Days(entries);
    }
  }

  /** A nonzero streak consists of distinct dates, so a repeated date always stops
      the walk. */
  lemma WalkHasNoRepeats(desc: seq<int>, today: int, i: int, j: int)
    requires 0 <= i < j < CalendarWalk(desc, today)
    ensures desc[i] != desc[j]
  {
  }

  /** A nonzero streak on the home page equals the current streak of the statistics
      page on the same entries. */
  lemma NonzeroStreakAgreesWithStats(entries: seq<Entry>, today: int)
    requires CalendarWalk(SortDesc(Days(entries)), today) > 0
    ensures CalendarWalk(SortDesc(Days(entries)), today)
      == CurrentStreak(SortAsc(Days(entries)), today)
  {
    var days := Days(entries);
    var asc := SortAsc(days);
    assert SortDesc(days) == Reverse(asc);
    WalkIsCurrentStreak(asc, today);
  }

  lemma WalkIsCurrentStreak(asc: seq<int>, today: int)
    requires CalendarWalk(Reverse(asc), today) > 0
    ensures CalendarWalk(Reverse(asc), today) == CurrentStreak(asc, today)
  {
    WalkIsTrailingRun(asc, today);
  }

  /** The walk over the reversed ascending dates is the final run of the ascending
      dates, when that run ends today. */
  lemma WalkIsTrailingRun(asc: seq<int>, today: int)
    requires CalendarWalk(Reverse(asc), today) > 0
    ensures CalendarWalk(Reverse(asc), today) == TrailingRun(asc)
    ensures asc[|asc| - 1] == today
  {
    var desc := Reverse(asc);
    var k := CalendarWalk(desc, today);
    var n := |asc|;
    forall m | n - k <= m < n - 1 ensures Step(asc, m) == 1 {
      assert asc[m] == desc[n - 1 - m] && asc[m + 1] == desc[n - 2 - m];
    }
    if k < n {
      assert asc[n - k - 1] == desc[k];
      assert asc[n - k] == desc[k - 1];
    }
    TrailingRunFrom(asc, n - k);
  }

  /** Hence the home-page streak never exceeds the statistics page's current streak. */
  lemma StreakAtMostStatsCurrent(entries: seq<Entry>, today: int)
    ensures CalendarWalk(SortDesc(Days(entries)), today)
      <= CurrentStreak(SortAsc(Days(entries)), today)
  {
    if CalendarWalk(SortDesc(Days(entries)), today) > 0 {
      NonzeroStreakAgreesWithStats(entries, today);
    }
  }

  /** `hasEntryToday`: some entry carries today's (UTC) date. */
  function HasEntryToday(entries: seq<Entry>, todayUtc: int): (r: bool)
    ensures r <==> exists i :: 0 <= i < |entries| && entries[i].day == todayUtc
  {
    FindByDay(entries, todayUtc).Some?
  }
}
