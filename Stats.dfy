/** The statistics page: current and longest streak over the sorted entry dates, the
    entry total, the three-month mood heatmap and the 30-entry mood sparkline.
    Dates are day numbers, so `differenceInDays` between two parsed `yyyy-MM-dd` strings
    is their difference and the sorted strings are the ascending day numbers. */
module Stats {
  import opened Common
  import opened Sorting
  import opened Calendar

  // ---------------------------------------------------------------------------
  // Runs of consecutive days

  /** The number of days from `d[k]` to `d[k + 1]` (`differenceInDays`). */
  function Step(d: seq<int>, k: int): int
    requires 0 <= k < |d| - 1
  {
    d[k + 1] - d[k]
  }

  /** Every step from `d[k]` to `d[k + 1]` with `lo <= k < hi - 1` is exactly one day. */
  predicate OneDaySteps(d: seq<int>, lo: int, hi: int)
    requires 0 <= lo <= hi <= |d|
  {
    forall k :: lo <= k < hi - 1 ==> Step(d, k) == 1
  }

  /** A window that stops before the last date sees the same steps in the prefix. */
  lemma PrefixSteps(d: seq<int>, lo: int, hi: int)
    requires 0 <= lo <= hi <= |d| - 1
    ensures OneDaySteps(d[..|d| - 1], lo, hi) <==> OneDaySteps(d, lo, hi)
  {
    var p := d[..|d| - 1];
    forall k | lo <= k < hi - 1 ensures Step(p, k) == Step(d, k) {
      assert p[k] == d[k] && p[k + 1] == d[k + 1];
    }
  }

  /** Length of the run of one-day steps that ends at the last element. */
  function TrailingRun(d: seq<int>): (r: nat)
    ensures d == [] ==> r == 0
    ensures d != [] ==> 1 <= r <= |d|
  {
    if |d| <= 1 then |d|
    else if d[|d| - 1] - d[|d| - 2] == 1 then TrailingRun(d[..|d| - 1]) + 1
    else 1
  }

  function Max(a: int, b: int): int {
    if a < b then b else a
  }

  /** Length of the longest run of one-day steps anywhere in `d`. */
  function LongestRun(d: seq<int>): (r: nat)
    ensures d == [] ==> r == 0
    ensures d != [] ==> 1 <= r <= |d|
    ensures TrailingRun(d) <= r
  {
    if d == [] then 0 else Max(LongestRun(d[..|d| - 1]), TrailingRun(d))
  }

  /** The current streak as the page defines it on the ascending dates: the final run
      when the latest date is today or yesterday, otherwise 0. */
  function CurrentStreak(sorted: seq<int>, today: int): (r: nat)
    ensures r > 0 <==> sorted != [] && (sorted[|sorted| - 1] == today || sorted[|sorted| - 1] == today - 1)
    ensures r <= LongestRun(sorted)
  {
    if sorted != [] && (sorted[|sorted| - 1] == today || sorted[|sorted| - 1] == today - 1)
    then TrailingRun(sorted)
    else 0
  }

  /** The final run is exactly the suffix of one-day steps: every step inside it is one
      day, each of its days is one less than the next, and the step before it is not. */
  lemma {:induction false} TrailingRunSpec(d: seq<int>)
    requires d != []
    ensures OneDaySteps(d, |d| - TrailingRun(d), |d|)
    ensures forall k :: |d| - TrailingRun(d) <= k < |d| ==> d[k] == d[|d| - 1] - (|d| - 1 - k)
    ensures TrailingRun(d) < |d| ==> d[|d| - TrailingRun(d)] - d[|d| - TrailingRun(d) - 1] != 1
  {
    if |d| > 1 && d[|d| - 1] - d[|d| - 2] == 1 {
      var p := d[..|d| - 1];
      TrailingRunSpec(p);
      PrefixSteps(d, |p| - TrailingRun(p), |p|);
      assert forall k :: 0 <= k < |p| ==> p[k] == d[k];
    }
  }

  /** Conversely, a suffix of one-day steps that cannot be extended is the final run. */
  lemma {:induction false} TrailingRunFrom(d: seq<int>, j: int)
    requires 0 <= j < |d|
    requires OneDaySteps(d, j, |d|)
    requires j == 0 || d[j] - d[j - 1] != 1
    ensures TrailingRun(d) == |d| - j
    decreases |d|
  {
    if j < |d| - 1 {
      var p := d[..|d| - 1];
      assert forall k :: 0 <= k < |p| ==> p[k] == d[k];
      PrefixSteps(d, j, |p|);
      assert Step(d, |d| - 2) == 1;
      TrailingRunFrom(p, j);
    }
  }

  /** A suffix of one-day steps is never longer than the final run. */
  lemma {:induction false} TrailingRunAtLeast(d: seq<int>, lo: int)
    requires 0 <= lo < |d|
    requires OneDaySteps(d, lo, |d|)
    ensures |d| - lo <= TrailingRun(d)
    decreases |d|
  {
    if lo < |d| - 1 {
      var p := d[..|d| - 1];
      PrefixSteps(d, lo, |p|);
      assert Step(d, |d| - 2) == 1;
      TrailingRunAtLeast(p, lo);
    }
  }

  /** Every window of one-day steps is at most the longest run. */
  lemma {:induction false} LongestRunIsUpperBound(d: seq<int>, lo: int, hi: int)
    requires 0 <= lo < hi <= |d|
    requires OneDaySteps(d, lo, hi)
    ensures hi - lo <= LongestRun(d)
    decreases |d|
  {
    if hi == |d| {
      TrailingRunAtLeast(d, lo);
    } else {
      var p := d[..|d| - 1];
      PrefixSteps(d, lo, hi);
      LongestRunIsUpperBound(p, lo, hi);
    }
  }

  /** The longest run is attained by some window of one-day steps. */
  lemma {:induction false} LongestRunAttained(d: seq<int>) returns (lo: nat, hi: nat)
    requires d != []
    ensures lo < hi <= |d| && OneDaySteps(d, lo, hi) && hi - lo == LongestRun(d)
    decreases |d|
  {
    var p := d[..|d| - 1];
    if p != [] && LongestRun(p) >= TrailingRun(d) {
      lo, hi := LongestRunAttained(p);
      PrefixSteps(d, lo, hi);
    } else {
      TrailingRunSpec(d);
      lo, hi := |d| - TrailingRun(d), |d|;
    }
  }

  /** A repeated date is a step of 0 days, so no run of one-day steps spans it. */
  lemma RepeatEndsRun(d: seq<int>, lo: int, hi: int, i: int)
    requires 0 <= lo <= i && i + 1 < hi <= |d|
    requires d[i] == d[i + 1]
    ensures !OneDaySteps(d, lo, hi)
  {
    assert Step(d, i) == 0;
  }

  /** The days from `lo` to `hi - 1`. */
  function DayRange(lo: int, hi: int): (r: set<int>)
    requires lo <= hi
    ensures forall x :: x in r <==> lo <= x < hi
    ensures |r| == hi - lo
    decreases hi - lo
  {
    if lo == hi then {} else DayRange(lo, hi - 1) + {hi - 1}
  }

  /** The distinct days of a date list. */
  function DaySet(d: seq<int>): (r: set<int>)
    ensures forall x :: x in r <==> x in d
  {
    set x | x in d
  }

  /** A window of one-day steps covers that many distinct days, so its length is at
      most the number of distinct dates: duplicates never lengthen a run. */
  lemma RunAtMostDistinct(d: seq<int>, lo: int, hi: int)
    requires 0 <= lo < hi <= |d|
    requires OneDaySteps(d, lo, hi)
    ensures hi - lo <= |DaySet(d)|
  {
    RunValues(d, lo, hi);
    assert DayRange(d[lo], d[lo] + (hi - lo)) <= DaySet(d) by {
      forall x | x in DayRange(d[lo], d[lo] + (hi - lo)) ensures x in DaySet(d) {
        assert d[lo + (x - d[lo])] == x;
      }
    }
    SubsetSize(DayRange(d[lo], d[lo] + (hi - lo)), DaySet(d));
  }

  lemma {:induction false} RunValues(d: seq<int>, lo: int, hi: int)
    requires 0 <= lo < hi <= |d|
    requires OneDaySteps(d, lo, hi)
    ensures forall k :: lo <= k < hi ==> d[k] == d[lo] + (k - lo)
    decreases hi - lo
  {
    if hi - lo > 1 {
      RunValues(d, lo, hi - 1);
      assert Step(d, hi - 2) == 1;
    }
  }

  lemma SubsetSize(a: set<int>, b: set<int>)
    requires a <= b
    ensures |a| <= |b|
  {
    assert b == a + (b - a);
  }

  /** Both streaks are bounded by the number of distinct days. */
  lemma StreaksAtMostDistinctDays(d: seq<int>, today: int)
    ensures CurrentStreak(d, today) <= |DaySet(d)|
    ensures LongestRun(d) <= |DaySet(d)|
  {
    if d != [] {
      var lo, hi := LongestRunAttained(d);
      RunAtMostDistinct(d, lo, hi);
    }
  }

  // ---------------------------------------------------------------------------
  // calculateStats

  datatype StreakStats = StreakStats(current: nat, longest: nat, total: nat)

  /** The two scans of `calculateStats` over the ascending dates: the backward walk
      from the latest date (only when it is today or yesterday), stopping at the first
      step that is not exactly one day, and the forward scan for the longest run. */
  method ScanStreaks(dates: seq<int>, today: int) returns (current: nat, longest: nat)
    requires dates != []
    ensures current == CurrentStreak(dates, today)
    ensures longest == LongestRun(dates)
  {
    var n := |dates|;
    current := 0;
    longest := 0;
    var temp: nat := 1;

    var lastEntry := dates[n - 1];
    if lastEntry == today || lastEntry == today - 1 {
      current := 1;
      var i := n - 2;
      while i >= 0
        invariant -1 <= i <= n - 2
        invariant current == n - 1 - i
        invariant OneDaySteps(dates, i + 1, n)
      {
        if dates[i + 1] - dates[i] == 1 {
          current := current + 1;
        } else {
          break;
        }
        i := i - 1;
      }
      TrailingRunFrom(dates, i + 1);
    }

    var i := 1;
    while i < n
      invariant 1 <= i <= n
      invariant temp == TrailingRun(dates[..i])
      invariant Max(longest, temp) == LongestRun(dates[..i])
    {
      assert dates[..i + 1][..i] == dates[..i];
      if dates[i] - dates[i - 1] == 1 {
        temp := temp + 1;
      } else {
        longest := Max(longest, temp);
        temp := 1;
      }
      i := i + 1;
    }
    assert dates[..n] == dates;
    longest := Max(longest, temp);
  }

  /** `calculateStats`: with no entries the three figures keep their initial value 0;
      otherwise the total counts every entry and the streaks are measured on the
      ascending dates, duplicates included. */
  method CalculateStats(entries: seq<Entry>, today: int) returns (s: StreakStats)
    ensures entries == [] ==> s == StreakStats(0, 0, 0)
    ensures s.total == |entries|
    ensures s.current == CurrentStreak(SortAsc(Days(entries)), today)
    ensures s.longest == LongestRun(SortAsc(Days(entries)))
    ensures entries != [] ==> 1 <= s.longest <= |entries|
    ensures s.current <= s.longest
  {
    if |entries| == 0 {
      return StreakStats(0, 0, 0);
    }
    var dates := SortAsc(Days(entries));
    var current, longest := ScanStreaks(dates, today);
    return StreakStats(current, longest, |entries|);
  }

  // ---------------------------------------------------------------------------
  // Duplicate dates (see Findings in the README)

  /** As written: with entries on three consecutive days and the middle day logged
      twice, both streaks come out as 2, not 3. The corrected streak is 3. */
  lemma DuplicateDayBreaksStreak(today: int)
    ensures var days := [today - 2, today - 1, today - 1, today];
      CurrentStreak(SortAsc(days), today) == 2
      && LongestRun(SortAsc(days)) == 2
      && DedupCurrentStreak(days, today) == 3
  {
    var t := today;
    SortExample(t);
    RunsExample(t);
    DedupExample(t);
  }

  lemma SortExample(t: int)
    ensures SortAsc([t - 2, t - 1, t - 1, t]) == [t - 2, t - 1, t - 1, t]
  {
    var d := [t - 2, t - 1, t - 1, t];
    assert Ascending(d) by {
      forall i, j | 0 <= i < j < 4 ensures d[i] <= d[j] {
      }
    }
    SortAscFixesAscending(d);
  }

  lemma RunsExample(t: int)
    ensures TrailingRun([t - 2, t - 1, t - 1, t]) == 2
    ensures LongestRun([t - 2, t - 1, t - 1, t]) == 2
  {
    var s := [t - 2, t - 1, t - 1, t];
    assert s[..3] == [t - 2, t - 1, t - 1] && s[..3][..2] == [t - 2, t - 1] && s[..3][..2][..1] == [t - 2];
    assert TrailingRun(s[..3][..2]) == 2;
    assert LongestRun(s[..3][..2]) == 2;
  }

  lemma DedupExample(t: int)
    ensures Dedup([t - 2, t - 1, t - 1, t]) == [t - 2, t - 1, t]
    ensures TrailingRun([t - 2, t - 1, t]) == 3
  {
    var s := [t - 2, t - 1, t - 1, t];
    assert s[..3] == [t - 2, t - 1, t - 1] && s[..3][..2] == [t - 2, t - 1] && s[..3][..2][..1] == [t - 2];
    assert Dedup(s[..3][..2]) == [t - 2, t - 1];
    var e := [t - 2, t - 1, t];
    assert e[..2] == [t - 2, t - 1] && e[..2][..1] == [t - 2];
  }

  predicate StrictlyAscending(s: seq<int>) {
    forall i, j :: 0 <= i < j < |s| ==> s[i] < s[j]
  }

  /** The ascending dates with repeats collapsed. */
  function Dedup(s: seq<int>): (r: seq<int>)
    requires Ascending(s)
    ensures StrictlyAscending(r)
    ensures forall x :: x in r <==> x in s
    ensures s != [] ==> r != [] && r[|r| - 1] == s[|s| - 1]
  {
    if |s| <= 1 then s
    else
      var init, last := s[..|s| - 1], s[|s| - 1];
      assert Ascending(init);
      var p := Dedup(init);
      assert s == init + [last];
      assert init[|init| - 1] == s[|s| - 2];
      if last == s[|s| - 2] then p
      else
        StrictSnoc(p, last);
        p + [last]
  }

  lemma StrictSnoc(p: seq<int>, x: int)
    requires StrictlyAscending(p) && p != [] && p[|p| - 1] < x
    ensures StrictlyAscending(p + [x])
  {
  }

  /** Corrected current streak: the run is measured on the distinct dates. */
  function DedupCurrentStreak(days: seq<int>, today: int): nat {
    CurrentStreak(Dedup(SortAsc(days)), today)
  }

  /** On strictly ascending dates the final run of length k is the k days ending at
      the latest date, all present, and the day before them is absent. */
  lemma DistinctRunSpec(e: seq<int>)
    requires e != [] && StrictlyAscending(e)
    ensures forall x :: e[|e| - 1] - TrailingRun(e) < x <= e[|e| - 1] ==> x in e
    ensures e[|e| - 1] - TrailingRun(e) !in e
  {
    TrailingRunSpec(e);
    var r := TrailingRun(e);
    var n := |e|;
    var last := e[n - 1];
    forall x | last - r < x <= last ensures x in e {
      assert e[n - 1 - (last - x)] == x;
    }
    forall k | 0 <= k < n ensures e[k] != last - r {
      if k < n - r - 1 {
        assert e[k] < e[n - r - 1] < e[n - r];
      }
    }
  }

  /** The `k` calendar days ending at `latest` all have an entry, and the day before
      them has none. */
  predicate CalendarRun(days: seq<int>, latest: int, k: int) {
    (forall x :: latest - k < x <= latest ==> x in days) && latest - k !in days
  }

  /** The final run of the collapsed dates, read on the ascending dates themselves. */
  lemma DedupRunSpec(s: seq<int>)
    requires s != [] && Ascending(s)
    ensures CalendarRun(s, s[|s| - 1], TrailingRun(Dedup(s)))
  {
    RunOfSameMembers(Dedup(s), s);
  }

  /** The final run of strictly ascending dates, read on any list with the same members
      and the same last date. */
  lemma RunOfSameMembers(e: seq<int>, s: seq<int>)
    requires e != [] && s != [] && StrictlyAscending(e) && e[|e| - 1] == s[|s| - 1]
    requires forall x :: x in e <==> x in s
    ensures CalendarRun(s, s[|s| - 1], TrailingRun(e))
  {
    DistinctRunSpec(e);
    SameMembersRun(e, s, e[|e| - 1] - TrailingRun(e), e[|e| - 1]);
  }

  lemma CalendarRunSameMembers(s: seq<int>, days: seq<int>, latest: int, k: int)
    requires forall x :: x in s <==> x in days
    requires CalendarRun(s, latest, k)
    ensures CalendarRun(days, latest, k)
  {
    SameMembersRun(s, days, latest - k, latest);
  }

  lemma SameMembersRun(e: seq<int>, s: seq<int>, lo: int, hi: int)
    requires forall x :: x in e <==> x in s
    requires forall x :: lo < x <= hi ==> x in e
    requires lo !in e
    ensures forall x :: lo < x <= hi ==> x in s
    ensures lo !in s
  {
  }

  /** The corrected streak counts exactly the calendar days, walking back from the
      latest entry day (today or yesterday), that have an entry. */
  lemma CorrectedStreakIsCalendarWalk(days: seq<int>, today: int)
    requires days != []
    ensures DedupCurrentStreak(days, today) > 0 ==>
      CalendarRun(days, SortAsc(days)[|days| - 1], DedupCurrentStreak(days, today))
  {
    var s := SortAsc(days);
    var k := DedupCurrentStreak(days, today);
    var latest := s[|days| - 1];
    if k > 0 {
      DedupRunSpec(s);
      assert k == TrailingRun(Dedup(s));
      SortedSameMembers(days);
      CalendarRunSameMembers(s, days, latest, k);
    }
  }

  lemma LastIsMax(s: seq<int>, x: int)
    requires StrictlyAscending(s) && x in s
    ensures x <= s[|s| - 1]
    ensures x != s[|s| - 1] ==> x in s[..|s| - 1]
  {
    var k :| 0 <= k < |s| && s[k] == x;
    if k < |s| - 1 {
      assert s[..|s| - 1][k] == x;
    }
  }

  lemma InPrefix(s: seq<int>, x: int)
    requires StrictlyAscending(s) && s != [] && x in s[..|s| - 1]
    ensures x in s && x < s[|s| - 1]
  {
    var k :| 0 <= k < |s| - 1 && s[..|s| - 1][k] == x;
    assert s[k] == x;
  }

  lemma SortedMembers(a: seq<int>, x: int)
    ensures x in SortAsc(a) <==> x in a
  {
    assert x in SortAsc(a) <==> x in multiset(SortAsc(a));
    assert x in a <==> x in multiset(a);
  }

  lemma SortedSameMembers(days: seq<int>)
    ensures forall x :: x in SortAsc(days) <==> x in days
  {
    forall x ensures x in SortAsc(days) <==> x in days {
      SortedMembers(days, x);
    }
  }

  /** Two strictly ascending lists with the same elements are equal. */
  lemma {:induction false} StrictUnique(a: seq<int>, b: seq<int>)
    requires StrictlyAscending(a) && StrictlyAscending(b)
    requires forall x :: x in a <==> x in b
    ensures a == b
    decreases |a|
  {
    if |a| > 0 {
      assert a[|a| - 1] in a;
    }
    if |b| > 0 {
      assert b[|b| - 1] in b;
    }
    if a != [] && b != [] {
      var la, lb := a[|a| - 1], b[|b| - 1];
      LastIsMax(b, la);
      LastIsMax(a, lb);
      var a', b' := a[..|a| - 1], b[..|b| - 1];
      forall x ensures x in a' <==> x in b' {
        if x in a' {
          InPrefix(a, x);
          LastIsMax(b, x);
        }
        if x in b' {
          InPrefix(b, x);
          LastIsMax(a, x);
        }
      }
      StrictUnique(a', b');
      assert a == a' + [la] && b == b' + [lb];
    }
  }

  /** The corrected streak depends only on which days have entries: repeating a day
      changes nothing. */
  lemma CorrectedStreakIgnoresDuplicates(a: seq<int>, b: seq<int>, today: int)
    requires forall x :: x in a <==> x in b
    ensures DedupCurrentStreak(a, today) == DedupCurrentStreak(b, today)
  {
    var sa, sb := SortAsc(a), SortAsc(b);
    forall x ensures x in Dedup(sa) <==> x in Dedup(sb) {
      SortedMembers(a, x);
      SortedMembers(b, x);
    }
    StrictUnique(Dedup(sa), Dedup(sb));
  }

  // ---------------------------------------------------------------------------
  // Heatmap and sparkline

  datatype HeatCell = HeatCell(day: int, hasEntry: bool, moodScore: int)

  /** First day of the heatmap: the first of the month two months back. */
  function HeatmapStart(now: YearMonth): int {
    MonthStart(ShiftMonths(now, -2))
  }

  /** One heatmap cell: it has an entry iff some entry is on its day, and its score is
      the first such entry's `mood_score || 0`, or 0 without one. */
  function Cell(entries: seq<Entry>, day: int): (c: HeatCell)
    ensures c.day == day
    ensures c.hasEntry <==> exists i :: 0 <= i < |entries| && entries[i].day == day
    ensures !c.hasEntry ==> c.moodScore == 0
    ensures c.hasEntry ==>
      exists i :: (0 <= i < |entries| && entries[i].day == day
        && (forall j :: 0 <= j < i ==> entries[j].day != day)
        && c.moodScore == MoodOr(entries[i].mood, 0))
  {
    match FirstOnDay(entries, day)
    case None => HeatCell(day, false, 0)
    case Some(i) => HeatCell(day, true, MoodOr(entries[i].mood, 0))
  }

  /** `getHeatmapData`: one cell per day from `HeatmapStart` to the last day of the
      current month, three whole months. */
  function HeatmapData(entries: seq<Entry>, now: YearMonth): (cells: seq<HeatCell>)
    ensures |cells| == MonthEnd(now) - HeatmapStart(now) + 1
    ensures forall k :: 0 <= k < |cells| ==> cells[k] == Cell(entries, HeatmapStart(now) + k)
  {
    CellsFrom(entries, HeatmapStart(now), HeatmapLength(now))
  }

  /** Number of heatmap days; never negative, since the span is three months. */
  function HeatmapLength(now: YearMonth): (n: nat)
    ensures n == MonthEnd(now) - HeatmapStart(now) + 1
  {
    HeatmapSpan(now);
    var m2, m1 := ShiftMonths(now, -2), ShiftMonths(now, -1);
    var d2, d1, d0 := DaysInMonth(m2.year, m2.month), DaysInMonth(m1.year, m1.month), DaysInMonth(now.year, now.month);
    assert MonthEnd(now) - HeatmapStart(now) + 1 == d2 + d1 + d0;
    MonthEnd(now) - HeatmapStart(now) + 1
  }

  /** The cells of `n` consecutive days from `start`. */
  function CellsFrom(entries: seq<Entry>, start: int, n: nat): (cells: seq<HeatCell>)
    ensures |cells| == n
    ensures forall k :: 0 <= k < n ==> cells[k] == Cell(entries, start + k)
  {
    seq(n, k => Cell(entries, start + k))
  }

  /** The heatmap spans three whole months. */
  lemma HeatmapSpan(now: YearMonth)
    ensures MonthStart(ShiftMonths(now, -1)) == MonthEnd(ShiftMonths(now, -2)) + 1
    ensures MonthStart(now) == MonthEnd(ShiftMonths(now, -1)) + 1
    ensures MonthEnd(now) - HeatmapStart(now) + 1
      == DaysInMonth(ShiftMonths(now, -2).year, ShiftMonths(now, -2).month)
       + DaysInMonth(ShiftMonths(now, -1).year, ShiftMonths(now, -1).month)
       + DaysInMonth(now.year, now.month)
  {
    var m1 := ShiftMonths(now, -1);
    var m2 := ShiftMonths(m1, -1);
    ShiftMonthsAdd(now, -1, -1);
    PrevMonthStart(now);
    PrevMonthStart(m1);
    var s2, s1, s0 := MonthStart(m2), MonthStart(m1), MonthStart(now);
    var d2, d1, d0 := DaysInMonth(m2.year, m2.month), DaysInMonth(m1.year, m1.month), DaysInMonth(now.year, now.month);
    assert s1 == s2 + d2;
    assert s0 == s1 + d1;
    assert MonthEnd(now) == s0 + d0 - 1;
  }

  /** Three consecutive months have 89 to 92 days between them. */
  lemma ThreeMonthDays(now: YearMonth)
    ensures var m1, m2 := ShiftMonths(now, -1), ShiftMonths(now, -2);
      89 <= DaysInMonth(m2.year, m2.month) + DaysInMonth(m1.year, m1.month) + DaysInMonth(now.year, now.month) <= 92
  {
    var m1 := ShiftMonths(now, -1);
    ShiftMonthsAdd(now, -1, -1);
    PrevMonth(now);
    PrevMonth(m1);
  }

  /** The heatmap has 89 to 92 cells. */
  lemma HeatmapSize(entries: seq<Entry>, now: YearMonth)
    ensures 89 <= |HeatmapData(entries, now)| <= 92
  {
    HeatmapSpan(now);
    ThreeMonthDays(now);
  }

  /** Every day of the current month and the two before it has its cell. */
  lemma HeatmapCoversMonths(entries: seq<Entry>, now: YearMonth, day: int)
    requires InMonth(day, now) || InMonth(day, ShiftMonths(now, -1)) || InMonth(day, ShiftMonths(now, -2))
    ensures var cells := HeatmapData(entries, now);
      exists k :: 0 <= k < |cells| && cells[k].day == day
  {
    var cells := HeatmapData(entries, now);
    HeatmapSpan(now);
    var m2, m1 := ShiftMonths(now, -2), ShiftMonths(now, -1);
    assert MonthStart(m2) <= MonthEnd(m2) < MonthStart(m1) <= MonthEnd(m1) < MonthStart(now);
    assert HeatmapStart(now) <= day <= MonthEnd(now);
    var k := day - HeatmapStart(now);
    assert cells[k].day == day;
  }

  /** `getMoodSparkline`: the last min(30, n) entries in their (ascending) order, with
      an untracked mood drawn as 5. */
  function MoodSparkline(entries: seq<Entry>): (r: seq<int>)
    ensures |r| == if |entries| < 30 then |entries| else 30
    ensures forall k :: 0 <= k < |r| ==> r[k] == MoodOr(entries[|entries| - |r| + k].mood, 5)
  {
    var tail := if |entries| < 30 then entries else entries[|entries| - 30..];
    seq(|tail|, k requires 0 <= k < |tail| => MoodOr(tail[k].mood, 5))
  }

  /** With stored moods in 1..5 every sparkline point is in 1..5. */
  lemma SparklineInRange(entries: seq<Entry>)
    requires forall i :: 0 <= i < |entries| && entries[i].mood.Some? ==> 0 <= entries[i].mood.value <= 5
    ensures forall k :: 0 <= k < |MoodSparkline(entries)| ==> 1 <= MoodSparkline(entries)[k] <= 5
  {
  }
}
