/** The timeline page: the colour and emoji of a day, the calendar grid of whole weeks
    around the viewed month, the list of the month's entries and the next-month guard. */
module Timeline {
  import opened Common
  import opened Calendar

  // ---------------------------------------------------------------------------
  // A day's look

  const Muted: string := "bg-muted/30 border-muted"
  const FullPrimary: string := "bg-primary border-primary"

  /** `getMoodColor`: muted for a falsy mood, one style each for 1-4, and the full
      primary style for every other value. */
  function MoodColor(m: Option<int>): (c: string)
    ensures c == Muted <==> !Tracked(m)
    ensures Tracked(m) && !(1 <= m.value <= 4) ==> c == FullPrimary
  {
    if !Tracked(m) then Muted
    else if m.value == 1 then "bg-destructive/40 border-destructive/50"
    else if m.value == 2 then "bg-primary/30 border-primary/40"
    else if m.value == 3 then "bg-primary/50 border-primary/60"
    else if m.value == 4 then "bg-primary/70 border-primary/80"
    else FullPrimary
  }

  /** The five moods of the picker get five different styles. */
  lemma MoodColorsDistinct(a: int, b: int)
    requires 1 <= a <= 5 && 1 <= b <= 5 && a != b
    ensures MoodColor(Some(a)) != MoodColor(Some(b))
  {
  }

  /** `getMoodEmoji`: empty for a falsy mood, one emoji each for 1-4, and the fifth
      emoji for every other value. */
  function MoodEmoji(m: Option<int>): (e: string)
    ensures e == "" <==> !Tracked(m)
    ensures Tracked(m) && !(1 <= m.value <= 4) ==> e == "😄"
  {
    if !Tracked(m) then ""
    else if m.value == 1 then "😢"
    else if m.value == 2 then "😕"
    else if m.value == 3 then "🙂"
    else if m.value == 4 then "😌"
    else "😄"
  }

  /** The five moods of the picker get five different emojis. */
  lemma MoodEmojisDistinct(a: int, b: int)
    requires 1 <= a <= 5 && 1 <= b <= 5 && a != b
    ensures MoodEmoji(Some(a)) != MoodEmoji(Some(b))
  {
  }

  // ---------------------------------------------------------------------------
  // The calendar grid

  /** `eachDayOfInterval` from the Sunday on or before the first of the month to the
      Saturday on or after its last day. */
  function GridDays(ym: YearMonth): (days: seq<int>)
    ensures |days| == WeekEnd(MonthEnd(ym)) - WeekStart(MonthStart(ym)) + 1
    ensures forall i :: 0 <= i < |days| ==> days[i] == WeekStart(MonthStart(ym)) + i
  {
    var start := WeekStart(MonthStart(ym));
    var n := WeekEnd(MonthEnd(ym)) - start + 1;
    seq(n, i requires 0 <= i < n => start + i)
  }

  /** The grid is whole weeks, Sunday to Saturday, between four and six of them, and
      holds every day of the month. */
  lemma GridIsWholeWeeks(ym: YearMonth)
    ensures var g := GridDays(ym);
      |g| % 7 == 0 && 28 <= |g| <= 42
      && Weekday(g[0]) == 0 && Weekday(g[|g| - 1]) == 6
      && forall d :: InMonth(d, ym) ==> d in g
  {
    var s, e := MonthStart(ym), MonthEnd(ym);
    assert s + 27 <= e <= s + 30;
    WeekGrid(s, e);
    var a := WeekStart(s);
    var g := GridDays(ym);
    GridEnds(g, a, WeekEnd(e));
    forall d | InMonth(d, ym) ensures d in g {
      assert g[d - a] == d;
    }
  }

  lemma GridEnds(g: seq<int>, a: int, b: int)
    requires |g| == b - a + 1 && (b - a + 1) % 7 == 0 && 28 <= b - a + 1 <= 42
    requires forall i :: 0 <= i < |g| ==> g[i] == a + i
    requires Weekday(a) == 0 && Weekday(b) == 6
    ensures |g| % 7 == 0 && 28 <= |g| <= 42 && Weekday(g[0]) == 0 && Weekday(g[|g| - 1]) == 6
  {
    assert g[0] == a && g[|g| - 1] == b;
  }

  lemma WeekGrid(s: int, e: int)
    requires s + 27 <= e <= s + 30
    ensures var a, b := WeekStart(s), WeekEnd(e);
      (b - a + 1) % 7 == 0 && 28 <= b - a + 1 <= 42 && Weekday(a) == 0 && Weekday(b) == 6
  {
    WholeWeeks(WeekStart(s), WeekEnd(e));
  }

  /** From a Sunday to a Saturday at least 27 days and at most 42 days later there are
      a whole number of weeks. */
  lemma WholeWeeks(a: int, b: int)
    requires Weekday(a) == 0 && Weekday(b) == 6 && a + 27 <= b <= a + 42
    ensures (b - a + 1) % 7 == 0 && 28 <= b - a + 1 <= 42
  {
    var qa, qb := (a + 4) / 7, (b + 4) / 7;
    assert a + 4 == 7 * qa;
    assert b + 4 == 7 * qb + 6;
    assert b - a + 1 == 7 * (qb - qa) + 7;
    assert b - a + 1 == 7 * (qb - qa + 1);
  }

  /** One grid cell: its day, the entry shown (the first of that day in the newest-first
      list), whether it is in the viewed month and whether it is today. */
  datatype Cell = Cell(day: int, entry: Option<Entry>, inMonth: bool, isToday: bool)

  /** The cells of the grid. `isCurrentMonth` compares month numbers only; the grid's
      days lie within a week of the month, so that is membership of the month. */
  function Cells(entries: seq<Entry>, ym: YearMonth, today: int): (cells: seq<Cell>)
    ensures |cells| == |GridDays(ym)|
    ensures forall i :: 0 <= i < |cells| ==> (cells[i].day == GridDays(ym)[i]
      && cells[i].entry == FindByDay(entries, cells[i].day)
      && (cells[i].inMonth <==> InMonth(cells[i].day, ym))
      && (cells[i].isToday <==> cells[i].day == today))
  {
    var g := GridDays(ym);
    seq(|g|, i requires 0 <= i < |g| => Cell(g[i], FindByDay(entries, g[i]), InMonth(g[i], ym), g[i] == today))
  }

  /** A cell's button is disabled unless an entry exists for its day. */
  predicate Clickable(c: Cell) {
    c.entry.Some?
  }

  /** What a cell shows below the day number: nothing without an entry, the mood's
      emoji, or ✨ for an entry without a mood. */
  function CellBadge(c: Cell): (b: string)
    ensures b == "" <==> !Clickable(c)
    ensures Clickable(c) && Tracked(c.entry.value.mood) ==> b == MoodEmoji(c.entry.value.mood)
  {
    if c.entry.None? then ""
    else if Tracked(c.entry.value.mood) then MoodEmoji(c.entry.value.mood)
    else "✨"
  }

  /** A cell is clickable exactly when some entry was written on its day. */
  lemma ClickableIffEntry(entries: seq<Entry>, ym: YearMonth, today: int, i: nat)
    requires i < |Cells(entries, ym, today)|
    ensures var c := Cells(entries, ym, today)[i];
      Clickable(c) <==> exists k :: 0 <= k < |entries| && entries[k].day == c.day
  {
  }

  // ---------------------------------------------------------------------------
  // The list view

  /** The entries whose day lies in `lo..hi`, in the list's order. */
  function Between(entries: seq<Entry>, lo: int, hi: int): (r: seq<Entry>)
    ensures |r| <= |entries|
    ensures forall x :: x in r <==> x in entries && lo <= x.day <= hi
  {
    if entries == [] then []
    else
      var rest := Between(entries[..|entries| - 1], lo, hi);
      var last := entries[|entries| - 1];
      assert entries == entries[..|entries| - 1] + [last];
      rest + (if lo <= last.day <= hi then [last] else [])
  }

  /** `monthEntries`: the entries of the viewed month, in the list's order. */
  function MonthEntries(entries: seq<Entry>, ym: YearMonth): (r: seq<Entry>)
    ensures |r| <= |entries|
    ensures forall x :: x in r <==> x in entries && InMonth(x.day, ym)
  {
    Between(entries, MonthStart(ym), MonthEnd(ym))
  }

  predicate NewestFirst(es: seq<Entry>) {
    forall i, j :: 0 <= i < j < |es| ==> es[i].day >= es[j].day
  }

  /** Filtering keeps the newest-first order of the list. */
  lemma {:induction false} BetweenKeepsOrder(entries: seq<Entry>, lo: int, hi: int)
    requires NewestFirst(entries)
    ensures NewestFirst(Between(entries, lo, hi))
  {
    if entries != [] {
      var init := entries[..|entries| - 1];
      BetweenKeepsOrder(init, lo, hi);
      var rest := Between(init, lo, hi);
      var last := entries[|entries| - 1];
      forall k | 0 <= k < |rest| ensures rest[k].day >= last.day {
        assert rest[k] in init;
        var m :| 0 <= m < |init| && init[m] == rest[k];
        assert entries[m] == rest[k];
      }
      var r := Between(entries, lo, hi);
      assert r == rest + (if lo <= last.day <= hi then [last] else []);
      forall i, j | 0 <= i < j < |r| ensures r[i].day >= r[j].day {
        if j < |rest| {
          assert r[i] == rest[i] && r[j] == rest[j];
        } else {
          assert r[i] == rest[i] && r[j] == last;
        }
      }
    }
  }

  lemma MonthEntriesKeepOrder(entries: seq<Entry>, ym: YearMonth)
    requires NewestFirst(entries)
    ensures NewestFirst(MonthEntries(entries, ym))
  {
    BetweenKeepsOrder(entries, MonthStart(ym), MonthEnd(ym));
  }

  // ---------------------------------------------------------------------------
  // Month navigation

  /** `disabled={currentMonth >= new Date()}`: the viewed date (first the moment the page
      state was created, later shifted by whole months) against the clock at render. */
  predicate NextDisabled(viewed: Clock, now: Clock) {
    Instant(viewed) >= Instant(now)
  }

  /** As written: once any time has passed since the page opened, the button is enabled
      in the current month, and pressing it shows a month that has not begun. */
  lemma NextEnabledInCurrentMonth(now: Clock, ym: YearMonth)
    requires now.ms > 0 && InMonth(now.today, ym)
    ensures !NextDisabled(Clock(now.today, 0), now)
    ensures MonthStart(ShiftMonths(ym, 1)) > now.today
  {
    NextMonthStart(ym);
  }

  /** A month's position on the month line. */
  function MonthIndex(ym: YearMonth): int {
    ym.year * 12 + ym.month - 1
  }

  /** The evidently intended guard: by calendar month, not by instant. */
  predicate CorrectedNextDisabled(viewed: YearMonth, current: YearMonth) {
    MonthIndex(viewed) >= MonthIndex(current)
  }

  /** With the corrected guard the next month never goes past the current month. */
  lemma CorrectedStaysInPast(viewed: YearMonth, current: YearMonth)
    requires !CorrectedNextDisabled(viewed, current)
    ensures MonthIndex(ShiftMonths(viewed, 1)) <= MonthIndex(current)
  {
    var k := MonthIndex(viewed) + 1;
    assert viewed.year * 12 + (viewed.month - 1) + 1 == k;
    assert k == (k / 12) * 12 + k % 12;
  }
}
