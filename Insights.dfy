/** The insights page: the entries of the last thirty days, their average mood, the
    moods grouped by weekday and the happiest weekday, the strongest themes, the mood
    chart, and the gate that asks for three entries first. */
module Insights {
  import opened Common
  import opened Sorting
  import opened Calendar
  import opened Themes

  // ---------------------------------------------------------------------------
  // The thirty-day window

  /** `parseISO(entry_date) >= subDays(new Date(), 30)`: the local midnight that starts
      the entry's day is not before the instant thirty days ago. */
  predicate IsRecent(e: Entry, now: Clock) {
    Midnight(e.day) >= Instant(now) - 30 * MsPerDay
  }

  /** `recentEntries`: the recent rows, in row order. */
  function RecentEntries(es: seq<Entry>, now: Clock): (r: seq<Entry>)
    ensures |r| <= |es|
  {
    if es == [] then []
    else
      var p := es[..|es| - 1];
      var last := es[|es| - 1];
      RecentEntries(p, now) + (if IsRecent(last, now) then [last] else [])
  }

  /** The recent rows are exactly the rows that are recent. */
  lemma {:induction false} RecentMembers(es: seq<Entry>, now: Clock)
    ensures forall e :: e in RecentEntries(es, now) <==> e in es && IsRecent(e, now)
  {
    if es != [] {
      var p := es[..|es| - 1];
      RecentMembers(p, now);
      assert es == p + [es[|es| - 1]];
    }
  }

  /** In days: the last 29 days and today always count; the day thirty days back counts
      only at the stroke of midnight, since its midnight is then exactly thirty days ago. */
  lemma RecentWindow(e: Entry, now: Clock)
    ensures IsRecent(e, now) <==> e.day > now.today - 30 || (e.day == now.today - 30 && now.ms == 0)
  {
    if e.day > now.today - 30 {
      assert Midnight(e.day) >= (now.today - 29) * MsPerDay;
    } else if e.day < now.today - 30 {
      assert Midnight(e.day) <= (now.today - 31) * MsPerDay;
    }
  }

  /** The rows arrive sorted by date, so the recent ones are a tail of the list. */
  lemma RecentIsSuffix(es: seq<Entry>, now: Clock)
    requires Ascending(Days(es))
    ensures RecentEntries(es, now) == es[|es| - |RecentEntries(es, now)|..]
  {
    forall i, j | 0 <= i < j < |es| && IsRecent(es[i], now) ensures IsRecent(es[j], now) {
      assert Days(es)[i] <= Days(es)[j];
    }
    RecentTail(es, now);
  }

  /** Once a row is recent, every later row is. */
  predicate RecentStays(es: seq<Entry>, now: Clock) {
    forall i, j :: 0 <= i < j < |es| && IsRecent(es[i], now) ==> IsRecent(es[j], now)
  }

  lemma {:induction false} RecentTail(es: seq<Entry>, now: Clock)
    requires RecentStays(es, now)
    ensures RecentEntries(es, now) == es[|es| - |RecentEntries(es, now)|..]
  {
    if es != [] {
      var p := es[..|es| - 1];
      RecentStaysInit(es, now);
      RecentTail(p, now);
      if IsRecent(es[|es| - 1], now) {
        RecentSnoc(es, now);
      } else {
        NothingRecentBefore(es, now);
      }
    }
  }

  lemma RecentStaysInit(es: seq<Entry>, now: Clock)
    requires es != [] && RecentStays(es, now)
    ensures RecentStays(es[..|es| - 1], now)
  {
    var p := es[..|es| - 1];
    forall i, j | 0 <= i < j < |p| && IsRecent(p[i], now) ensures IsRecent(p[j], now) {
      assert p[i] == es[i] && p[j] == es[j];
    }
  }

  /** A recent last row extends the recent tail of the rows before it. */
  lemma RecentSnoc(es: seq<Entry>, now: Clock)
    requires es != [] && IsRecent(es[|es| - 1], now)
    requires var p := es[..|es| - 1]; RecentEntries(p, now) == p[|p| - |RecentEntries(p, now)|..]
    ensures RecentEntries(es, now) == es[|es| - |RecentEntries(es, now)|..]
  {
    var p := es[..|es| - 1];
    RecentUnfold(es, now);
    SnocTail(es, p, es[|es| - 1], RecentEntries(p, now), RecentEntries(es, now));
  }

  lemma RecentUnfold(es: seq<Entry>, now: Clock)
    requires es != [] && IsRecent(es[|es| - 1], now)
    ensures RecentEntries(es, now) == RecentEntries(es[..|es| - 1], now) + [es[|es| - 1]]
  {
  }

  /** A tail of `p` followed by `x` is a tail of `p + [x]`. */
  lemma SnocTail(es: seq<Entry>, p: seq<Entry>, x: Entry, r: seq<Entry>, t: seq<Entry>)
    requires es == p + [x] && |r| <= |p| && r == p[|p| - |r|..] && t == r + [x]
    ensures t == es[|es| - |t|..]
  {
  }

  /** Rows whose newest is not recent, and in which recency is never lost, have no
      recent row at all. */
  lemma NothingRecentBefore(es: seq<Entry>, now: Clock)
    requires es != [] && RecentStays(es, now) && !IsRecent(es[|es| - 1], now)
    ensures RecentEntries(es, now) == []
  {
    var n := |es|;
    forall i | 0 <= i < n ensures !IsRecent(es[i], now) {
      assert i < n - 1 ==> !IsRecent(es[i], now);
    }
    NoneRecent(es, now);
  }

  lemma {:induction false} NoneRecent(es: seq<Entry>, now: Clock)
    requires forall i :: 0 <= i < |es| ==> !IsRecent(es[i], now)
    ensures RecentEntries(es, now) == []
  {
    if es != [] {
      NoneRecent(es[..|es| - 1], now);
    }
  }

  // ---------------------------------------------------------------------------
  // Average mood

  /** An untracked row still counts in the denominator: a 4 and an untracked row
      average 2. */
  lemma UntrackedCountsAsZero(a: Entry, b: Entry)
    requires a.mood == Some(4) && b.mood == None
    ensures AvgMood([a, b]) == 2.0
  {
    assert [a, b][..1] == [a];
    assert [a][..0] == [];
    assert MoodSum([a]) == 4;
    assert MoodSum([a, b]) == 4;
  }

  // ---------------------------------------------------------------------------
  // Weekdays

  /** One `[day, moods]` pair of `Object.entries(dayOfWeekMoods)`; `weekday` stands for
      the weekday's name. */
  datatype WeekdayGroup = WeekdayGroup(weekday: int, moods: seq<int>)

  /** The weekday of every row, in row order. */
  function Weekdays(es: seq<Entry>): seq<int> {
    seq(|es|, i requires 0 <= i < |es| => Weekday(es[i].day))
  }

  /** The truthy moods of the rows written on weekday `w`, in row order. */
  function TrackedMoodsOn(es: seq<Entry>, w: int): (r: seq<int>)
    ensures |r| <= |es|
    ensures forall k :: 0 <= k < |r| ==> r[k] != 0
  {
    if es == [] then []
    else
      var last := es[|es| - 1];
      TrackedMoodsOn(es[..|es| - 1], w)
        + (if Weekday(last.day) == w && Tracked(last.mood) then [last.mood.value] else [])
  }

  /** `dayOfWeekMoods`: a group per weekday met, in the order first met. */
  function WeekdayGroups(es: seq<Entry>): (r: seq<WeekdayGroup>)
    ensures |r| == |Distinct(Weekdays(es))|
    ensures forall i :: 0 <= i < |r| ==> r[i].weekday == Distinct(Weekdays(es))[i]
    ensures forall i :: 0 <= i < |r| ==> r[i].moods == TrackedMoodsOn(es, r[i].weekday)
  {
    var d := Distinct(Weekdays(es));
    seq(|d|, i requires 0 <= i < |d| => WeekdayGroup(d[i], TrackedMoodsOn(es, d[i])))
  }

  /** The keys and values of `dayOfWeekMoods` after the rows `seen`. */
  ghost predicate Grouped(keys: seq<int>, byDay: map<int, seq<int>>, seen: seq<Entry>) {
    keys == Distinct(Weekdays(seen))
    && (forall w :: w in byDay <==> w in keys)
    && (forall w :: w in byDay ==> byDay[w] == TrackedMoodsOn(seen, w))
  }

  lemma TrackedMoodsUnseen(es: seq<Entry>, w: int)
    requires w !in Weekdays(es)
    ensures TrackedMoodsOn(es, w) == []
  {
    if es != [] {
      assert Weekdays(es[..|es| - 1]) == Weekdays(es)[..|es| - 1];
      assert Weekdays(es)[|es| - 1] == Weekday(es[|es| - 1].day);
      TrackedMoodsUnseen(es[..|es| - 1], w);
    }
  }

  lemma WeekdaysSnoc(es: seq<Entry>, i: nat)
    requires i < |es|
    ensures Weekdays(es[..i + 1]) == Weekdays(es[..i]) + [Weekday(es[i].day)]
  {
  }

  lemma TrackedMoodsSnoc(es: seq<Entry>, i: nat, w: int)
    requires i < |es|
    ensures TrackedMoodsOn(es[..i + 1], w) == TrackedMoodsOn(es[..i], w)
      + (if Weekday(es[i].day) == w && Tracked(es[i].mood) then [es[i].mood.value] else [])
  {
    assert es[..i + 1][..i] == es[..i];
  }

  /** One row: its weekday gets a group if it had none, and its mood, when truthy, is
      pushed onto that group. */
  lemma GroupedStep(keys: seq<int>, byDay: map<int, seq<int>>, es: seq<Entry>, i: nat,
                    keys': seq<int>, byDay': map<int, seq<int>>)
    requires i < |es| && Grouped(keys, byDay, es[..i])
    requires var w := Weekday(es[i].day);
      keys' == (if w in byDay then keys else keys + [w])
      && var group := if w in byDay then byDay[w] else [];
      byDay' == byDay[w := if Tracked(es[i].mood) then group + [es[i].mood.value] else group]
    ensures Grouped(keys', byDay', es[..i + 1])
  {
    var w := Weekday(es[i].day);
    WeekdaysSnoc(es, i);
    var ws := Weekdays(es[..i]);
    GroupedKeys(keys, ws, w, w in byDay, keys');
    forall u | u in ws ensures u in byDay {
      var j :| 0 <= j < |ws| && ws[j] == u;
      assert ws[j] in keys;
    }
    var group := if w in byDay then byDay[w] else [];
    var group' := if Tracked(es[i].mood) then group + [es[i].mood.value] else group;
    assert byDay' == byDay[w := group'];
    MapKeysStep(byDay, keys, w, group', byDay', keys');
    forall v | v in byDay' ensures byDay'[v] == TrackedMoodsOn(es[..i + 1], v) {
      GroupedValue(byDay, es, i, byDay', v);
    }
    GroupedIntro(keys', byDay', es[..i + 1]);
  }

  lemma GroupedIntro(keys: seq<int>, byDay: map<int, seq<int>>, seen: seq<Entry>)
    requires keys == Distinct(Weekdays(seen))
    requires forall v :: v in byDay <==> v in keys
    requires forall v :: v in byDay ==> byDay[v] == TrackedMoodsOn(seen, v)
    ensures Grouped(keys, byDay, seen)
  {
  }

  /** The keys after one row: the distinct weekdays so far, and the new one. */
  lemma GroupedKeys(keys: seq<int>, ws: seq<int>, w: int, known: bool, keys': seq<int>)
    requires keys == Distinct(ws) && (known <==> w in keys)
    requires keys' == if known then keys else keys + [w]
    ensures keys' == Distinct(ws + [w])
    ensures forall v :: v in keys' <==> v in keys || v == w
  {
    DistinctSnoc(ws, w);
    if w in ws {
      var j :| 0 <= j < |ws| && ws[j] == w;
      assert ws[j] in keys;
    }
    if w in keys {
      var j :| 0 <= j < |keys| && keys[j] == w;
      assert keys[j] in ws;
    }
  }

  lemma MapKeysStep(byDay: map<int, seq<int>>, keys: seq<int>, w: int, group': seq<int>,
                    byDay': map<int, seq<int>>, keys': seq<int>)
    requires forall v :: v in byDay <==> v in keys
    requires forall v :: v in keys' <==> v in keys || v == w
    requires byDay' == byDay[w := group']
    ensures forall v :: v in byDay' <==> v in keys'
  {
  }

  /** The group of one weekday after one row. */
  lemma GroupedValue(byDay: map<int, seq<int>>, es: seq<Entry>, i: nat, byDay': map<int, seq<int>>, v: int)
    requires i < |es| && v in byDay'
    requires forall u :: u in byDay ==> byDay[u] == TrackedMoodsOn(es[..i], u)
    requires forall u :: u in Weekdays(es[..i]) ==> u in byDay
    requires var w := Weekday(es[i].day);
      var group := if w in byDay then byDay[w] else [];
      byDay' == byDay[w := if Tracked(es[i].mood) then group + [es[i].mood.value] else group]
    ensures byDay'[v] == TrackedMoodsOn(es[..i + 1], v)
  {
    var w := Weekday(es[i].day);
    TrackedMoodsSnoc(es, i, v);
    if v == w && w !in byDay {
      TrackedMoodsUnseen(es[..i], w);
    }
  }

  /** The `forEach` filling `dayOfWeekMoods`. */
  method GroupByWeekday(recent: seq<Entry>) returns (groups: seq<WeekdayGroup>)
    ensures groups == WeekdayGroups(recent)
  {
    var keys: seq<int> := [];
    var byDay: map<int, seq<int>> := map[];
    var i := 0;
    while i < |recent|
      invariant 0 <= i <= |recent|
      invariant Grouped(keys, byDay, recent[..i])
    {
      ghost var keys0, byDay0 := keys, byDay;
      var entry := recent[i];
      var day := Weekday(entry.day);
      if day !in byDay {
        keys := keys + [day];
        byDay := byDay[day := []];
      }
      if Tracked(entry.mood) {
        byDay := byDay[day := byDay[day] + [entry.mood.value]];
      }
      GroupedStep(keys0, byDay0, recent, i, keys, byDay);
      i := i + 1;
    }
    assert recent[..i] == recent;
    groups := seq(|keys|, k requires 0 <= k < |keys| => WeekdayGroup(keys[k], byDay[keys[k]]));
  }

  /** Every weekday with a recent row has a group, and only those do. */
  lemma GroupsCoverWeekdays(es: seq<Entry>, w: int)
    ensures (exists i :: 0 <= i < |WeekdayGroups(es)| && WeekdayGroups(es)[i].weekday == w)
      <==> (exists j :: 0 <= j < |es| && Weekday(es[j].day) == w)
  {
    var d := Distinct(Weekdays(es));
    var gs := WeekdayGroups(es);
    if exists j :: 0 <= j < |es| && Weekday(es[j].day) == w {
      var j :| 0 <= j < |es| && Weekday(es[j].day) == w;
      assert Weekdays(es)[j] == w;
      assert w in d;
      var i :| 0 <= i < |d| && d[i] == w;
      assert gs[i].weekday == w;
    }
    if exists i :: 0 <= i < |gs| && gs[i].weekday == w {
      var i :| 0 <= i < |gs| && gs[i].weekday == w;
      assert d[i] in Weekdays(es);
      var j :| 0 <= j < |es| && Weekdays(es)[j] == w;
      assert Weekday(es[j].day) == w;
    }
  }

  /** A weekday whose rows carry no mood still gets a group, an empty one. */
  lemma EmptyGroupExample(e: Entry)
    requires e.mood == None
    ensures WeekdayGroups([e]) == [WeekdayGroup(Weekday(e.day), [])]
  {
    assert [e][..0] == [];
    assert Weekdays([e]) == [Weekday(e.day)];
    assert Weekdays([e])[..0] == [];
    assert Distinct([Weekday(e.day)]) == [Weekday(e.day)];
    assert TrackedMoodsOn([e], Weekday(e.day)) == [];
  }

  // ---------------------------------------------------------------------------
  // Happiest weekday

  function SumOf(s: seq<int>): int {
    if s == [] then 0 else SumOf(s[..|s| - 1]) + s[|s| - 1]
  }

  /** A group's average, `moods.reduce(+) / moods.length`, for a non-empty group. */
  function GroupAvg(g: WeekdayGroup): real
    requires g.moods != []
  {
    SumOf(g.moods) as real / |g.moods| as real
  }

  predicate AllNonEmpty(gs: seq<WeekdayGroup>) {
    forall i :: 0 <= i < |gs| ==> gs[i].moods != []
  }

  /** The first group with the highest average: the head of a stable sort by average,
      highest first. */
  function FirstBest(gs: seq<WeekdayGroup>): (b: nat)
    requires gs != [] && AllNonEmpty(gs)
    ensures b < |gs|
    ensures forall j :: 0 <= j < |gs| ==> GroupAvg(gs[j]) <= GroupAvg(gs[b])
    ensures forall j :: 0 <= j < b ==> GroupAvg(gs[j]) < GroupAvg(gs[b])
  {
    if |gs| == 1 then 0
    else
      var p := gs[..|gs| - 1];
      assert forall j :: 0 <= j < |p| ==> p[j] == gs[j];
      var b := FirstBest(p);
      if GroupAvg(gs[|gs| - 1]) > GroupAvg(gs[b]) then |gs| - 1 else b
  }

  /** `happiestDay`: none without groups; a group without moods averages NaN, which
      the comparator cannot order, so no particular weekday can be promised. */
  datatype Happiest = NoDay | Day(weekday: int, avg: real) | Unordered

  function HappiestDay(gs: seq<WeekdayGroup>): (r: Happiest)
    ensures r.NoDay? <==> gs == []
    ensures r.Unordered? <==> gs != [] && !AllNonEmpty(gs)
    ensures r.Day? ==> exists i :: 0 <= i < |gs| && gs[i].weekday == r.weekday && gs[i].moods != [] && GroupAvg(gs[i]) == r.avg
    ensures r.Day? ==> forall j :: 0 <= j < |gs| ==> GroupAvg(gs[j]) <= r.avg
  {
    if gs == [] then NoDay
    else if !AllNonEmpty(gs) then Unordered
    else
      var b := FirstBest(gs);
      Day(gs[b].weekday, GroupAvg(gs[b]))
  }

  // ---------------------------------------------------------------------------
  // Mood chart

  /** One point of `moodChartData`; `day` stands for its `MMM d` label. */
  datatype ChartPoint = ChartPoint(day: int, mood: int)

  /** `moodChartData`: a point per row with a truthy mood, in row order. */
  function ChartData(es: seq<Entry>): (r: seq<ChartPoint>)
    ensures |r| == TrackedCount(es)
    ensures forall k :: 0 <= k < |r| ==> r[k].mood != 0
  {
    if es == [] then []
    else
      var last := es[|es| - 1];
      ChartData(es[..|es| - 1]) + (if Tracked(last.mood) then [ChartPoint(last.day, last.mood.value)] else [])
  }

  /** The chart keeps the row order: the points of two runs of rows follow each other. */
  lemma {:induction false} ChartDataAppend(a: seq<Entry>, b: seq<Entry>)
    ensures ChartData(a + b) == ChartData(a) + ChartData(b)
    decreases |b|
  {
    if b == [] {
      assert a + b == a;
    } else {
      assert (a + b)[..|a + b| - 1] == a + b[..|b| - 1];
      ChartDataAppend(a, b[..|b| - 1]);
    }
  }

  /** Every point comes from a row with that day and that (truthy) mood. */
  lemma {:induction false} ChartPointsFromRows(es: seq<Entry>, k: nat)
    requires k < |ChartData(es)|
    ensures exists i :: 0 <= i < |es| && es[i].day == ChartData(es)[k].day && es[i].mood == Some(ChartData(es)[k].mood)
  {
    var p := es[..|es| - 1];
    if k < |ChartData(p)| {
      ChartPointsFromRows(p, k);
      var i :| 0 <= i < |p| && p[i].day == ChartData(p)[k].day && p[i].mood == Some(ChartData(p)[k].mood);
      assert es[i] == p[i];
    } else {
      assert es[|es| - 1].day == ChartData(es)[k].day;
    }
  }

  // ---------------------------------------------------------------------------
  // The page

  datatype InsightsView =
    | KeepJournaling
    | Shown(recentCount: nat, avgMood: real, happiest: Happiest,
            topThemes: seq<ThemeCount>, strongest: Option<ThemeCount>, chart: seq<ChartPoint>)

  /** What the page shows once loaded: the "keep journaling" card below three entries
      in total, otherwise the insights over the recent rows. */
  function InsightsPage(entries: seq<Entry>, now: Clock): (v: InsightsView)
    ensures v.KeepJournaling? <==> |entries| < 3
    ensures v.Shown? ==> (v.recentCount == |RecentEntries(entries, now)|
      && v.avgMood == AvgMood(RecentEntries(entries, now))
      && |v.topThemes| <= 5)
    ensures v.Shown? ==> var recent := RecentEntries(entries, now);
      v.happiest == HappiestDay(WeekdayGroups(recent))
      && v.topThemes == TopThemes(ThemeTable(AllTags(recent)))
      && v.strongest == StrongestTheme(ThemeTable(AllTags(recent)))
      && v.chart == ChartData(recent)
  {
    if |entries| < 3 then KeepJournaling
    else
      var recent := RecentEntries(entries, now);
      var themes := ThemeTable(AllTags(recent));
      Shown(|recent|, AvgMood(recent), HappiestDay(WeekdayGroups(recent)),
        TopThemes(themes), StrongestTheme(themes), ChartData(recent))
  }

  /** The gate counts all entries, not the recent ones: three or more old entries
      unlock the page, which then averages over no rows at all. */
  lemma GateCountsAllEntries(es: seq<Entry>, now: Clock)
    requires |es| >= 3 && forall i :: 0 <= i < |es| ==> es[i].day < now.today - 30
    ensures InsightsPage(es, now).Shown?
    ensures InsightsPage(es, now).recentCount == 0
    ensures InsightsPage(es, now).avgMood == 0.0
  {
    forall i | 0 <= i < |es| ensures !IsRecent(es[i], now) {
      RecentWindow(es[i], now);
    }
    NoneRecent(es, now);
    var v := InsightsPage(es, now);
    assert v.avgMood == AvgMood([]);
  }
}
