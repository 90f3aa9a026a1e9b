/** Memory resurfacing on the home page: up to four past entries, one per slot (a year
    ago, thirty days ago, a brightest moment, an older surprise), shown one at a time
    in a carousel. The two random choices of the source are explicit parameters. */
module Memories {
  import opened Common
  import opened Calendar

  // ---------------------------------------------------------------------------
  // Distances in whole days

  /** Integer division truncating toward zero, as `differenceInDays` rounds. */
  function TruncDiv(x: int, d: int): (q: int)
    requires d > 0
    ensures x >= 0 ==> q == x / d
    ensures x < 0 ==> q == -((-x) / d)
  {
    if x >= 0 then x / d else -((-x) / d)
  }

  /** `differenceInDays(parseISO(entry_date), ref)`: whole days from `ref` to the midnight
      starting `day`, truncated toward zero. */
  function DaysFrom(ref: Clock, day: int): int {
    TruncDiv(Midnight(day) - Instant(ref), MsPerDay)
  }

  function Abs(x: int): nat {
    if x < 0 then -x else x
  }

  /** `Math.abs(differenceInDays(entryDate, ref)) <= k`. */
  predicate Near(day: int, ref: Clock, k: nat) {
    Abs(DaysFrom(ref, day)) <= k
  }

  /** The window in days is lopsided: up to `k` days back, but up to `k + 1` days ahead
      once the reference is past midnight, because the part day is truncated away. */
  lemma NearWindow(day: int, ref: Clock, k: nat)
    ensures Near(day, ref, k) <==> (ref.today - k <= day <= ref.today + k + (if ref.ms > 0 then 1 else 0))
  {
    var t, ms := ref.today, ref.ms;
    var x := Midnight(day) - Instant(ref);
    assert x == (day - t) * MsPerDay - ms;
    if day <= t {
      assert -x == MsPerDay * (t - day) + ms;
      assert (-x) / MsPerDay == t - day;
      assert DaysFrom(ref, day) == day - t;
    } else if ms == 0 {
      assert x == MsPerDay * (day - t);
      assert DaysFrom(ref, day) == day - t;
    } else {
      assert x == MsPerDay * (day - t - 1) + (MsPerDay - ms);
      assert DaysFrom(ref, day) == day - t - 1;
    }
  }

  /** `differenceInDays(today, entryDate) > 60`. */
  predicate OlderThan60(day: int, now: Clock) {
    TruncDiv(Instant(now) - Midnight(day), MsPerDay) > 60
  }

  /** In days: the entry is at least 61 days before today. */
  lemma OlderThan60InDays(day: int, now: Clock)
    ensures OlderThan60(day, now) <==> day < now.today - 60
  {
    var x := Instant(now) - Midnight(day);
    if day <= now.today {
      assert x == MsPerDay * (now.today - day) + now.ms;
      assert x / MsPerDay == now.today - day;
    } else {
      assert x < 0;
    }
  }

  // ---------------------------------------------------------------------------
  // Slot candidates

  /** `data.find(e => Near(e))`: the first entry, newest first, near `ref`. */
  function FirstNear(es: seq<Entry>, ref: Clock, k: nat): (r: Option<Entry>)
    ensures r.None? <==> forall i :: 0 <= i < |es| ==> !Near(es[i].day, ref, k)
    ensures r.Some? ==> r.value in es
  {
    if es == [] then None
    else if Near(es[0].day, ref, k) then Some(es[0])
    else
      var r := FirstNear(es[1..], ref, k);
      assert forall i :: 1 <= i < |es| ==> es[i] == es[1..][i - 1];
      r
  }

  /** The entry found is the first near one: every entry before it is not near. */
  lemma {:induction false} FirstNearIsFirst(es: seq<Entry>, ref: Clock, k: nat)
    requires FirstNear(es, ref, k).Some?
    ensures exists i :: (0 <= i < |es| && es[i] == FirstNear(es, ref, k).value && Near(es[i].day, ref, k)
      && forall j :: 0 <= j < i ==> !Near(es[j].day, ref, k))
  {
    var e := FirstNear(es, ref, k).value;
    if Near(es[0].day, ref, k) {
      assert es[0] == e;
    } else {
      var t := es[1..];
      FirstNearIsFirst(t, ref, k);
      var i :| 0 <= i < |t| && t[i] == e && Near(t[i].day, ref, k)
        && forall j :: 0 <= j < i ==> !Near(t[j].day, ref, k);
      assert es[i + 1] == e;
      forall j | 0 <= j < i + 1 ensures !Near(es[j].day, ref, k) {
        if j > 0 {
          assert es[j] == t[j - 1];
        }
      }
    }
  }

  /** The ids already resurfaced. */
  function Ids(ms: seq<Memory>): set<nat> {
    set i | 0 <= i < |ms| :: ms[i].entry.id
  }

  /** `.filter(e => !resurfacedMemories.find(m => m.id === e.id))`. */
  function Unchosen(es: seq<Entry>, ids: set<nat>): (r: seq<Entry>)
    ensures forall x :: x in r <==> x in es && x.id !in ids
  {
    if es == [] then []
    else
      var rest := Unchosen(es[..|es| - 1], ids);
      var last := es[|es| - 1];
      assert es == es[..|es| - 1] + [last];
      rest + (if last.id !in ids then [last] else [])
  }

  /** `.filter(e => e.mood_score === 5)`. */
  function Brightest(es: seq<Entry>): (r: seq<Entry>)
    ensures forall x :: x in r <==> x in es && x.mood == Some(5)
  {
    if es == [] then []
    else
      var rest := Brightest(es[..|es| - 1]);
      var last := es[|es| - 1];
      assert es == es[..|es| - 1] + [last];
      rest + (if last.mood == Some(5) then [last] else [])
  }

  /** The entries more than sixty days old. */
  function Older(es: seq<Entry>, now: Clock): (r: seq<Entry>)
    ensures forall x :: x in r <==> x in es && OlderThan60(x.day, now)
  {
    if es == [] then []
    else
      var rest := Older(es[..|es| - 1], now);
      var last := es[|es| - 1];
      assert es == es[..|es| - 1] + [last];
      rest + (if OlderThan60(last.day, now) then [last] else [])
  }

  // ---------------------------------------------------------------------------
  // Loading

  /** Why a memory is shown; the slots come in this order. */
  datatype Reason = OneYearAgo | ThirtyDaysAgo | BrightestMoment | Surprise

  function Rank(r: Reason): nat {
    match r
    case OneYearAgo => 0
    case ThirtyDaysAgo => 1
    case BrightestMoment => 2
    case Surprise => 3
  }

  datatype Memory = Memory(entry: Entry, reason: Reason)

  /** The slots appear in their fixed order, each at most once. */
  predicate InSlotOrder(ms: seq<Memory>) {
    forall i, j :: 0 <= i < j < |ms| ==> Rank(ms[i].reason) < Rank(ms[j].reason)
  }

  predicate DistinctIds(ms: seq<Memory>) {
    forall i, j :: 0 <= i < j < |ms| ==> ms[i].entry.id != ms[j].entry.id
  }

  /** The entry in slot `r`, if that slot was filled. */
  function Slot(ms: seq<Memory>, r: Reason): (e: Option<Entry>)
    ensures e.Some? ==> exists i :: 0 <= i < |ms| && ms[i] == Memory(e.value, r)
    ensures e.None? ==> forall i :: 0 <= i < |ms| ==> ms[i].reason != r
  {
    if ms == [] then None
    else if ms[0].reason == r then Some(ms[0].entry)
    else
      assert forall i :: 1 <= i < |ms| ==> ms[i] == ms[1..][i - 1];
      Slot(ms[1..], r)
  }

  /** The ids in the slots before slot `r`. */
  function IdsBefore(ms: seq<Memory>, r: Reason): set<nat> {
    set i | 0 <= i < |ms| && Rank(ms[i].reason) < Rank(r) :: ms[i].entry.id
  }

  /** Pushing a memory in a later slot with a new id keeps the order and the ids
      distinct, and leaves the ids before it as they were. */
  lemma PushSlot(ms: seq<Memory>, m: Memory)
    requires InSlotOrder(ms) && DistinctIds(ms)
    requires forall i :: 0 <= i < |ms| ==> Rank(ms[i].reason) < Rank(m.reason)
    requires m.entry.id !in Ids(ms)
    ensures InSlotOrder(ms + [m]) && DistinctIds(ms + [m])
    ensures IdsBefore(ms + [m], m.reason) == Ids(ms)
    ensures Slot(ms + [m], m.reason) == Some(m.entry)
    ensures forall r :: r != m.reason ==> Slot(ms + [m], r) == Slot(ms, r)
  {
    var ms' := ms + [m];
    forall i, j | 0 <= i < j < |ms'| ensures ms'[i].entry.id != ms'[j].entry.id {
      if j == |ms| {
        assert ms'[i].entry.id in Ids(ms);
      }
    }
    forall x ensures x in IdsBefore(ms', m.reason) <==> x in Ids(ms) {
      if x in Ids(ms) {
        var i :| 0 <= i < |ms| && ms[i].entry.id == x;
        assert ms'[i] == ms[i];
      }
      if x in IdsBefore(ms', m.reason) {
        var i :| 0 <= i < |ms'| && Rank(ms'[i].reason) < Rank(m.reason) && ms'[i].entry.id == x;
        assert i < |ms| && ms'[i] == ms[i];
      }
    }
    SlotSnoc(ms, m);
  }

  lemma {:induction false} SlotSnoc(ms: seq<Memory>, m: Memory)
    ensures forall r :: Slot(ms + [m], r) == if Slot(ms, r).Some? then Slot(ms, r) else if m.reason == r then Some(m.entry) else None
  {
    if ms != [] {
      SlotSnoc(ms[1..], m);
      assert (ms + [m])[1..] == ms[1..] + [m];
    } else {
      assert ([] + [m])[1..] == [];
    }
  }

  /** Picks among the candidates, standing for the random shuffle or index. */
  function Pick(cands: seq<Entry>, choice: nat): (r: Option<Entry>)
    ensures r.None? <==> cands == []
    ensures r.Some? ==> r.value in cands
  {
    if cands == [] then None else Some(cands[choice % |cands|])
  }

  /** The year slot holds the first entry near `YearAgo(now)`, the same date a year
      back; the thirty-day slot holds the first entry near thirty days ago, unless
      that has the year slot's id. */
  predicate DatedSlotsOk(data: seq<Entry>, now: Clock, ms: seq<Memory>) {
    DatedFrom(YearSlot(data, now), MonthSlot(data, now), ms)
  }

  /** The first entry within three days of `subYears(today, 1)`. */
  function YearSlot(data: seq<Entry>, now: Clock): Option<Entry> {
    FirstNear(data, YearAgo(now), 3)
  }

  /** The first entry within two days of thirty days ago. */
  function MonthSlot(data: seq<Entry>, now: Clock): Option<Entry> {
    FirstNear(data, Clock(now.today - 30, now.ms), 2)
  }

  /** The two dated slots hold `year` and, unless it has the same id, `month`. */
  predicate DatedFrom(year: Option<Entry>, month: Option<Entry>, ms: seq<Memory>) {
    Slot(ms, OneYearAgo) == year
    && (Slot(ms, ThirtyDaysAgo).Some? <==> (month.Some? && (year.None? || year.value.id != month.value.id)))
    && (Slot(ms, ThirtyDaysAgo).Some? ==> Slot(ms, ThirtyDaysAgo) == month)
  }

  /** The brightest slot holds a mood-5 entry, and is empty only when every mood-5
      entry is already shown in an earlier slot. */
  predicate BrightestOk(data: seq<Entry>, ms: seq<Memory>) {
    var bright := Slot(ms, BrightestMoment);
    (bright.Some? ==> bright.value.mood == Some(5))
    && (bright.None? <==> forall e :: e in data && e.mood == Some(5) ==> e.id in IdsBefore(ms, BrightestMoment))
  }

  /** The surprise slot holds an entry more than sixty days old, and is empty only when
      every such entry is already shown in an earlier slot. */
  predicate SurpriseOk(data: seq<Entry>, now: Clock, ms: seq<Memory>) {
    var surprise := Slot(ms, Surprise);
    (surprise.Some? ==> surprise.value.day < now.today - 60)
    && (surprise.None? <==> forall e :: e in data && OlderThan60(e.day, now) ==> e.id in IdsBefore(ms, Surprise))
  }

  /** The first two slots: the entry near a year ago, then the entry near thirty days
      ago unless it is the same entry (it is then skipped, not searched again). */
  method DatedSlots(data: seq<Entry>, now: Clock) returns (memories: seq<Memory>)
    ensures |memories| <= 2 && InSlotOrder(memories) && DistinctIds(memories)
    ensures forall i :: 0 <= i < |memories| ==> memories[i].entry in data && Rank(memories[i].reason) < 2
    ensures DatedSlotsOk(data, now, memories)
  {
    var yearEntry := YearSlot(data, now);
    var monthEntry := MonthSlot(data, now);
    memories := FillDated(data, yearEntry, monthEntry);
  }

  /** Fills the dated slots from the entries found for them: the year entry if any,
      then the month entry if any and if it is not the year entry. */
  method FillDated(data: seq<Entry>, yearEntry: Option<Entry>, monthEntry: Option<Entry>) returns (memories: seq<Memory>)
    requires yearEntry.Some? ==> yearEntry.value in data
    requires monthEntry.Some? ==> monthEntry.value in data
    ensures |memories| <= 2 && InSlotOrder(memories) && DistinctIds(memories)
    ensures forall i :: 0 <= i < |memories| ==> memories[i].entry in data && Rank(memories[i].reason) < 2
    ensures DatedFrom(yearEntry, monthEntry, memories)
  {
    memories := [];
    if yearEntry.Some? {
      memories := [Memory(yearEntry.value, OneYearAgo)];
    }
    assert Slot(memories, OneYearAgo) == yearEntry;
    assert Slot(memories, ThirtyDaysAgo).None?;
    assert Ids(memories) == if yearEntry.Some? then {yearEntry.value.id} else {};
    if monthEntry.Some? && (yearEntry.None? || monthEntry.value.id != yearEntry.value.id) {
      var m := Memory(monthEntry.value, ThirtyDaysAgo);
      PushSlot(memories, m);
      memories := memories + [m];
      assert memories[|memories| - 1].entry in data;
    }
  }

  /** What a drawn slot promises: the list grows by at most the one slot, drawn from
      the candidates whose ids are not yet shown, and drawn whenever there is one. */
  ghost predicate Drawn(memories: seq<Memory>, memories': seq<Memory>, candidates: seq<Entry>, reason: Reason) {
    InSlotOrder(memories') && DistinctIds(memories')
    && |memories| <= |memories'| <= |memories| + 1 && memories'[..|memories|] == memories
    && (forall i :: |memories| <= i < |memories'| ==> memories'[i].entry in candidates && memories'[i].reason == reason)
    && IdsBefore(memories', reason) == Ids(memories)
    && (Slot(memories', reason).None? <==> forall e :: e in candidates ==> e.id in Ids(memories))
    && (Slot(memories', reason).Some? ==> Slot(memories', reason).value in candidates)
    && (forall r :: r != reason ==> Slot(memories', r) == Slot(memories, r))
  }

  lemma DrawSome(memories: seq<Memory>, candidates: seq<Entry>, reason: Reason, e: Entry)
    requires InSlotOrder(memories) && DistinctIds(memories)
    requires forall i :: 0 <= i < |memories| ==> Rank(memories[i].reason) < Rank(reason)
    requires e in candidates && e.id !in Ids(memories)
    ensures Drawn(memories, memories + [Memory(e, reason)], candidates, reason)
  {
    var m := Memory(e, reason);
    var ms' := memories + [m];
    PushSlot(memories, m);
    assert ms'[..|memories|] == memories && ms'[|memories|] == m;
    DrawnIntro(memories, ms', candidates, reason);
  }

  lemma DrawnIntro(memories: seq<Memory>, memories': seq<Memory>, candidates: seq<Entry>, reason: Reason)
    requires InSlotOrder(memories') && DistinctIds(memories')
    requires |memories| <= |memories'| <= |memories| + 1 && memories'[..|memories|] == memories
    requires forall i :: |memories| <= i < |memories'| ==> memories'[i].entry in candidates && memories'[i].reason == reason
    requires IdsBefore(memories', reason) == Ids(memories)
    requires Slot(memories', reason).None? <==> forall e :: e in candidates ==> e.id in Ids(memories)
    requires Slot(memories', reason).Some? ==> Slot(memories', reason).value in candidates
    requires forall r :: r != reason ==> Slot(memories', r) == Slot(memories, r)
    ensures Drawn(memories, memories', candidates, reason)
  {
  }

  lemma DrawNone(memories: seq<Memory>, candidates: seq<Entry>, reason: Reason)
    requires InSlotOrder(memories) && DistinctIds(memories)
    requires forall i :: 0 <= i < |memories| ==> Rank(memories[i].reason) < Rank(reason)
    requires forall e :: e in candidates ==> e.id in Ids(memories)
    ensures Drawn(memories, memories, candidates, reason)
  {
    NoSlot(memories, reason);
    assert memories[..|memories|] == memories;
  }

  /** A drawn slot: one of the candidates whose id is not yet shown, if any. */
  method DrawSlot(memories: seq<Memory>, candidates: seq<Entry>, reason: Reason, choice: nat)
      returns (memories': seq<Memory>)
    requires InSlotOrder(memories) && DistinctIds(memories)
    requires forall i :: 0 <= i < |memories| ==> Rank(memories[i].reason) < Rank(reason)
    ensures Drawn(memories, memories', candidates, reason)
    ensures InSlotOrder(memories') && DistinctIds(memories')
    ensures forall i :: 0 <= i < |memories'| ==> Rank(memories'[i].reason) <= Rank(reason)
  {
    var ids := Ids(memories);
    var open := Unchosen(candidates, ids);
    var pick := Pick(open, choice);
    if pick.Some? {
      DrawSome(memories, candidates, reason, pick.value);
      memories' := memories + [Memory(pick.value, reason)];
    } else {
      DrawNone(memories, candidates, reason);
      memories' := memories;
    }
  }

  lemma NoSlot(ms: seq<Memory>, r: Reason)
    requires forall i :: 0 <= i < |ms| ==> Rank(ms[i].reason) < Rank(r)
    ensures IdsBefore(ms, r) == Ids(ms) && Slot(ms, r).None?
  {
  }

  /** `loadMemories`. The year slot searches near `YearAgo(now)`, which is
      `subYears(today, 1)`; `brightChoice` and `surpriseChoice` stand for
      `Math.random`. A failed query leaves no memories. */
  method LoadMemories(rows: Result<seq<Entry>, string>, now: Clock, brightChoice: nat, surpriseChoice: nat)
      returns (memories: seq<Memory>)
    ensures rows.Err? ==> memories == []
    ensures |memories| <= 4 && InSlotOrder(memories) && DistinctIds(memories)
    ensures rows.Ok? ==> forall i :: 0 <= i < |memories| ==> memories[i].entry in rows.value
    ensures rows.Ok? ==> DatedSlotsOk(rows.value, now, memories)
    ensures rows.Ok? ==> BrightestOk(rows.value, memories)
    ensures rows.Ok? ==> SurpriseOk(rows.value, now, memories)
  {
    memories := [];
    if rows.Err? {
      return;
    }
    var data := rows.value;
    var dated := DatedSlots(data, now);
    var bright;
    bright, memories := DrawnSlots(data, now, dated, brightChoice, surpriseChoice);
    LoadFacts(data, now, YearSlot(data, now), MonthSlot(data, now), dated, bright, memories);
  }

  /** The two drawn slots after the dated ones: the brightest moment, then the
      surprise. Returns the list after each draw. */
  method DrawnSlots(data: seq<Entry>, now: Clock, dated: seq<Memory>, brightChoice: nat, surpriseChoice: nat)
      returns (bright: seq<Memory>, all: seq<Memory>)
    requires InSlotOrder(dated) && DistinctIds(dated)
    requires forall i :: 0 <= i < |dated| ==> Rank(dated[i].reason) < 2
    ensures Drawn(dated, bright, Brightest(data), BrightestMoment)
    ensures Drawn(bright, all, Older(data, now), Surprise)
  {
    bright := DrawSlot(dated, Brightest(data), BrightestMoment, brightChoice);
    all := DrawSlot(bright, Older(data, now), Surprise, surpriseChoice);
  }

  /** The four slots together, from the facts about each step; `year` and `month` are
      the entries the two dated slots were filled from. */
  lemma LoadFacts(data: seq<Entry>, now: Clock, year: Option<Entry>, month: Option<Entry>,
                  dated: seq<Memory>, bright: seq<Memory>, all: seq<Memory>)
    requires |dated| <= 2 && forall i :: 0 <= i < |dated| ==> dated[i].entry in data && Rank(dated[i].reason) < 2
    requires DatedFrom(year, month, dated)
    requires Drawn(dated, bright, Brightest(data), BrightestMoment)
    requires Drawn(bright, all, Older(data, now), Surprise)
    ensures |all| <= 4 && InSlotOrder(all) && DistinctIds(all)
    ensures forall i :: 0 <= i < |all| ==> all[i].entry in data
    ensures DatedFrom(year, month, all)
    ensures BrightestOk(data, all)
    ensures SurpriseOk(data, now, all)
  {
    Grown(dated, bright, Brightest(data), BrightestMoment, data, 3);
    Grown(bright, all, Older(data, now), Surprise, data, 4);
    KeepDated(year, month, dated, bright, all, Brightest(data), Older(data, now));
    BrightFacts(data, now, dated, bright, all);
    SurpriseFacts(data, now, bright, all);
  }

  lemma KeepDated(year: Option<Entry>, month: Option<Entry>, dated: seq<Memory>, bright: seq<Memory>, all: seq<Memory>,
                  brightest: seq<Entry>, older: seq<Entry>)
    requires DatedFrom(year, month, dated)
    requires Drawn(dated, bright, brightest, BrightestMoment)
    requires Drawn(bright, all, older, Surprise)
    ensures DatedFrom(year, month, all)
  {
    assert Slot(all, OneYearAgo) == Slot(bright, OneYearAgo) == Slot(dated, OneYearAgo);
    assert Slot(all, ThirtyDaysAgo) == Slot(bright, ThirtyDaysAgo) == Slot(dated, ThirtyDaysAgo);
  }

  lemma BrightFacts(data: seq<Entry>, now: Clock, dated: seq<Memory>, bright: seq<Memory>, all: seq<Memory>)
    requires forall i :: 0 <= i < |dated| ==> Rank(dated[i].reason) < 2
    requires Drawn(dated, bright, Brightest(data), BrightestMoment)
    requires Drawn(bright, all, Older(data, now), Surprise)
    ensures BrightestOk(data, all)
  {
    LaterSlotsKeep(dated, bright, all);
    assert Slot(all, BrightestMoment) == Slot(bright, BrightestMoment);
  }

  lemma SurpriseFacts(data: seq<Entry>, now: Clock, bright: seq<Memory>, all: seq<Memory>)
    requires Drawn(bright, all, Older(data, now), Surprise)
    ensures SurpriseOk(data, now, all)
  {
    var surprise := Slot(all, Surprise);
    if surprise.Some? {
      OlderThan60InDays(surprise.value.day, now);
    }
  }

  /** After a draw, every memory still comes from the rows and ranks below `bound`. */
  lemma Grown(ms: seq<Memory>, ms': seq<Memory>, candidates: seq<Entry>, reason: Reason, data: seq<Entry>, bound: nat)
    requires |ms| <= |ms'| && ms'[..|ms|] == ms
    requires forall i :: 0 <= i < |ms| ==> Rank(ms[i].reason) < bound && ms[i].entry in data
    requires forall i :: |ms| <= i < |ms'| ==> ms'[i].entry in candidates && ms'[i].reason == reason
    requires Rank(reason) < bound && forall e :: e in candidates ==> e in data
    ensures forall i :: 0 <= i < |ms'| ==> Rank(ms'[i].reason) < bound && ms'[i].entry in data
  {
    forall i | 0 <= i < |ms'| ensures Rank(ms'[i].reason) < bound && ms'[i].entry in data {
      if i < |ms| {
        assert ms'[i] == ms[i];
      }
    }
  }

  /** Ids before the bright slot are unchanged by the surprise slot. */
  lemma LaterSlotsKeep(dated: seq<Memory>, bright: seq<Memory>, all: seq<Memory>)
    requires |dated| <= |bright| <= |all| && all[..|bright|] == bright && bright[..|dated|] == dated
    requires forall i :: |dated| <= i < |bright| ==> bright[i].reason == BrightestMoment
    requires forall i :: |bright| <= i < |all| ==> all[i].reason == Surprise
    requires forall i :: 0 <= i < |dated| ==> Rank(dated[i].reason) < 2
    ensures IdsBefore(all, BrightestMoment) == Ids(dated)
  {
    forall x ensures x in IdsBefore(all, BrightestMoment) <==> x in Ids(dated) {
      if x in Ids(dated) {
        var i :| 0 <= i < |dated| && dated[i].entry.id == x;
        assert all[i] == bright[i] == dated[i];
      }
      if x in IdsBefore(all, BrightestMoment) {
        var i :| 0 <= i < |all| && Rank(all[i].reason) < 2 && all[i].entry.id == x;
        assert all[i] == bright[i] == dated[i];
      }
    }
  }

  // ---------------------------------------------------------------------------
  // The carousel

  /** The right arrow: `(prev + 1) % memories.length`. */
  function Next(i: nat, n: nat): (j: nat)
    requires i < n
    ensures j < n
  {
    (i + 1) % n
  }

  /** The left arrow: `(prev - 1 + memories.length) % memories.length`. */
  function Prev(i: nat, n: nat): (j: nat)
    requires i < n
    ensures j < n
  {
    (i - 1 + n) % n
  }

  /** Division with remainder has one answer. */
  lemma DivModUnique(x: int, n: int, q: int, r: int)
    requires n > 0 && 0 <= r < n && x == q * n + r
    ensures x / n == q && x % n == r
  {
    var q2, r2 := x / n, x % n;
    assert x == q2 * n + r2;
    assert (q - q2) * n == r2 - r;
    if q > q2 {
      MulAtLeast(q - q2, n);
    } else if q < q2 {
      MulAtLeast(q2 - q, n);
    }
  }

  lemma MulAtLeast(a: int, n: int)
    requires a >= 1 && n > 0
    ensures a * n >= n
  {
    assert a * n == (a - 1) * n + n;
    assert (a - 1) * n >= 0;
  }

  /** The two arrows undo each other. */
  lemma PrevUndoesNext(i: nat, n: nat)
    requires i < n
    ensures Prev(Next(i, n), n) == i
    ensures Next(Prev(i, n), n) == i
  {
    if i + 1 == n {
      DivModUnique(i + 1, n, 1, 0);
      DivModUnique(n - 1 + n, n, 1, n - 1);
    } else {
      DivModUnique(i + 1, n, 0, i + 1);
      DivModUnique(i + n, n, 1, i);
    }
    if i == 0 {
      DivModUnique(n - 1, n, 0, n - 1);
      DivModUnique(n, n, 1, 0);
    } else {
      DivModUnique(i - 1 + n, n, 1, i - 1);
      DivModUnique(i, n, 0, i);
    }
  }

  lemma ModSucc(x: nat, n: nat)
    requires n > 0
    ensures ((x % n) + 1) % n == (x + 1) % n
  {
    var p, q := x % n, x / n;
    assert x == q * n + p;
    if p + 1 == n {
      DivModUnique(p + 1, n, 1, 0);
      assert x + 1 == (q + 1) * n + 0;
      DivModUnique(x + 1, n, q + 1, 0);
    } else {
      DivModUnique(p + 1, n, 0, p + 1);
      DivModUnique(x + 1, n, q, p + 1);
    }
  }

  /** `k` presses of the right arrow move `k` places round the ring. */
  function NextTimes(i: nat, n: nat, k: nat): (j: nat)
    requires i < n
    ensures j < n
  {
    if k == 0 then i else Next(NextTimes(i, n, k - 1), n)
  }

  lemma {:induction false} NextTimesWraps(i: nat, n: nat, k: nat)
    requires i < n
    ensures NextTimes(i, n, k) == (i + k) % n
  {
    if k == 0 {
      DivModUnique(i, n, 0, i);
    } else {
      NextTimesWraps(i, n, k - 1);
      NextAfterMod(NextTimes(i, n, k - 1), i + k - 1, n);
    }
  }

  /** One press from the place `x % n` lands on `(x + 1) % n`. */
  lemma NextAfterMod(j: nat, x: nat, n: nat)
    requires j < n && j == x % n
    ensures Next(j, n) == (x + 1) % n
  {
    ModSucc(x, n);
  }

  /** The card renders once loading is over and some memory was found. */
  function Shown(loading: bool, memories: seq<Memory>, index: nat): (m: Option<Memory>)
    ensures m.Some? <==> !loading && memories != [] && index < |memories|
    ensures m.Some? ==> m.value == memories[index]
  {
    if loading || |memories| == 0 || index >= |memories| then None else Some(memories[index])
  }
}
