/** The `send-reengagement-email` edge function: every profile is checked, and a user
    whose newest entry is older than thirty days (or who has none) is sent an e-mail
    with their entry count, a rounded average mood and up to three highlights. */
module Reengagement {
  import opened Common
  import opened Calendar

  // ---------------------------------------------------------------------------
  // Inactivity

  /** `new Date(entry_date) < thirtyDaysAgo`: the midnight starting the newest entry's
      day is strictly before the instant thirty days ago. */
  predicate Stale(day: int, now: Clock) {
    Midnight(day) < Instant(now) - 30 * MsPerDay
  }

  /** `shouldSendEmail`: no entries, or the newest one is stale. `newest` is what the
      one-row query returns. */
  predicate Inactive(newest: Option<int>, now: Clock) {
    newest.None? || Stale(newest.value, now)
  }

  /** In days: anything before the day thirty days back is stale, and that day itself
      once its midnight has passed. */
  lemma StaleInDays(day: int, now: Clock)
    ensures Stale(day, now) <==> day < now.today - 30 || (day == now.today - 30 && now.ms > 0)
  {
    if day < now.today - 30 {
      assert Midnight(day) <= (now.today - 31) * MsPerDay;
    } else if day > now.today - 30 {
      assert Midnight(day) >= (now.today - 29) * MsPerDay;
    }
  }

  // ---------------------------------------------------------------------------
  // Statistics

  function Take<T>(s: seq<T>, n: nat): (r: seq<T>)
    ensures |r| == if |s| < n then |s| else n
    ensures r == s[..|r|]
  {
    if |s| < n then s else s[..n]
  }

  /** `Math.round(s / c)` for `c > 0`: the nearest integer, halves rounding up. */
  function RoundDiv(s: int, c: int): (q: int)
    requires c > 0
    ensures 2 * c * q - c <= 2 * s < 2 * c * q + c
  {
    var q := (2 * s + c) / (2 * c);
    assert 2 * c * q <= 2 * s + c < 2 * c * q + 2 * c;
    q
  }

  /** The average shown in the e-mail; `NaN` is what `Math.round(0 / 0)` gives. */
  datatype MoodAverage = Rounded(n: int) | NaN

  /** `avgMood` as written: 3 without entries, otherwise the rounded mean of the truthy
      moods, which is `NaN` when no entry has one. */
  function AvgMood(history: seq<Entry>): (a: MoodAverage)
    ensures history == [] ==> a == Rounded(3)
    ensures a.NaN? <==> history != [] && TrackedCount(history) == 0
    ensures a.Rounded? && history != [] ==>
      2 * TrackedCount(history) * a.n - TrackedCount(history) <= 2 * MoodSum(history) < 2 * TrackedCount(history) * a.n + TrackedCount(history)
  {
    if history == [] then Rounded(3)
    else if TrackedCount(history) == 0 then NaN
    else
      var c := TrackedCount(history);
      var q := RoundDiv(MoodSum(history), c);
      assert 2 * c * q - c <= 2 * MoodSum(history) < 2 * c * q + c;
      Rounded(q)
  }

  /** Rows with moods but none truthy: the average is `NaN`, and the e-mail's mood
      lookup shows "undefined". */
  lemma UntrackedHistoryIsNaN(e: Entry)
    requires e.mood.None?
    ensures AvgMood([e]) == NaN
  {
    assert [e][..0] == [];
    assert TrackedCount([e]) == 0;
  }

  /** The evidently intended average: the default 3 also when no mood is tracked. */
  function CorrectedAvgMood(history: seq<Entry>): (a: int)
    ensures TrackedCount(history) == 0 ==> a == 3
    ensures TrackedCount(history) > 0 ==> Rounded(a) == AvgMood(history)
  {
    if TrackedCount(history) == 0 then 3 else RoundDiv(MoodSum(history), TrackedCount(history))
  }

  /** Each mood present is on the 1-5 scale. */
  predicate OnScale(es: seq<Entry>) {
    forall i :: 0 <= i < |es| ==> es[i].mood.None? || 0 <= es[i].mood.value <= 5
  }

  lemma {:induction false} TrackedSumBounds(es: seq<Entry>)
    requires OnScale(es)
    ensures TrackedCount(es) <= MoodSum(es) <= 5 * TrackedCount(es)
  {
    if es != [] {
      TrackedSumBounds(es[..|es| - 1]);
    }
  }

  /** With moods on the 1-5 scale the corrected average always names one of the five
      mood emojis. */
  lemma CorrectedAvgOnScale(history: seq<Entry>)
    requires OnScale(history)
    ensures 1 <= CorrectedAvgMood(history) <= 5
  {
    var c := TrackedCount(history);
    if c > 0 {
      TrackedSumBounds(history);
      var q := CorrectedAvgMood(history);
      var s := MoodSum(history);
      assert 2 * c * q + c > 2 * s >= 2 * c;
      assert 2 * c * q - c <= 2 * s <= 10 * c;
      RoundBounds(q, c);
    }
  }

  lemma RoundBounds(q: int, c: int)
    requires c > 0 && 2 * c * q + c > 2 * c && 2 * c * q - c <= 10 * c
    ensures 1 <= q <= 5
  {
    if q < 1 {
      MulMonotone(c, q, 0);
    } else if q > 5 {
      MulMonotone(c, 6, q);
    }
  }

  lemma MulMonotone(c: int, a: int, b: int)
    requires c > 0 && a <= b
    ensures c * a <= c * b
  {
    assert c * b - c * a == c * (b - a);
  }

  /** `mood_score && mood_score >= 4`. */
  predicate High(e: Entry) {
    Tracked(e.mood) && e.mood.value >= 4
  }

  /** The high-mood rows, in row order. */
  function HighMoods(es: seq<Entry>): (r: seq<Entry>)
    ensures |r| <= |es|
    ensures forall i :: 0 <= i < |r| ==> High(r[i])
  {
    if es == [] then [] else (if High(es[0]) then [es[0]] else []) + HighMoods(es[1..])
  }

  lemma {:induction false} HighMoodsFromRows(es: seq<Entry>)
    ensures forall x :: x in HighMoods(es) ==> x in es
  {
    if es != [] {
      HighMoodsFromRows(es[1..]);
    }
  }

  /** `bestMoments`: the first three high-mood rows. */
  function BestMoments(history: seq<Entry>): (r: seq<Entry>)
    ensures |r| <= 3
    ensures forall i :: 0 <= i < |r| ==> High(r[i]) && r[i] in history
  {
    HighMoodsFromRows(history);
    Take(HighMoods(history), 3)
  }

  predicate NewestFirst(es: seq<Entry>) {
    forall i, j :: 0 <= i < j < |es| ==> es[i].day >= es[j].day
  }

  /** Filtering keeps rows newest first. */
  lemma {:induction false} HighMoodsNewestFirst(es: seq<Entry>)
    requires NewestFirst(es)
    ensures NewestFirst(HighMoods(es))
  {
    if es != [] {
      HighMoodsNewestFirst(es[1..]);
      HighMoodsFromRows(es[1..]);
      var rest := HighMoods(es[1..]);
      forall k | 0 <= k < |rest| ensures es[0].day >= rest[k].day {
        assert rest[k] in es[1..];
      }
    }
  }

  /** A high-mood row is left out of the best moments only when three rows before it
      were chosen. */
  lemma {:induction false} HighRowIsChosen(es: seq<Entry>, i: nat)
    requires i < |es| && High(es[i]) && |HighMoods(es[..i])| < 3
    ensures es[i] in BestMoments(es)
  {
    assert es == es[..i] + ([es[i]] + es[i + 1..]);
    HighMoodsAppend(es[..i], [es[i]] + es[i + 1..]);
    HighMoodsAppend([es[i]], es[i + 1..]);
    assert HighMoods([es[i]]) == [es[i]];
    var h := HighMoods(es);
    var k := |HighMoods(es[..i])|;
    assert h[k] == es[i];
    assert BestMoments(es)[k] == es[i];
  }

  lemma {:induction false} HighMoodsAppend(a: seq<Entry>, b: seq<Entry>)
    ensures HighMoods(a + b) == HighMoods(a) + HighMoods(b)
  {
    if a == [] {
      assert a + b == b;
    } else {
      assert (a + b)[1..] == a[1..] + b;
      HighMoodsAppend(a[1..], b);
    }
  }

  /** The rows behind the highlights: the best moments, else the three newest rows,
      else none. */
  function HighlightRows(history: seq<Entry>): (r: seq<Entry>)
    ensures |r| <= 3
    ensures r == [] <==> history == []
    ensures BestMoments(history) != [] ==> r == BestMoments(history)
    ensures BestMoments(history) == [] ==> r == Take(history, 3)
  {
    var best := BestMoments(history);
    if best != [] then best
    else if history != [] then Take(history, 3)
    else []
  }

  /** `moodEmojis[k]`; `None` is `undefined`. */
  function MoodEmoji(k: int): (r: Option<string>)
    ensures r.Some? <==> 1 <= k <= 5
  {
    if k == 1 then Some("😔") else if k == 2 then Some("😐") else if k == 3 then Some("🙂")
    else if k == 4 then Some("😊") else if k == 5 then Some("🤩") else None
  }

  /** The e-mail's subject: chosen by whether the user has any entry. */
  function Subject(totalEntries: nat): (s: string)
    ensures s == (if totalEntries > 0 then "Remember these good moments? ✨" else "We miss you at OneGoodThing 🌟")
  {
    if totalEntries > 0 then "Remember these good moments? ✨" else "We miss you at OneGoodThing 🌟"
  }

  // ---------------------------------------------------------------------------
  // The job

  /** A profile with an e-mail: its rows newest first (`None` when a query fails; the
      first query asks for one row, the second for fifty) and whether the e-mail
      service throws. */
  datatype Profile = Profile(
    id: nat,
    email: string,
    newestQuery: Result<Option<int>, string>,
    historyQuery: Result<seq<Entry>, string>,
    sendThrows: bool)

  /** A composed e-mail. */
  datatype Mail = Mail(to: string, subject: string, totalEntries: nat, avgMood: MoodAverage, highlights: seq<Entry>)

  function Compose(p: Profile, history: seq<Entry>): (m: Mail)
    ensures m.totalEntries <= 50 && |m.highlights| <= 3
    ensures m.to == p.email
  {
    var rows := Take(history, 50);
    Mail(p.email, Subject(|rows|), |rows|, AvgMood(rows), HighlightRows(rows))
  }

  datatype Outcome = Skipped | QueryFailed | Attempted(mail: Mail, delivered: bool)

  function ProfileOutcome(p: Profile, now: Clock): (o: Outcome)
    ensures o.Attempted? ==> p.newestQuery.Ok? && Inactive(p.newestQuery.value, now) && p.historyQuery.Ok?
    ensures o.Skipped? <==> p.newestQuery.Ok? && !Inactive(p.newestQuery.value, now)
  {
    match p.newestQuery
    case Err(_) => QueryFailed
    case Ok(newest) =>
      if !Inactive(newest, now) then Skipped
      else match p.historyQuery
        case Err(_) => QueryFailed
        case Ok(history) => Attempted(Compose(p, history), !p.sendThrows)
  }

  function Outcomes(ps: seq<Profile>, now: Clock): seq<Outcome> {
    seq(|ps|, i requires 0 <= i < |ps| => ProfileOutcome(ps[i], now))
  }

  function SentCount(os: seq<Outcome>): nat {
    if os == [] then 0 else SentCount(os[..|os| - 1]) + (if os[|os| - 1].Attempted? && os[|os| - 1].delivered then 1 else 0)
  }

  function FailedCount(os: seq<Outcome>): nat {
    if os == [] then 0
    else
      var o := os[|os| - 1];
      FailedCount(os[..|os| - 1]) + (if o.QueryFailed? || (o.Attempted? && !o.delivered) then 1 else 0)
  }

  function Mails(os: seq<Outcome>): seq<Mail> {
    if os == [] then [] else Mails(os[..|os| - 1]) + (if os[|os| - 1].Attempted? then [os[|os| - 1].mail] else [])
  }

  /** Each profile adds at most one to the sent and failed counts together. */
  lemma {:induction false} CountsBounded(os: seq<Outcome>)
    ensures SentCount(os) + FailedCount(os) <= |os|
    ensures SentCount(os) <= |Mails(os)|
  {
    if os != [] {
      CountsBounded(os[..|os| - 1]);
    }
  }

  datatype Summary =
    | Failure(error: string)
    | NoProfiles
    | Done(emailsSent: nat, emailsFailed: nat, usersChecked: nat, totalProfiles: nat)

  lemma OutcomesSnoc(ps: seq<Profile>, i: nat, now: Clock)
    requires i < |ps|
    ensures var o := ProfileOutcome(ps[i], now); var before := Outcomes(ps[..i], now);
      Outcomes(ps[..i + 1], now) == before + [o]
      && SentCount(before + [o]) == SentCount(before) + (if o.Attempted? && o.delivered then 1 else 0)
      && FailedCount(before + [o]) == FailedCount(before) + (if o.QueryFailed? || (o.Attempted? && !o.delivered) then 1 else 0)
      && Mails(before + [o]) == Mails(before) + (if o.Attempted? then [o.mail] else [])
  {
    var before := Outcomes(ps[..i], now);
    var o := ProfileOutcome(ps[i], now);
    assert (before + [o])[..|before|] == before;
  }

  /** The job over the profiles the profile query returns. */
  method SendReengagementEmails(profiles: Result<seq<Profile>, string>, now: Clock)
      returns (summary: Summary, mails: seq<Mail>)
    ensures profiles.Err? ==> summary == Failure(profiles.error) && mails == []
    ensures profiles == Ok([]) ==> summary == NoProfiles && mails == []
    ensures profiles.Ok? && profiles.value != [] ==> (summary.Done?
      && summary.usersChecked == summary.totalProfiles == |profiles.value|
      && summary.emailsSent == SentCount(Outcomes(profiles.value, now))
      && summary.emailsFailed == FailedCount(Outcomes(profiles.value, now))
      && summary.emailsSent + summary.emailsFailed <= summary.usersChecked
      && mails == Mails(Outcomes(profiles.value, now)))
  {
    mails := [];
    if profiles.Err? {
      return Failure(profiles.error), mails;
    }
    var ps := profiles.value;
    if |ps| == 0 {
      return NoProfiles, mails;
    }
    var emailsSent, emailsFailed, usersChecked := 0, 0, 0;
    var i := 0;
    while i < |ps|
      invariant 0 <= i <= |ps|
      invariant usersChecked == i
      invariant emailsSent == SentCount(Outcomes(ps[..i], now))
      invariant emailsFailed == FailedCount(Outcomes(ps[..i], now))
      invariant mails == Mails(Outcomes(ps[..i], now))
    {
      var profile := ps[i];
      OutcomesSnoc(ps, i, now);
      usersChecked := usersChecked + 1;
      if profile.newestQuery.Err? {
        emailsFailed := emailsFailed + 1;
        i := i + 1;
        continue;
      }
      var shouldSendEmail := Inactive(profile.newestQuery.value, now);
      if !shouldSendEmail {
        i := i + 1;
        continue;
      }
      if profile.historyQuery.Err? {
        emailsFailed := emailsFailed + 1;
        i := i + 1;
        continue;
      }
      var mail := Compose(profile, profile.historyQuery.value);
      mails := mails + [mail];
      if profile.sendThrows {
        emailsFailed := emailsFailed + 1;
      } else {
        emailsSent := emailsSent + 1;
      }
      i := i + 1;
    }
    assert ps[..i] == ps;
    CountsBounded(Outcomes(ps, now));
    summary := Done(emailsSent, emailsFailed, usersChecked, |ps|);
  }

  /** Only inactive users are e-mailed. */
  lemma MailsGoToInactive(ps: seq<Profile>, now: Clock, k: nat)
    requires k < |ps| && ProfileOutcome(ps[k], now).Attempted?
    ensures ps[k].newestQuery.Ok? && Inactive(ps[k].newestQuery.value, now)
  {
  }
}
