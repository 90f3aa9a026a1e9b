/** The hourly reminder job: for every profile with reminders enabled, skip the user
    who already wrote today, e-mail the user whose reminder hour is the current UTC
    hour, and personalise the message with the streak, the journey day and the last
    entry. The database rows and the e-mail service's answer are inputs; the send
    calls are recorded as outputs. */
module DailyReminders {
  import opened Common
  import opened Sorting
  import opened Stats

  // ---------------------------------------------------------------------------
  // Streak

  /** The run of one-day steps at the head of the newest-first dates. */
  function LeadRun(desc: seq<int>): (r: nat)
    ensures desc == [] ==> r == 0
    ensures desc != [] ==> 1 <= r <= |desc|
  {
    if |desc| <= 1 then |desc|
    else if desc[0] - desc[1] == 1 then LeadRun(desc[1..]) + 1
    else 1
  }

  /** The streak loop: from the newest date, count while the next older date is
      exactly one day before the current one; stop at any other difference, 0
      included. Nothing ties the newest date to today. */
  method ReminderStreak(dates: seq<int>) returns (streakCount: nat)
    ensures streakCount == LeadRun(dates)
  {
    streakCount := 0;
    if |dates| > 0 {
      var currentDate := dates[0];
      streakCount := 1;
      var i := 1;
      while i < |dates|
        invariant 1 <= i <= |dates|
        invariant streakCount == i && currentDate == dates[i - 1]
        invariant forall j :: 0 <= j < i - 1 ==> dates[j] - dates[j + 1] == 1
      {
        var prevDate := dates[i];
        var diffDays := currentDate - prevDate;
        if diffDays == 1 {
          streakCount := streakCount + 1;
          currentDate := prevDate;
        } else {
          break;
        }
        i := i + 1;
      }
      LeadRunFrom(dates, streakCount);
    }
  }

  /** A head of one-day steps that cannot be extended is the lead run. */
  lemma {:induction false} LeadRunFrom(desc: seq<int>, k: nat)
    requires 1 <= k <= |desc|
    requires forall j :: 0 <= j < k - 1 ==> desc[j] - desc[j + 1] == 1
    requires k < |desc| ==> desc[k - 1] - desc[k] != 1
    ensures LeadRun(desc) == k
    decreases k
  {
    if k > 1 {
      forall j | 0 <= j < k - 2 ensures desc[1..][j] - desc[1..][j + 1] == 1 {
        assert desc[1..][j] == desc[j + 1] && desc[1..][j + 1] == desc[j + 2];
      }
      LeadRunFrom(desc[1..], k - 1);
    }
  }

  /** The lead run over reversed ascending dates is the final run of the ascending
      dates. */
  lemma LeadRunOfReverse(asc: seq<int>)
    requires asc != []
    ensures LeadRun(Reverse(asc)) == TrailingRun(asc)
  {
    var n := |asc|;
    var r := TrailingRun(asc);
    var desc := Reverse(asc);
    TrailingRunSpec(asc);
    forall j | 0 <= j < r - 1 ensures desc[j] - desc[j + 1] == 1 {
      assert desc[j] == asc[n - 1 - j] && desc[j + 1] == asc[n - 2 - j];
      assert Step(asc, n - 2 - j) == 1;
    }
    if r < n {
      assert desc[r - 1] == asc[n - r] && desc[r] == asc[n - r - 1];
    }
    LeadRunFrom(desc, r);
  }

  /** Whenever the newest entry is today or yesterday, the reminder streak equals the
      current streak of the statistics page on the same entries. */
  lemma ReminderStreakAgreesWithStats(days: seq<int>, today: int)
    requires days != []
    requires SortAsc(days)[|days| - 1] == today || SortAsc(days)[|days| - 1] == today - 1
    ensures LeadRun(SortDesc(days)) == CurrentStreak(SortAsc(days), today)
  {
    var asc := SortAsc(days);
    assert SortDesc(days) == Reverse(asc);
    LeadRunIsCurrentStreak(asc, today);
  }

  lemma LeadRunIsCurrentStreak(asc: seq<int>, today: int)
    requires asc != [] && (asc[|asc| - 1] == today || asc[|asc| - 1] == today - 1)
    ensures LeadRun(Reverse(asc)) == CurrentStreak(asc, today)
  {
    LeadRunOfReverse(asc);
  }

  /** The streak the job mails, over the rows as the query returns them, is the current
      streak of the statistics page whenever the newest row is today or yesterday. */
  lemma MailedStreakIsStatsStreak(es: seq<Entry>, today: int)
    requires NewestFirst(es) && es != []
    requires es[0].day == today || es[0].day == today - 1
    ensures LeadRun(Days(es)) == CurrentStreak(SortAsc(Days(es)), today)
  {
    var days := Days(es);
    SortDescFixesDescending(days);
    assert SortDesc(days) == Reverse(SortAsc(days));
    assert SortAsc(days)[|days| - 1] == days[0];
    ReminderStreakAgreesWithStats(days, today);
  }

  /** The reminder streak is not anchored to today: two consecutive entries ten and
      eleven days ago give a reminder streak of 2 while the statistics page shows 0. */
  lemma StaleStreakExample(today: int)
    ensures LeadRun([today - 10, today - 11]) == 2
    ensures CurrentStreak([today - 11, today - 10], today) == 0
  {
    assert [today - 10, today - 11][1..] == [today - 11];
  }

  // ---------------------------------------------------------------------------
  // Personalisation

  /** `journeyDay`: today's entry would be one more than all entries so far. */
  function JourneyDay(totalDays: nat): (d: nat)
    ensures d > totalDays
  {
    totalDays + 1
  }

  /** Where `substring(0, 60)` cuts. */
  function Cut60(text: string): (n: nat)
    ensures n <= |text| && n <= 60
    ensures n == |text| || n == 60
  {
    if |text| < 60 then |text| else 60
  }

  /** The quoted text: the first 60 characters of the last entry, with "..." exactly
      when the text is longer than 60 (UTF-16 units). */
  function Quote(text: string): (q: string)
    ensures |q| == Cut60(text) || |q| == Cut60(text) + 3
    ensures q[..Cut60(text)] == text[..Cut60(text)]
    ensures Utf16Length(text) <= 60 ==> q == text
    ensures Utf16Length(text) > 60 ==> |q| == Cut60(text) + 3 && q[Cut60(text)..] == "..."
  {
    text[..Cut60(text)] + (if Utf16Length(text) > 60 then "..." else "")
  }

  /** The five mood emojis, for moods 1 to 5. */
  const ReminderEmojis: seq<string> := ["😔", "😕", "😐", "🙂", "😊"]

  /** `moodEmoji`: a truthy mood k picks element k - 1; `None` is JavaScript
      `undefined`, what a mood outside 1..5 indexes; no mood gives ✨. */
  function MoodEmoji(mood: Option<int>): (e: Option<string>)
    ensures !Tracked(mood) ==> e == Some("✨")
    ensures Tracked(mood) && 1 <= mood.value <= 5 ==> e == Some(ReminderEmojis[mood.value - 1])
    ensures Tracked(mood) && !(1 <= mood.value <= 5) ==> e.None?
  {
    if !Tracked(mood) then Some("✨")
    else if 1 <= mood.value <= 5 then Some(ReminderEmojis[mood.value - 1])
    else None
  }

  /** Distinct moods in 1..5 get distinct emojis, none of them ✨. */
  lemma MoodEmojiInjective(a: int, b: int)
    requires 1 <= a <= 5 && 1 <= b <= 5 && a != b
    ensures MoodEmoji(Some(a)) != MoodEmoji(Some(b))
    ensures MoodEmoji(Some(a)) != Some("✨")
  {
  }

  const ReflectiveQuestions: seq<string> := [
    "What made today worth remembering?",
    "Who made your day better?",
    "What small moment brought you peace today?",
    "What are you grateful for right now?",
    "What made you smile today?"
  ]

  /** `Math.floor(Math.random() * 5)`: a random pick of a question. */
  type Pick = i: int | 0 <= i < 5

  const SubjectTail: string := " — What's your good thing today?"

  /** The subject reads "Day {streak + 1}" exactly when the streak is positive. */
  function Subject(streakCount: nat): (s: string)
    ensures streakCount > 0 <==> StartsWith(s, "Day ")
    ensures streakCount > 0 ==> s == "Day " + IntToString(streakCount + 1) + SubjectTail
  {
    if streakCount > 0 then "Day " + IntToString(streakCount + 1) + SubjectTail
    else
      var s := "✨ What's your good thing today?";
      assert s[..4][0] == '✨';
      s
  }

  // ---------------------------------------------------------------------------
  // The job

  /** What the e-mail service did with one send. */
  datatype SendResult = Delivered | Rejected(message: string) | Threw(message: string)

  /** A profile with reminders enabled, its journal rows newest first (the order of
      the streak query), the random question pick and the e-mail service's answer. */
  datatype User = User(
    id: string,
    email: Option<string>,
    reminderHour: int,
    entries: seq<Entry>,
    pick: Pick,
    send: SendResult)

  /** The rows as both queries return them: `.order("entry_date", { ascending: false })`. */
  predicate NewestFirst(es: seq<Entry>) {
    Descending(Days(es))
  }

  /** Every user's rows arrive newest first. */
  predicate UsersValid(users: seq<User>) {
    forall i :: 0 <= i < |users| ==> NewestFirst(users[i].entries)
  }

  /** A recorded send call. */
  datatype Reminder = Reminder(
    to: string,
    subject: string,
    journeyDay: nat,
    quote: string,
    emoji: Option<string>,
    question: string)

  /** Rows dated today. The check uses `.single()`, which yields a row only when
      exactly one row matches. */
  function TodayCount(es: seq<Entry>, today: int): nat {
    if es == [] then 0
    else TodayCount(es[..|es| - 1], today) + (if es[|es| - 1].day == today then 1 else 0)
  }

  predicate LoggedToday(u: User, today: int) {
    TodayCount(u.entries, today) == 1
  }

  /** The user is e-mailed: not logged today, at their hour, with an e-mail. */
  predicate Due(u: User, today: int, hour: int) {
    !LoggedToday(u, today) && u.reminderHour == hour && u.email.Some? && u.email.value != ""
  }

  /** The reminder composed for a due user with the given streak. */
  function Compose(u: User, streak: nat): (r: Reminder)
    requires u.email.Some?
    ensures r.to == u.email.value
    ensures r.journeyDay == |u.entries| + 1
    ensures u.entries == [] ==> r.quote == ""
  {
    var last := if u.entries == [] then None else Some(u.entries[0]);
    Reminder(
      u.email.value,
      Subject(streak),
      JourneyDay(|u.entries|),
      if last.Some? then Quote(last.value.text) else "",
      MoodEmoji(if last.Some? then last.value.mood else None),
      ReflectiveQuestions[u.pick])
  }

  /** What one user contributes: nothing, one recipient, or one error line. */
  datatype Outcome = Skipped | Sent(recipient: string) | Failed(line: string)

  function UserOutcome(u: User, today: int, hour: int): (o: Outcome)
    ensures LoggedToday(u, today) ==> o == Skipped
    ensures o != Skipped <==> Due(u, today, hour)
    ensures o.Sent? ==> o.recipient == u.email.value
  {
    if !Due(u, today, hour) then Skipped
    else match u.send
      case Delivered => Sent(u.email.value)
      case Rejected(m) => Failed(u.email.value + ": " + m)
      case Threw(m) => Failed(u.id + ": " + m)
  }

  function Recipients(os: seq<Outcome>): seq<string> {
    if os == [] then []
    else Recipients(os[..|os| - 1]) + (if os[|os| - 1].Sent? then [os[|os| - 1].recipient] else [])
  }

  function ErrorLines(os: seq<Outcome>): seq<string> {
    if os == [] then []
    else ErrorLines(os[..|os| - 1]) + (if os[|os| - 1].Failed? then [os[|os| - 1].line] else [])
  }

  /** Every outcome adds at most one line to the two lists together. */
  lemma {:induction false} AtMostOneLineEach(os: seq<Outcome>)
    ensures |Recipients(os)| + |ErrorLines(os)| <= |os|
  {
    if os != [] {
      AtMostOneLineEach(os[..|os| - 1]);
    }
  }

  function Outcomes(users: seq<User>, today: int, hour: int): (os: seq<Outcome>)
    ensures |os| == |users|
    ensures forall i :: 0 <= i < |users| ==> os[i] == UserOutcome(users[i], today, hour)
  {
    seq(|users|, i requires 0 <= i < |users| => UserOutcome(users[i], today, hour))
  }

  /** The reminders sent to the due users, in order. */
  function DueReminders(users: seq<User>, today: int, hour: int): (rs: seq<Reminder>)
    ensures |rs| <= |users|
  {
    if users == [] then []
    else
      var u := users[|users| - 1];
      DueReminders(users[..|users| - 1], today, hour)
        + if Due(u, today, hour) then [Compose(u, LeadRun(Days(u.entries)))] else []
  }

  /** Every due user is sent the reminder composed with that user's streak. */
  lemma {:induction false} DueUserIsSent(users: seq<User>, today: int, hour: int, i: int)
    requires 0 <= i < |users| && Due(users[i], today, hour)
    ensures Compose(users[i], LeadRun(Days(users[i].entries))) in DueReminders(users, today, hour)
  {
    var p := users[..|users| - 1];
    if i < |users| - 1 {
      DueUserIsSent(p, today, hour, i);
      assert p[i] == users[i];
    }
  }

  /** A due user whose newest row is today or yesterday is mailed the streak that the
      statistics page shows. */
  lemma DueMailCarriesStatsStreak(users: seq<User>, today: int, hour: int, i: int)
    requires UsersValid(users) && 0 <= i < |users| && Due(users[i], today, hour)
    requires users[i].entries != []
    requires users[i].entries[0].day == today || users[i].entries[0].day == today - 1
    ensures Compose(users[i], CurrentStreak(SortAsc(Days(users[i].entries)), today)) in DueReminders(users, today, hour)
  {
    MailedStreakIsStatsStreak(users[i].entries, today);
    DueUserIsSent(users, today, hour, i);
  }

  /** Every recorded send goes to a due user, with that user's reminder. */
  lemma {:induction false} SendsGoToDueUsers(users: seq<User>, today: int, hour: int, r: Reminder)
    requires r in DueReminders(users, today, hour)
    ensures exists i ::
      0 <= i < |users| && Due(users[i], today, hour) && r == Compose(users[i], LeadRun(Days(users[i].entries)))
  {
    var p := users[..|users| - 1];
    if r in DueReminders(p, today, hour) {
      SendsGoToDueUsers(p, today, hour, r);
      var i :| 0 <= i < |p| && Due(p[i], today, hour) && r == Compose(p[i], LeadRun(Days(p[i].entries)));
      assert users[i] == p[i];
    }
  }

  /** The loop over the users: a user who logged today is skipped first, then the
      reminder hour and the e-mail address are checked; a due user gets one send, and
      either the recipient or an error line is recorded. */
  method SendDailyReminders(users: seq<User>, today: int, currentHour: int)
      returns (emailsSent: seq<string>, errors: seq<string>, sends: seq<Reminder>)
    requires UsersValid(users)
    ensures emailsSent == Recipients(Outcomes(users, today, currentHour))
    ensures errors == ErrorLines(Outcomes(users, today, currentHour))
    ensures sends == DueReminders(users, today, currentHour)
    ensures |emailsSent| + |errors| <= |users|
  {
    emailsSent, errors, sends := [], [], [];
    var i := 0;
    while i < |users|
      invariant 0 <= i <= |users|
      invariant emailsSent == Recipients(Outcomes(users[..i], today, currentHour))
      invariant errors == ErrorLines(Outcomes(users[..i], today, currentHour))
      invariant sends == DueReminders(users[..i], today, currentHour)
    {
      OutcomesSnoc(users, i, today, currentHour);
      assert NewestFirst(users[i].entries);
      var sent, failed, sent1 := RemindUser(users[i], today, currentHour);
      emailsSent, errors, sends := emailsSent + sent, errors + failed, sends + sent1;
      i := i + 1;
    }
    assert users[..|users|] == users;
    AtMostOneLineEach(Outcomes(users, today, currentHour));
  }

  /** The body of the loop for one user: a user who logged today is skipped first, then
      the reminder hour and the e-mail address are checked; a due user gets one send,
      and either the recipient or an error line is recorded. */
  method RemindUser(user: User, today: int, currentHour: int)
      returns (sent: seq<string>, failed: seq<string>, send: seq<Reminder>)
    requires NewestFirst(user.entries)
    ensures var o := UserOutcome(user, today, currentHour);
      sent == (if o.Sent? then [o.recipient] else []) && failed == (if o.Failed? then [o.line] else [])
    ensures send == if Due(user, today, currentHour) then [Compose(user, LeadRun(Days(user.entries)))] else []
  {
    sent, failed, send := [], [], [];
    var todayRows := TodayRows(user.entries, today);
    if todayRows == 1 {
      return;
    }
    if user.reminderHour == currentHour {
      if user.email.None? || user.email.value == "" {
        return;
      }
      var streakCount := ReminderStreak(Days(user.entries));
      var reminder := Compose(user, streakCount);
      send := [reminder];
      match user.send {
        case Delivered =>
          sent := [user.email.value];
        case Rejected(m) =>
          failed := [user.email.value + ": " + m];
        case Threw(m) =>
          failed := [user.id + ": " + m];
      }
    }
  }

  lemma OutcomesSnoc(users: seq<User>, i: int, today: int, hour: int)
    requires 0 <= i < |users|
    ensures var os := Outcomes(users[..i + 1], today, hour);
      var o := UserOutcome(users[i], today, hour);
      Recipients(os) == Recipients(Outcomes(users[..i], today, hour)) + (if o.Sent? then [o.recipient] else [])
      && ErrorLines(os) == ErrorLines(Outcomes(users[..i], today, hour)) + (if o.Failed? then [o.line] else [])
    ensures DueReminders(users[..i + 1], today, hour) == DueReminders(users[..i], today, hour)
      + if Due(users[i], today, hour) then [Compose(users[i], LeadRun(Days(users[i].entries)))] else []
  {
    var os := Outcomes(users[..i + 1], today, hour);
    assert os[..i] == Outcomes(users[..i], today, hour);
    assert users[..i + 1][..i] == users[..i];
  }

  /** The count of rows dated today, as the `.single()` query sees them. */
  method TodayRows(es: seq<Entry>, today: int) returns (n: nat)
    ensures n == TodayCount(es, today)
  {
    n := 0;
    var i := 0;
    while i < |es|
      invariant 0 <= i <= |es|
      invariant n == TodayCount(es[..i], today)
    {
      assert es[..i + 1][..i] == es[..i];
      if es[i].day == today {
        n := n + 1;
      }
      i := i + 1;
    }
    assert es[..|es|] == es;
  }
}
