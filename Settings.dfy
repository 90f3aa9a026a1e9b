/** The settings page: the preferences loaded from and saved to the profile, the CSV
    export of the journal, and account deletion. */
module Settings {
  import opened Common
  import Calendar

  // ---------------------------------------------------------------------------
  // CSV export

  const Quote: char := '"'

  /** `.replace(/"/g, '""')`: every double quote doubled (section 2, rule 7 of
      RFC 4180). */
  function Escape(s: string): (r: string)
    ensures |r| >= |s|
    ensures Quote !in s ==> r == s
  {
    if s == [] then []
    else (if s[0] == Quote then [Quote, Quote] else [s[0]]) + Escape(s[1..])
  }

  /** Collapsing `""` back to `"`. */
  function Unescape(s: string): (r: string)
    ensures |r| <= |s|
  {
    if s == [] then []
    else if |s| >= 2 && s[0] == Quote && s[1] == Quote then [Quote] + Unescape(s[2..])
    else [s[0]] + Unescape(s[1..])
  }

  /** Collapsing the doubled quotes recovers the text exactly. */
  lemma {:induction false} UnescapeEscape(s: string)
    ensures Unescape(Escape(s)) == s
  {
    if s != [] {
      UnescapeEscape(s[1..]);
      var e := Escape(s[1..]);
      if s[0] == Quote {
        assert Escape(s) == [Quote, Quote] + e;
        assert ([Quote, Quote] + e)[2..] == e;
      } else {
        assert Escape(s) == [s[0]] + e;
        assert ([s[0]] + e)[1..] == e;
      }
    }
  }

  /** A field in double quotes. */
  function Quoted(s: string): (r: string)
    ensures |r| == |s| + 2 && r[0] == Quote && r[|r| - 1] == Quote && r[1..|r| - 1] == s
  {
    [Quote] + s + [Quote]
  }

  /** A text field of the export: escaped, then quoted. */
  function Field(text: string): string {
    Quoted(Escape(text))
  }

  /** Stripping the outer quotes of a field and collapsing `""` gives back the text. */
  lemma FieldRoundTrip(text: string)
    ensures Unescape(Field(text)[1..|Field(text)| - 1]) == text
  {
    UnescapeEscape(text);
  }

  /** A journal row as the export reads it. */
  datatype ExportRow = ExportRow(entryDate: string, entryText: string, aiReflection: Option<string>)

  /** `entry.ai_reflection || ''`. */
  function ReflectionText(row: ExportRow): (t: string)
    ensures row.aiReflection.Some? ==> t == row.aiReflection.value
    ensures row.aiReflection.None? ==> t == ""
  {
    if row.aiReflection.Some? then row.aiReflection.value else ""
  }

  /** One record: the date quoted but not escaped, then the text and the reflection. */
  function Record(row: ExportRow): string {
    Quoted(row.entryDate) + "," + Field(row.entryText) + "," + Field(ReflectionText(row))
  }

  const Header: string := "Date,Entry,AI Reflection"

  /** The records, each after a line feed. */
  function Lines(rows: seq<ExportRow>): string {
    if rows == [] then "" else Lines(rows[..|rows| - 1]) + "\n" + Record(rows[|rows| - 1])
  }

  /** `[header, ...records].join("\n")`. */
  function Csv(rows: seq<ExportRow>): (csv: string)
    ensures |csv| >= |Header| && csv[..|Header|] == Header
  {
    Header + Lines(rows)
  }

  /** One more row adds one more line at the end: the records follow the rows' order. */
  lemma CsvSnoc(rows: seq<ExportRow>, row: ExportRow)
    ensures Csv(rows + [row]) == Csv(rows) + "\n" + Record(row)
  {
    LinesSnoc(rows, row);
    NewlineAssoc(Header, Lines(rows), Record(row));
  }

  lemma LinesSnoc(rows: seq<ExportRow>, row: ExportRow)
    ensures Lines(rows + [row]) == Lines(rows) + "\n" + Record(row)
  {
    var all := rows + [row];
    assert all[..|all| - 1] == rows && all[|all| - 1] == row;
  }

  lemma NewlineAssoc(h: string, l: string, r: string)
    ensures h + (l + "\n" + r) == h + l + "\n" + r
  {
  }

  // Reading a record back, as a reader following section 2 of RFC 4180 would.

  /** The inside of a quoted field: `""` is a quote, a lone quote ends the field. The
      text and what follows the closing quote. */
  function ReadBody(s: string): (r: Option<(string, string)>)
    ensures r.Some? ==> |r.value.1| < |s|
  {
    if s == [] then None
    else if s[0] == Quote then
      if |s| >= 2 && s[1] == Quote then
        match ReadBody(s[2..])
        case None => None
        case Some((t, rest)) => Some(([Quote] + t, rest))
      else Some(([], s[1..]))
    else
      match ReadBody(s[1..])
      case None => None
      case Some((t, rest)) => Some(([s[0]] + t, rest))
  }

  /** A quoted field at the head of `s`. */
  function ReadField(s: string): (r: Option<(string, string)>)
    ensures r.Some? ==> |r.value.1| < |s|
  {
    if s != [] && s[0] == Quote then ReadBody(s[1..]) else None
  }

  /** The escaped text followed by the closing quote reads back as the text. */
  lemma {:induction false} ReadBodyEscape(t: string, rest: string)
    requires rest == [] || rest[0] != Quote
    ensures ReadBody(Escape(t) + [Quote] + rest) == Some((t, rest))
  {
    if t == [] {
      assert Escape(t) + [Quote] + rest == [Quote] + rest;
      assert ([Quote] + rest)[1..] == rest;
    } else {
      ReadBodyEscape(t[1..], rest);
      ReadEscapedStep(t, rest);
    }
  }

  /** One more character in front of the text reads back in front of it. */
  lemma ReadEscapedStep(t: string, rest: string)
    requires t != [] && ReadBody(Escape(t[1..]) + [Quote] + rest) == Some((t[1..], rest))
    ensures ReadBody(Escape(t) + [Quote] + rest) == Some((t, rest))
  {
    var e := Escape(t[1..]);
    var tail := e + [Quote] + rest;
    var h := if t[0] == Quote then [Quote, Quote] else [t[0]];
    assert Escape(t) == h + e;
    PrefixTail(h, e, rest, tail);
    if t[0] == Quote {
      ReadDoubledQuote(tail, t[1..], rest, t);
    } else {
      ReadPlain(t[0], tail, t[1..], rest, t);
    }
  }

  lemma PrefixTail(h: string, e: string, rest: string, tail: string)
    requires tail == e + [Quote] + rest
    ensures h + e + [Quote] + rest == h + tail
  {
  }

  /** A doubled quote inside a field reads as one quote. */
  lemma ReadDoubledQuote(tail: string, u: string, rest: string, t: string)
    requires ReadBody(tail) == Some((u, rest)) && t != [] && t[0] == Quote && t[1..] == u
    ensures ReadBody([Quote, Quote] + tail) == Some((t, rest))
  {
    assert ([Quote, Quote] + tail)[2..] == tail;
    assert [Quote] + u == t;
  }

  /** Any other character inside a field reads as itself. */
  lemma ReadPlain(c: char, tail: string, u: string, rest: string, t: string)
    requires c != Quote && ReadBody(tail) == Some((u, rest)) && t != [] && t[0] == c && t[1..] == u
    ensures ReadBody([c] + tail) == Some((t, rest))
  {
    assert ([c] + tail)[1..] == tail;
    assert [c] + u == t;
  }

  /** A field written by the export reads back as its text. */
  lemma ReadFieldBack(t: string, rest: string)
    requires rest == [] || rest[0] != Quote
    ensures ReadField(Field(t) + rest) == Some((t, rest))
  {
    QuotedHead(Escape(t), rest);
    ReadBodyEscape(t, rest);
  }

  lemma QuotedHead(e: string, rest: string)
    ensures Quoted(e) + rest != [] && (Quoted(e) + rest)[0] == Quote
    ensures (Quoted(e) + rest)[1..] == e + [Quote] + rest
  {
    assert Quoted(e) + rest == [Quote] + (e + [Quote] + rest);
  }

  /** Three quoted fields separated by commas, and nothing after them. */
  function ReadRecord(s: string): Option<seq<string>> {
    ReadFields(s, 3)
  }

  /** `n` quoted fields separated by commas, and nothing after the last. */
  function ReadFields(s: string, n: nat): Option<seq<string>>
    decreases n
  {
    match ReadField(s)
    case None => None
    case Some((f, rest)) =>
      if n <= 1 then (if rest == [] then Some([f]) else None)
      else if rest == [] || rest[0] != ',' then None
      else
        match ReadFields(rest[1..], n - 1)
        case None => None
        case Some(fs) => Some([f] + fs)
  }

  /** A single field written by the export reads back alone. */
  lemma ReadLast(t: string)
    ensures ReadFields(Field(t), 1) == Some([t])
  {
    assert Field(t) + [] == Field(t);
    ReadFieldBack(t, []);
  }

  /** A field written by the export, a comma, then fields that read back: one more
      field reads back in front of them. */
  lemma ReadNext(t: string, rest: string, n: nat, fs: seq<string>, r: seq<string>)
    requires n >= 2 && ReadFields(rest, n - 1) == Some(fs) && r == [t] + fs
    ensures ReadFields(Field(t) + ([','] + rest), n) == Some(r)
  {
    ReadFieldBack(t, [','] + rest);
    assert ([','] + rest)[1..] == rest;
  }

  /** Three fields written by the export, separated by commas, read back. */
  lemma ReadThree(a: string, b: string, c: string)
    ensures ReadRecord(Field(a) + "," + Field(b) + "," + Field(c)) == Some([a, b, c])
  {
    ReadTwo(b, c);
    ReadNext(a, Field(b) + ([','] + Field(c)), 3, [b, c], [a, b, c]);
    RecordOf(Field(a), Field(b), Field(c));
  }

  lemma RecordOf(x: string, y: string, z: string)
    ensures ReadRecord(x + "," + y + "," + z) == ReadFields(x + ([','] + (y + ([','] + z))), 3)
  {
    Regroup(x, y, z);
  }

  /** Two fields written by the export, separated by a comma, read back. */
  lemma ReadTwo(b: string, c: string)
    ensures ReadFields(Field(b) + ([','] + Field(c)), 2) == Some([b, c])
  {
    ReadLast(c);
    ReadNext(b, Field(c), 2, [c], [b, c]);
  }

  lemma Regroup(x: string, y: string, z: string)
    ensures x + "," + y + "," + z == x + ([','] + (y + ([','] + z)))
  {
  }

  /** Every record reads back as its date, text and reflection, as long as the date
      holds no quote (it is not escaped). */
  lemma RecordRoundTrip(row: ExportRow)
    requires Quote !in row.entryDate
    ensures ReadRecord(Record(row)) == Some([row.entryDate, row.entryText, ReflectionText(row)])
  {
    assert Quoted(row.entryDate) == Field(row.entryDate);
    ReadThree(row.entryDate, row.entryText, ReflectionText(row));
  }

  const ExportPrefix: string := "gratitude-journal-"

  /** `gratitude-journal-<yyyy-MM-dd>.csv`, with today's UTC date. */
  function ExportName(utcToday: int): (name: string)
    ensures |name| >= |ExportPrefix| + 4
    ensures name[..|ExportPrefix|] == ExportPrefix && name[|name| - 4..] == ".csv"
    ensures name[|ExportPrefix|..|name| - 4] == Calendar.IsoDate(utcToday)
  {
    var date := Calendar.IsoDate(utcToday);
    var name := ExportPrefix + date + ".csv";
    assert name[..|ExportPrefix|] == ExportPrefix;
    assert name[|ExportPrefix|..|name| - 4] == date;
    assert name[|name| - 4..] == ".csv";
    name
  }

  /** The file handed to the browser. */
  datatype Download = Download(name: string, csv: string)

  /** `handleExport`: the rows of the query (in ascending date order), or its error. */
  function Export(rows: Result<seq<ExportRow>, string>, utcToday: int): (r: Result<Download, string>)
    ensures r.Ok? <==> rows.Ok?
    ensures r.Ok? ==> r.value == Download(ExportName(utcToday), Csv(rows.value))
    ensures rows.Err? ==> r.error == (if rows.error == [] then "Failed to export journal" else rows.error)
  {
    match rows
    case Err(e) => Err(if e == [] then "Failed to export journal" else e)
    case Ok(rs) => Ok(Download(ExportName(utcToday), Csv(rs)))
  }

  // ---------------------------------------------------------------------------
  // Preferences

  /** The profile columns the page reads; `None` is null. */
  datatype ProfileRow = ProfileRow(email: Option<string>, timezone: Option<string>, reminderHour: Option<int>,
                                   reminderEnabled: Option<bool>, aiEnabled: Option<bool>)

  /** The columns `handleSave` writes, and no others. */
  datatype ProfileUpdate = ProfileUpdate(timezone: string, reminderHour: int, reminderEnabled: bool, aiEnabled: bool)

  /** `a || b` on strings: `b` when `a` is null or empty. */
  function OrString(a: Option<string>, b: string): (r: string)
    ensures a.Some? && a.value != [] ==> r == a.value
    ensures !(a.Some? && a.value != []) ==> r == b
  {
    if a.Some? && a.value != [] then a.value else b
  }

  /** `data.reminder_hour || 20`: a stored 0 falls back too. */
  function LoadedHour(h: Option<int>): (r: int)
    ensures r != 0
    ensures h.Some? && h.value != 0 ==> r == h.value
    ensures r != 20 ==> h == Some(r)
  {
    MoodOr(h, 20)
  }

  /** `flag ?? true`: only null falls back, so a stored `false` survives. */
  function LoadedFlag(f: Option<bool>): (r: bool)
    ensures !r <==> f == Some(false)
  {
    if f.Some? then f.value else true
  }

  datatype Toast = NoToast | ErrorToast(message: string) | SuccessToast(message: string)

  /** The calls account deletion makes, in the order it makes them. */
  datatype Call = DeleteEntries | DeleteProfile | SignOut

  /** The calls made when the entries delete fails with `entriesError` and the profile
      delete with `profileError`: each step only after the previous one succeeded. */
  function DeletionCalls(entriesError: Option<string>, profileError: Option<string>): (calls: seq<Call>)
    ensures 1 <= |calls| <= 3 && calls == [DeleteEntries, DeleteProfile, SignOut][..|calls|]
    ensures SignOut in calls <==> entriesError.None? && profileError.None?
    ensures DeleteProfile in calls <==> entriesError.None?
  {
    if entriesError.Some? then [DeleteEntries]
    else if profileError.Some? then [DeleteEntries, DeleteProfile]
    else [DeleteEntries, DeleteProfile, SignOut]
  }

  class Settings {
    var loading: bool
    var saving: bool
    var email: string
    var timezone: string
    var reminderHour: int
    var reminderEnabled: bool
    var aiEnabled: bool
    /** The profile updates written, in order. */
    var updates: seq<ProfileUpdate>
    /** The deletion calls made, in order. */
    var calls: seq<Call>
    /** Whether the page sent the user to the sign-in page. */
    var leftForAuth: bool
    var toast: Toast

    constructor()
      ensures loading && !saving && email == "" && timezone == "UTC" && reminderHour == 20
      ensures reminderEnabled && aiEnabled && updates == [] && calls == [] && !leftForAuth && toast == NoToast
    {
      loading := true;
      saving := false;
      email := "";
      timezone := "UTC";
      reminderHour := 20;
      reminderEnabled := true;
      aiEnabled := true;
      updates := [];
      calls := [];
      leftForAuth := false;
      toast := NoToast;
    }

    /** `loadProfile`: `profile` is the row read (an error message on failure, `None`
        for no row) and `userEmail` the signed-in user's address. */
    method LoadProfile(profile: Result<Option<ProfileRow>, string>, userEmail: Option<string>)
      modifies this
      ensures !loading && saving == old(saving) && updates == old(updates) && calls == old(calls)
      ensures leftForAuth == old(leftForAuth) && toast == old(toast)
      ensures !(profile.Ok? && profile.value.Some?) ==>
        email == old(email) && timezone == old(timezone) && reminderHour == old(reminderHour)
        && reminderEnabled == old(reminderEnabled) && aiEnabled == old(aiEnabled)
      ensures profile.Ok? && profile.value.Some? ==>
        var row := profile.value.value;
        email == OrString(row.email, OrString(userEmail, ""))
        && timezone == OrString(row.timezone, "UTC")
        && reminderHour == LoadedHour(row.reminderHour)
        && reminderEnabled == LoadedFlag(row.reminderEnabled)
        && aiEnabled == LoadedFlag(row.aiEnabled)
    {
      if profile.Ok? && profile.value.Some? {
        var row := profile.value.value;
        email := OrString(row.email, OrString(userEmail, ""));
        timezone := OrString(row.timezone, "UTC");
        reminderHour := LoadedHour(row.reminderHour);
        reminderEnabled := LoadedFlag(row.reminderEnabled);
        aiEnabled := LoadedFlag(row.aiEnabled);
      }
      loading := false;
    }

    /** The time-zone select. */
    method SetTimezone(tz: string)
      modifies this
      ensures timezone == tz && reminderHour == old(reminderHour)
      ensures reminderEnabled == old(reminderEnabled) && aiEnabled == old(aiEnabled)
      ensures updates == old(updates) && calls == old(calls)
      ensures email == old(email) && loading == old(loading) && saving == old(saving)
      ensures leftForAuth == old(leftForAuth) && toast == old(toast)
    {
      timezone := tz;
    }

    /** The reminder-hour select, whose options are 19, 20 and 21. */
    method SetReminderHour(hour: int)
      requires 19 <= hour <= 21
      modifies this
      ensures reminderHour == hour && timezone == old(timezone)
      ensures reminderEnabled == old(reminderEnabled) && aiEnabled == old(aiEnabled)
      ensures updates == old(updates) && calls == old(calls)
      ensures email == old(email) && loading == old(loading) && saving == old(saving)
      ensures leftForAuth == old(leftForAuth) && toast == old(toast)
    {
      reminderHour := hour;
    }

    /** The daily-reminder switch. */
    method SetReminderEnabled(on: bool)
      modifies this
      ensures reminderEnabled == on && aiEnabled == old(aiEnabled)
      ensures timezone == old(timezone) && reminderHour == old(reminderHour)
      ensures updates == old(updates) && calls == old(calls)
      ensures email == old(email) && loading == old(loading) && saving == old(saving)
      ensures leftForAuth == old(leftForAuth) && toast == old(toast)
    {
      reminderEnabled := on;
    }

    /** The AI-reflections switch. */
    method SetAiEnabled(on: bool)
      modifies this
      ensures aiEnabled == on && reminderEnabled == old(reminderEnabled)
      ensures timezone == old(timezone) && reminderHour == old(reminderHour)
      ensures updates == old(updates) && calls == old(calls)
      ensures email == old(email) && loading == old(loading) && saving == old(saving)
      ensures leftForAuth == old(leftForAuth) && toast == old(toast)
    {
      aiEnabled := on;
    }

    /** `handleSave`: one update of the four preference columns; `error` is its error. */
    method HandleSave(error: Option<string>)
      modifies this
      ensures updates == old(updates) + [ProfileUpdate(old(timezone), old(reminderHour), old(reminderEnabled), old(aiEnabled))]
      ensures !saving && calls == old(calls) && leftForAuth == old(leftForAuth)
      ensures email == old(email) && timezone == old(timezone) && reminderHour == old(reminderHour)
      ensures reminderEnabled == old(reminderEnabled) && aiEnabled == old(aiEnabled)
      ensures error.None? ==> toast == SuccessToast("Settings saved!")
      ensures error.Some? ==> toast == ErrorToast(OrString(error, "Failed to save settings"))
    {
      saving := true;
      updates := updates + [ProfileUpdate(timezone, reminderHour, reminderEnabled, aiEnabled)];
      if error.Some? {
        toast := ErrorToast(OrString(error, "Failed to save settings"));
      } else {
        toast := SuccessToast("Settings saved!");
      }
      saving := false;
    }

    /** `handleDeleteAccount`: the entries, then the profile, then sign-out, stopping
        at the first error. */
    method HandleDeleteAccount(entriesError: Option<string>, profileError: Option<string>)
      modifies this
      ensures calls == old(calls) + DeletionCalls(entriesError, profileError)
      ensures leftForAuth <==> old(leftForAuth) || (entriesError.None? && profileError.None?)
      ensures updates == old(updates) && email == old(email) && timezone == old(timezone)
      ensures reminderHour == old(reminderHour) && reminderEnabled == old(reminderEnabled) && aiEnabled == old(aiEnabled)
      ensures entriesError.Some? ==> toast == ErrorToast(OrString(entriesError, "Failed to delete account"))
      ensures entriesError.None? && profileError.Some? ==> toast == ErrorToast(OrString(profileError, "Failed to delete account"))
      ensures entriesError.None? && profileError.None? ==> toast == SuccessToast("Account deleted")
    {
      calls := calls + [DeleteEntries];
      if entriesError.Some? {
        toast := ErrorToast(OrString(entriesError, "Failed to delete account"));
        return;
      }
      calls := calls + [DeleteProfile];
      if profileError.Some? {
        toast := ErrorToast(OrString(profileError, "Failed to delete account"));
        return;
      }
      calls := calls + [SignOut];
      toast := SuccessToast("Account deleted");
      leftForAuth := true;
    }
  }
}
