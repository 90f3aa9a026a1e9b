/** The `generate-monthly-reflection` edge function: request validation, the gates in
    front of the AI call, the month's statistics, and the parsing of the AI's
    `SUMMARY:` / `HIGHLIGHTS:` reply. */
module MonthlyReflection {
  import opened Common
  import opened Themes

  // ---------------------------------------------------------------------------
  // Input

  /** `/^\d{4}-\d{2}-\d{2}$/`: the shape of a date, not its validity. */
  predicate IsDatePattern(s: string) {
    |s| == 10 && s[4] == '-' && s[7] == '-'
    && forall i :: 0 <= i < 10 && i != 4 && i != 7 ==> IsDigit(s[i])
  }

  datatype MonthRange = MonthRange(monthStart: string, monthEnd: string)

  /** `validateInput`. */
  function ValidateInput(body: Json): (r: Result<MonthRange, string>)
    ensures r.Ok? <==> (IsObjectBody(body)
      && StringField(body, "monthStart").Some? && StringField(body, "monthEnd").Some?
      && IsDatePattern(StringField(body, "monthStart").value)
      && IsDatePattern(StringField(body, "monthEnd").value))
    ensures r.Ok? ==> r.value == MonthRange(StringField(body, "monthStart").value, StringField(body, "monthEnd").value)
    ensures !IsObjectBody(body) ==> r == Err("Invalid request body")
  {
    if !IsObjectBody(body) then Err("Invalid request body")
    else
      match (StringField(body, "monthStart"), StringField(body, "monthEnd"))
      case (Some(s), Some(e)) =>
        if !IsDatePattern(s) || !IsDatePattern(e) then Err("monthStart and monthEnd must be in YYYY-MM-DD format")
        else Ok(MonthRange(s, e))
      case _ => Err("monthStart and monthEnd must be strings")
  }

  /** The pattern checks shape only: a thirteenth month, and a range that ends before
      it starts, are both accepted. */
  lemma AcceptsImpossibleRange()
    ensures ValidateInput(JObj(map["monthStart" := JStr("2024-13-45"), "monthEnd" := JStr("2024-01-01")])).Ok?
  {
    var body := JObj(map["monthStart" := JStr("2024-13-45"), "monthEnd" := JStr("2024-01-01")]);
    assert StringField(body, "monthStart") == Some("2024-13-45");
    assert StringField(body, "monthEnd") == Some("2024-01-01");
    assert IsDatePattern("2024-13-45");
    assert IsDatePattern("2024-01-01");
  }

  // ---------------------------------------------------------------------------
  // Statistics

  /** `positivity` from the average mood. */
  function Positivity(avg: real): (p: string)
    ensures p == "High" <==> avg >= 4.0
    ensures p == "Good" <==> 3.0 <= avg < 4.0
    ensures p == "Growing" <==> avg < 3.0
  {
    if avg >= 4.0 then "High" else if avg >= 3.0 then "Good" else "Growing"
  }

  /** The bucket of a month, in whole numbers: "High" iff the moods sum to at least
      four per entry, "Good" iff to at least three but less than four per entry. */
  lemma PositivityBySums(es: seq<Entry>)
    requires es != []
    ensures Positivity(AvgMood(es)) == "High" <==> MoodSum(es) >= 4 * |es|
    ensures Positivity(AvgMood(es)) == "Good" <==> 3 * |es| <= MoodSum(es) < 4 * |es|
  {
    AvgAtLeast(es, 4);
    AvgAtLeast(es, 3);
  }

  /** The average reaches `k` exactly when the sum reaches `k` per entry. */
  lemma AvgAtLeast(es: seq<Entry>, k: int)
    requires es != []
    ensures AvgMood(es) >= k as real <==> MoodSum(es) >= k * |es|
  {
    var n := |es| as real;
    var d := AvgMood(es) - k as real;
    assert d * n == MoodSum(es) as real - (k * |es|) as real;
    if d >= 0.0 {
      assert d * n >= 0.0;
    } else {
      assert d * n < 0.0;
    }
  }

  /** One `${theme} (${count} times)` item of the prompt. */
  function ThemeLabel(t: ThemeCount): string {
    t.tag + " (" + IntToString(t.count) + " times)"
  }

  function JoinComma(items: seq<string>): string {
    if items == [] then "" else if |items| == 1 then items[0] else items[0] + ", " + JoinComma(items[1..])
  }

  /** The "Top themes" line of the prompt: at most five labels, most frequent first,
      or "None tagged". */
  function ThemesLine(table: seq<ThemeCount>): (r: string)
    ensures table == [] ==> r == "None tagged"
    ensures table != [] ==> StartsWith(r, TopThemes(table)[0].tag + " (")
  {
    var top := TopThemes(table);
    var labels := seq(|top|, i requires 0 <= i < |top| => ThemeLabel(top[i]));
    var line := JoinComma(labels);
    if line == [] then "None tagged"
    else
      assert labels[0] == ThemeLabel(top[0]);
      line
  }

  // ---------------------------------------------------------------------------
  // Reply parsing

  const SummaryMarker: string := "SUMMARY:"
  const HighlightsMarker: string := "HIGHLIGHTS:"

  /** The lazy `(.+?)(?=HIGHLIGHTS:|$)` from position `k`: the first position at or
      after `k` where the marker starts or the text ends. */
  function LazyEnd(body: string, k: nat): (e: nat)
    requires k <= |body|
    ensures k <= e <= |body|
    ensures e == |body| || StartsWith(body[e..], HighlightsMarker)
    ensures forall j :: k <= j < e ==> !StartsWith(body[j..], HighlightsMarker)
    decreases |body| - k
  {
    if k == |body| || StartsWith(body[k..], HighlightsMarker) then k else LazyEnd(body, k + 1)
  }

  /** The text after the first occurrence of `marker`, when some text follows it: a
      regular expression that starts with the marker and needs one more character
      matches there or nowhere. */
  function After(text: string, marker: string): (r: Option<string>)
    ensures r.Some? ==> r.value != [] && exists p :: 0 <= p <= |text| - |marker| && text[p..] == marker + r.value
  {
    match IndexOf(text, marker)
    case None => None
    case Some(p) =>
      if p + |marker| >= |text| then None
      else
        assert text[p..] == marker + text[p + |marker|..];
        Some(text[p + |marker|..])
  }

  /** `\s*(.+?)`: the greedy blanks give back one character when nothing else is left. */
  function SkipBlanksKeepOne(rest: string): (r: string)
    requires rest != []
    ensures r != [] && Trim(r) == Trim(rest)
  {
    var body := TrimStart(rest);
    if body == [] then
      AllBlankKeepOne(rest);
      [rest[|rest| - 1]]
    else
      BlanksThenBody(rest);
      body
  }

  lemma AllBlankKeepOne(rest: string)
    requires rest != [] && TrimStart(rest) == []
    ensures Trim([rest[|rest| - 1]]) == Trim(rest)
  {
    TrimStartDropsSpace(rest);
    assert AllSpace(rest[..|rest|]);
    assert rest[..|rest|] == rest;
    TrimEmptyIffAllSpace(rest);
    TrimEmptyIffAllSpace([rest[|rest| - 1]]);
  }

  lemma BlanksThenBody(rest: string)
    ensures Trim(TrimStart(rest)) == Trim(rest)
  {
    var body := TrimStart(rest);
    var w := rest[..|rest| - |body|];
    TrimStartDropsSpace(rest);
    assert rest == w + body;
    TrimSpacePrefix(w, body);
  }

  /** The capture of `/SUMMARY:\s*(.+?)(?=HIGHLIGHTS:|$)/s`. */
  function SummaryCapture(text: string): Option<string> {
    match After(text, SummaryMarker)
    case None => None
    case Some(rest) =>
      var body := SkipBlanksKeepOne(rest);
      Some(body[..LazyEnd(body, 1)])
  }

  /** `summary`: the trimmed capture, or the whole reply when the pattern does not match. */
  function SummaryOf(text: string): (r: string)
    ensures SummaryCapture(text).None? ==> r == text
  {
    match SummaryCapture(text)
    case None => text
    case Some(c) => Trim(c)
  }

  /** A reply in the requested format gives back its summary: after `SUMMARY:`, a
      summary without the letter H, then `HIGHLIGHTS:` and anything. */
  lemma SummaryOfFormatted(s: string, h: string)
    requires s != [] && !IsSpace(s[0]) && 'H' !in s
    ensures SummaryOf(SummaryMarker + s + HighlightsMarker + h) == Trim(s)
  {
    var text := SummaryMarker + s + HighlightsMarker + h;
    var rest := s + HighlightsMarker + h;
    assert text == SummaryMarker + rest;
    AfterLeadingMarker(text, rest);
    assert rest[0] == s[0];
    TrimStartClean(rest);
    LazyEndAtMarker(s, h);
    assert rest[..|s|] == s;
    SummaryFromCapture(text, rest, s);
  }

  /** The summary is the trimmed text up to where the lazy capture stops. */
  lemma SummaryFromCapture(text: string, rest: string, s: string)
    requires After(text, SummaryMarker) == Some(rest) && TrimStart(rest) == rest && rest != []
    requires |s| <= |rest| && LazyEnd(rest, 1) == |s| && rest[..|s|] == s
    ensures SummaryOf(text) == Trim(s)
  {
  }

  /** A text that starts with `SUMMARY:` has the rest of it after the marker. */
  lemma AfterLeadingMarker(text: string, rest: string)
    requires rest != [] && text == SummaryMarker + rest
    ensures After(text, SummaryMarker) == Some(rest)
  {
    assert text[..|SummaryMarker|] == SummaryMarker;
    assert IndexOf(text, SummaryMarker) == Some(0);
    assert text[|SummaryMarker|..] == rest;
  }

  /** The lazy capture stops where `HIGHLIGHTS:` starts, when no `H` comes before it. */
  lemma LazyEndAtMarker(s: string, h: string)
    requires s != [] && 'H' !in s
    ensures LazyEnd(s + HighlightsMarker + h, 1) == |s|
  {
    var rest := s + HighlightsMarker + h;
    assert rest[|s|..][..|HighlightsMarker|] == HighlightsMarker;
    forall j | 1 <= j < |s| ensures !StartsWith(rest[j..], HighlightsMarker) {
      assert rest[j..][0] == s[j];
    }
  }

  /** The capture of `/HIGHLIGHTS:\s*(.+?)$/s`: everything after the blanks. */
  function HighlightsCapture(text: string): Option<string> {
    match After(text, HighlightsMarker)
    case None => None
    case Some(rest) => Some(SkipBlanksKeepOne(rest))
  }

  /** `split('\n')`: never empty, one more piece than there are newlines. */
  function SplitLines(s: string): (r: seq<string>)
    ensures |r| >= 1
    ensures forall i :: 0 <= i < |r| ==> '\n' !in r[i]
  {
    if s == [] then [""]
    else if s[0] == '\n' then [""] + SplitLines(s[1..])
    else
      var t := SplitLines(s[1..]);
      [[s[0]] + t[0]] + t[1..]
  }

  /** `join('\n')`. */
  function JoinLines(ls: seq<string>): string
    requires |ls| >= 1
  {
    if |ls| == 1 then ls[0] else ls[0] + "\n" + JoinLines(ls[1..])
  }

  lemma {:induction false} JoinSplit(s: string)
    ensures JoinLines(SplitLines(s)) == s
  {
    if s != [] {
      JoinSplit(s[1..]);
      var t := SplitLines(s[1..]);
      if s[0] == '\n' {
        assert ([""] + t)[1..] == t;
      } else if |t| > 1 {
        assert ([[s[0]] + t[0]] + t[1..])[1..] == t[1..];
        assert JoinLines(t) == t[0] + "\n" + JoinLines(t[1..]);
      }
    }
  }

  lemma {:induction false} SplitJoin(ls: seq<string>)
    requires |ls| >= 1 && forall i :: 0 <= i < |ls| ==> '\n' !in ls[i]
    ensures SplitLines(JoinLines(ls)) == ls
    decreases |ls|, |ls[0]|
  {
    if |ls| == 1 {
      SplitNoNewline(ls[0]);
    } else if ls[0] == [] {
      assert forall i :: 0 <= i < |ls| - 1 ==> ls[1..][i] == ls[i + 1];
      SplitJoin(ls[1..]);
      EmptyHeadStep(ls);
    } else {
      var tail := [ls[0][1..]] + ls[1..];
      forall i | 0 <= i < |tail| ensures '\n' !in tail[i] {
        if i > 0 {
          assert tail[i] == ls[i];
        }
      }
      SplitJoin(tail);
      assert ls[0][0] in ls[0];
      ConsStep(ls, tail);
    }
  }

  /** An empty first line is a leading line break. */
  lemma EmptyHeadStep(ls: seq<string>)
    requires |ls| >= 2 && ls[0] == [] && SplitLines(JoinLines(ls[1..])) == ls[1..]
    ensures SplitLines(JoinLines(ls)) == ls
  {
    assert JoinLines(ls) == "\n" + JoinLines(ls[1..]);
    assert ("\n" + JoinLines(ls[1..]))[1..] == JoinLines(ls[1..]);
    assert [""] + ls[1..] == ls;
  }

  /** A first line that is not empty gives its first character to the first piece. */
  lemma ConsStep(ls: seq<string>, tail: seq<string>)
    requires |ls| >= 2 && ls[0] != [] && ls[0][0] != '\n' && tail == [ls[0][1..]] + ls[1..]
    requires SplitLines(JoinLines(tail)) == tail
    ensures SplitLines(JoinLines(ls)) == ls
  {
    var c := ls[0][0];
    JoinHeadChar(ls, tail);
    SplitCons(c, JoinLines(tail));
    assert [c] + tail[0] == ls[0];
    assert tail[1..] == ls[1..];
    assert [[c] + tail[0]] + tail[1..] == ls;
  }

  lemma JoinHeadChar(ls: seq<string>, tail: seq<string>)
    requires |ls| >= 2 && ls[0] != [] && tail == [ls[0][1..]] + ls[1..]
    ensures JoinLines(ls) == [ls[0][0]] + JoinLines(tail)
  {
    assert tail[1..] == ls[1..];
    assert ls[0] == [ls[0][0]] + ls[0][1..];
  }

  lemma SplitCons(c: char, x: string)
    requires c != '\n'
    ensures SplitLines([c] + x) == [[c] + SplitLines(x)[0]] + SplitLines(x)[1..]
  {
    assert ([c] + x)[1..] == x;
  }

  lemma {:induction false} SplitNoNewline(s: string)
    requires '\n' !in s
    ensures SplitLines(s) == [s]
  {
    if s != [] {
      SplitNoNewline(s[1..]);
      assert [s[0]] + s[1..] == s;
    }
  }

  /** `h.replace(/^-\s*\/, '')`. */
  function StripDash(h: string): string {
    if h != [] && h[0] == '-' then TrimStart(h[1..]) else h
  }

  /** One line of the highlights: kept when its trimmed form starts with a dash, then
      the dash at the very start of the untrimmed line is removed and the rest trimmed. */
  function HighlightItem(h: string): (r: Option<string>)
    ensures r.Some? <==> StartsWith(Trim(h), "-")
  {
    if StartsWith(Trim(h), "-") then Some(Trim(StripDash(h))) else None
  }

  /** `filter(keep).map(f)`, with the test and the map folded into one partial map. */
  function FilterMap<A, B>(s: seq<A>, f: A -> Option<B>): (r: seq<B>)
    ensures |r| <= |s|
  {
    if s == [] then [] else Kept(s[0], f) + FilterMap(s[1..], f)
  }

  /** What one element contributes to `FilterMap`. */
  function Kept<A, B>(x: A, f: A -> Option<B>): seq<B> {
    if f(x).Some? then [f(x).value] else []
  }

  /** The results are exactly the values `f` gives some element. */
  lemma {:induction false} FilterMapMembers<A, B>(s: seq<A>, f: A -> Option<B>, y: B)
    ensures y in FilterMap(s, f) <==> exists i :: 0 <= i < |s| && f(s[i]) == Some(y)
  {
    if s != [] {
      var tail := s[1..];
      FilterMapMembers(tail, f, y);
      if exists i :: 1 <= i < |s| && f(s[i]) == Some(y) {
        var i :| 1 <= i < |s| && f(s[i]) == Some(y);
        assert tail[i - 1] == s[i];
      }
      if exists i :: 0 <= i < |tail| && f(tail[i]) == Some(y) {
        var i :| 0 <= i < |tail| && f(tail[i]) == Some(y);
        assert tail[i] == s[i + 1];
      }
    }
  }

  /** The results keep the order of their elements. */
  lemma {:induction false} FilterMapAppend<A, B>(a: seq<A>, b: seq<A>, f: A -> Option<B>)
    ensures FilterMap(a + b, f) == FilterMap(a, f) + FilterMap(b, f)
  {
    if a == [] {
      assert a + b == b;
      assert FilterMap(a, f) == [];
    } else {
      var h := Kept(a[0], f);
      assert (a + b)[0] == a[0];
      assert (a + b)[1..] == a[1..] + b;
      assert FilterMap(a + b, f) == h + FilterMap(a[1..] + b, f);
      FilterMapAppend(a[1..], b, f);
      assert FilterMap(a, f) == h + FilterMap(a[1..], f);
      var x, y := FilterMap(a[1..], f), FilterMap(b, f);
      assert h + (x + y) == (h + x) + y;
    }
  }

  /** When `f` keeps every element, the results are its values, one per element. */
  lemma {:induction false} FilterMapAllKept<A, B>(s: seq<A>, f: A -> Option<B>, r: seq<B>)
    requires |s| == |r| && forall i :: 0 <= i < |s| ==> f(s[i]) == Some(r[i])
    ensures FilterMap(s, f) == r
  {
    if s != [] {
      assert f(s[0]) == Some(r[0]);
      assert Kept(s[0], f) == [r[0]];
      FilterMapAllKept(s[1..], f, r[1..]);
      assert [r[0]] + r[1..] == r;
    }
  }

  /** `filter(...).map(...)` over the lines. */
  function Highlights(lines: seq<string>): (r: seq<string>)
    ensures |r| <= |lines|
  {
    FilterMap(lines, HighlightItem)
  }

  /** `highlights`: empty when the pattern does not match. */
  function HighlightsOf(text: string): (r: seq<string>)
    ensures HighlightsCapture(text).None? ==> r == []
  {
    match HighlightsCapture(text)
    case None => []
    case Some(c) => Highlights(SplitLines(Trim(c)))
  }

  /** The highlights are exactly the items of the kept lines. */
  lemma HighlightsMembers(lines: seq<string>, x: string)
    ensures x in Highlights(lines) <==> exists i :: 0 <= i < |lines| && HighlightItem(lines[i]) == Some(x)
  {
    FilterMapMembers(lines, HighlightItem, x);
  }

  /** The items keep the order of their lines: the highlights of two blocks of lines
      are those of the first block followed by those of the second. */
  lemma HighlightsAppend(a: seq<string>, b: seq<string>)
    ensures Highlights(a + b) == Highlights(a) + Highlights(b)
  {
    FilterMapAppend(a, b, HighlightItem);
  }

  /** An item as the reply is asked to write it: one line of text, with no blank at
      either end. */
  predicate CleanItem(x: string) {
    x != [] && '\n' !in x && !IsSpace(x[0]) && !IsSpace(x[|x| - 1])
  }

  /** The item lines `- x` of a reply in the requested format. */
  function DashLines(items: seq<string>): (ls: seq<string>)
    ensures |ls| == |items| && forall i :: 0 <= i < |items| ==> ls[i] == "- " + items[i]
  {
    seq(|items|, i requires 0 <= i < |items| => "- " + items[i])
  }

  /** Lines `- x` give back their items, in order. */
  lemma HighlightsOfDashLines(items: seq<string>)
    requires forall i :: 0 <= i < |items| ==> CleanItem(items[i])
    ensures Highlights(DashLines(items)) == items
  {
    var ls := DashLines(items);
    forall i | 0 <= i < |items| ensures HighlightItem(ls[i]) == Some(items[i]) {
      DashItem(items[i]);
    }
    FilterMapAllKept(ls, HighlightItem, items);
  }

  /** An item line gives back its item unchanged. */
  lemma DashItem(x: string)
    requires CleanItem(x)
    ensures HighlightItem("- " + x) == Some(x)
  {
    DashLine(x);
    TrimClean(x);
  }

  /** No `HIGHLIGHTS:` starts inside a prefix without the letter H. */
  lemma NoMarkerBefore(text: string, pre: string)
    requires 'H' !in pre && |pre| <= |text| && text[..|pre|] == pre
    ensures forall j :: 0 <= j < |pre| ==> !StartsWith(text[j..], HighlightsMarker)
  {
    forall j | 0 <= j < |pre| ensures !StartsWith(text[j..], HighlightsMarker) {
      assert text[j..][0] == pre[j];
    }
  }

  /** The first `HIGHLIGHTS:` is found after a prefix without the letter H. */
  lemma AfterMarkerAt(text: string, pre: string, rest: string)
    requires 'H' !in pre && rest != [] && text == pre + HighlightsMarker + rest
    ensures After(text, HighlightsMarker) == Some(rest)
  {
    var k := |pre|;
    assert text[..k] == pre;
    NoMarkerBefore(text, pre);
    assert text[k..] == HighlightsMarker + rest;
    assert StartsWith(text[k..], HighlightsMarker);
    IndexOfAt(text, HighlightsMarker, k);
    assert text[k + |HighlightsMarker|..] == rest;
  }

  /** The joined item lines start with a dash and end with the last item's last
      character. */
  lemma {:induction false} JoinedDashEnds(items: seq<string>)
    requires items != [] && forall i :: 0 <= i < |items| ==> CleanItem(items[i])
    ensures var j, last := JoinLines(DashLines(items)), items[|items| - 1];
      j != [] && j[0] == '-' && last != [] && j[|j| - 1] == last[|last| - 1]
  {
    var ls := DashLines(items);
    if |items| > 1 {
      assert ls[1..] == DashLines(items[1..]);
      JoinedDashEnds(items[1..]);
      var t := JoinLines(ls[1..]);
      assert JoinLines(ls) == ls[0] + "\n" + t;
    }
  }

  /** A reply in the requested format gives back its highlights: after `SUMMARY:` a
      summary without the letter H, then `HIGHLIGHTS:`, a line break and one line
      `- x` per item. */
  lemma HighlightsOfFormatted(s: string, items: seq<string>)
    requires 'H' !in s && items != []
    requires forall i :: 0 <= i < |items| ==> CleanItem(items[i])
    ensures HighlightsOf(SummaryMarker + s + HighlightsMarker + "\n" + JoinLines(DashLines(items))) == items
  {
    var ls := DashLines(items);
    var body := JoinLines(ls);
    var pre := SummaryMarker + s;
    var rest := "\n" + body;
    var text := SummaryMarker + s + HighlightsMarker + "\n" + body;
    assert text == pre + HighlightsMarker + rest;
    assert 'H' !in pre by {
      forall j | 0 <= j < |pre| ensures pre[j] != 'H' {
        if j >= |SummaryMarker| {
          assert pre[j] == s[j - |SummaryMarker|];
        }
      }
    }
    AfterMarkerAt(text, pre, rest);
    JoinedDashEnds(items);
    assert rest[1..] == body;
    TrimStartClean(body);
    assert TrimStart(rest) == body;
    TrimClean(body);
    forall i | 0 <= i < |ls| ensures '\n' !in ls[i] {
      assert ls[i] == "- " + items[i];
    }
    SplitJoin(ls);
    HighlightsOfDashLines(items);
  }

  /** A line written as `- x` gives `x`, trimmed. */
  lemma DashLine(x: string)
    ensures HighlightItem("- " + x) == Some(Trim(x))
  {
    DashedLine("- " + x, x);
  }

  lemma DashedLine(h: string, x: string)
    requires |h| == |x| + 2 && h[0] == '-' && h[1] == ' ' && h[2..] == x
    ensures HighlightItem(h) == Some(Trim(x))
  {
    TrimKeepsHead(h);
    assert StartsWith(Trim(h), "-");
    assert StripDash(h) == TrimStart(h[1..]);
    assert TrimStart(h[1..]) == TrimStart(x) by {
      assert h[1..] == [' '] + x;
      TrimStartSpacePrefix([' '], x);
    }
    TrimStartClean(TrimStart(x));
  }

  /** Trimming an indented item line `  - x` leaves `- x`. */
  lemma TrimIndented(x: string)
    requires x != [] && !IsSpace(x[0]) && !IsSpace(x[|x| - 1])
    ensures Trim("  - " + x) == "- " + x
  {
    var d := "- " + x;
    assert d[0] == '-' && d[|d| - 1] == x[|x| - 1];
    TrimPadded("  ", d);
    assert "  " + d == "  - " + x;
  }

  /** As written, a line indented before its dash keeps the dash: `  - walk` gives
      `- walk`. */
  lemma IndentedLineKeepsDash(x: string)
    requires x != [] && !IsSpace(x[0]) && !IsSpace(x[|x| - 1])
    ensures HighlightItem("  - " + x) == Some("- " + x)
  {
    TrimIndented(x);
    assert ("  - " + x)[0] == ' ';
    DashStart(x);
  }

  /** `- x` starts with a dash. */
  lemma DashStart(x: string)
    ensures StartsWith("- " + x, "-")
  {
    assert ("- " + x)[..1] == "-";
  }

  /** The dash and the blank after it come off `- x`. */
  lemma DashRest(x: string)
    requires x != [] && !IsSpace(x[0])
    ensures StripDash("- " + x) == x
  {
    var d := "- " + x;
    assert d[1..] == [' '] + x;
    assert AllSpace([' ']);
    TrimStartSpacePrefix([' '], x);
    TrimStartClean(x);
  }

  /** The evidently intended item: the dash is removed after trimming. */
  function CorrectedHighlightItem(h: string): (r: Option<string>)
    ensures r.Some? <==> StartsWith(Trim(h), "-")
  {
    if StartsWith(Trim(h), "-") then Some(Trim(StripDash(Trim(h)))) else None
  }

  /** With the correction, indentation before the dash makes no difference. */
  lemma CorrectedIgnoresIndent(w: string, h: string)
    requires AllSpace(w)
    ensures CorrectedHighlightItem(w + h) == CorrectedHighlightItem(h)
  {
    TrimSpacePrefix(w, h);
  }

  /** With the correction, `  - walk` gives `walk`. */
  lemma CorrectedIndentedLine(x: string)
    requires x != [] && !IsSpace(x[0]) && !IsSpace(x[|x| - 1])
    ensures CorrectedHighlightItem("  - " + x) == Some(x)
  {
    TrimIndented(x);
    DashStart(x);
    DashRest(x);
    TrimClean(x);
  }

  // ---------------------------------------------------------------------------
  // The handler

  datatype Reflection = Reflection(
    summary: string,
    highlights: seq<string>,
    themes: seq<ThemeCount>,
    daysTracked: nat,
    avgMood: real,
    positivity: string)

  datatype Reply = Failure(status: int, error: string) | Success(reflection: Reflection)

  /** The request handler. `authorization` is the header, `userFound` the outcome of the
      token lookup, `body` the parsed JSON (`None` when it does not parse), `rows` what
      the month's query returns, and `ai` the gateway's reply. `queried` and `aiCalled`
      record whether the database and the AI were reached. */
  method GenerateMonthlyReflection(authorization: Option<string>, userFound: bool, body: Option<Json>,
                                   rows: Result<seq<Entry>, string>, ai: AiReply)
    returns (reply: Reply, queried: bool, aiCalled: bool)
    ensures (authorization.None? || !userFound) ==> reply == Failure(401, "Unauthorized") && !queried
    ensures queried <==> authorization.Some? && userFound && body.Some? && ValidateInput(body.value).Ok?
    ensures aiCalled <==> queried && rows.Ok? && |rows.value| >= 3
    ensures authorization.Some? && userFound && body.Some? && ValidateInput(body.value).Err?
      ==> reply == Failure(400, ValidateInput(body.value).error)
    ensures queried && rows.Ok? && |rows.value| < 3 ==> reply == Failure(400, "Not enough entries for this month")
    ensures aiCalled && !ReplyOk(ai) ==> reply.Failure? && reply.status == GatewayFailureStatus(ai.status, 500)
    ensures reply.Success? <==> aiCalled && ReplyOk(ai) && ai.content.Some?
    ensures reply.Success? ==> reply.reflection == Reflection(
      SummaryOf(ai.content.value), HighlightsOf(ai.content.value), ThemeTable(AllTags(rows.value)),
      |rows.value|, AvgMood(rows.value), Positivity(AvgMood(rows.value)))
  {
    queried, aiCalled := false, false;
    if authorization.None? || !userFound {
      return Failure(401, "Unauthorized"), queried, aiCalled;
    }
    if body.None? {
      return Failure(500, "Unexpected end of JSON input"), queried, aiCalled;
    }
    var validation := ValidateInput(body.value);
    if validation.Err? {
      return Failure(400, validation.error), queried, aiCalled;
    }
    queried := true;
    if rows.Err? {
      return Failure(500, rows.error), queried, aiCalled;
    }
    var entries := rows.value;
    if |entries| < 3 {
      return Failure(400, "Not enough entries for this month"), queried, aiCalled;
    }
    var daysTracked := |entries|;
    var avgMood := AvgMood(entries);
    var themeCounts := CountThemes(entries);
    var positivity := Positivity(avgMood);
    aiCalled := true;
    if !ReplyOk(ai) {
      if ai.status == 429 {
        return Failure(429, "Rate limit exceeded"), queried, aiCalled;
      }
      if ai.status == 402 {
        return Failure(402, "AI service unavailable"), queried, aiCalled;
      }
      return Failure(500, "AI API error: " + IntToString(ai.status)), queried, aiCalled;
    }
    if ai.content.None? {
      return Failure(500, "Cannot read properties of undefined (reading 'match')"), queried, aiCalled;
    }
    var reflectionText := ai.content.value;
    reply := Success(Reflection(SummaryOf(reflectionText), HighlightsOf(reflectionText), themeCounts,
                                daysTracked, avgMood, positivity));
  }
}
