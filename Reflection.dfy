/** The `generate-reflection` edge function: request validation, the gateway call, and
    reading the mood the AI was asked to add (`MOOD: d`) out of its reply. */
module Reflection {
  import opened Common

  // ---------------------------------------------------------------------------
  // Input

  const MaxLength: nat := 500

  /** `Number.isInteger` on a JSON number. */
  predicate IsInteger(n: real) {
    n == n.Floor as real
  }

  datatype Input = Input(entryText: string, moodScore: Option<int>)

  /** The mood field is absent or null. */
  predicate NoMood(body: Json) {
    Field(body, "moodScore").None? || Field(body, "moodScore") == Some(JNull)
  }

  /** A supplied mood that is an integer from 1 to 5. */
  predicate GoodMood(body: Json) {
    Field(body, "moodScore").Some? && Field(body, "moodScore").value.JNum?
    && IsInteger(Field(body, "moodScore").value.n)
    && 1.0 <= Field(body, "moodScore").value.n <= 5.0
  }

  /** `validateInput`: the error of the first rule broken, or the trimmed text and the
      mood (`null` when absent). */
  function ValidateInput(body: Json): (r: Result<Input, string>)
    ensures r.Ok? <==> (IsObjectBody(body) && StringField(body, "entryText").Some?
      && !AllSpace(StringField(body, "entryText").value)
      && Utf16Length(StringField(body, "entryText").value) <= MaxLength
      && (NoMood(body) || GoodMood(body)))
    ensures r.Ok? ==> r.value.entryText == Trim(StringField(body, "entryText").value)
    ensures r.Ok? && NoMood(body) ==> r.value.moodScore.None?
    ensures r.Ok? && GoodMood(body) ==> r.value.moodScore == Some(Field(body, "moodScore").value.n.Floor)
    ensures r.Ok? ==> r.value.moodScore.None? || 1 <= r.value.moodScore.value <= 5
  {
    if !IsObjectBody(body) then Err("Invalid request body")
    else
      match StringField(body, "entryText")
      case None => Err("entryText must be a string")
      case Some(text) =>
        TrimEmptyIffAllSpace(text);
        if Trim(text) == [] then Err("entryText cannot be empty")
        else if Utf16Length(text) > MaxLength then Err("entryText must be less than 500 characters")
        else
          match Field(body, "moodScore")
          case None => Ok(Input(Trim(text), None))
          case Some(JNull) => Ok(Input(Trim(text), None))
          case Some(JNum(n)) =>
            if !IsInteger(n) then Err("moodScore must be an integer")
            else if n < 1.0 || n > 5.0 then Err("moodScore must be between 1 and 5")
            else Ok(Input(Trim(text), Some(n.Floor)))
          case Some(_) => Err("moodScore must be an integer")
  }

  /** The limit is inclusive, whatever the message says: 500 characters pass. */
  lemma FiveHundredPasses(text: string)
    requires |text| == 500 && forall i :: 0 <= i < |text| ==> text[i] == 'a'
    ensures ValidateInput(JObj(map["entryText" := JStr(text)])).Ok?
  {
    var body := JObj(map["entryText" := JStr(text)]);
    assert StringField(body, "entryText") == Some(text);
    assert !IsSpace(text[0]);
    Utf16Ascii(text);
  }

  lemma {:induction false} Utf16Ascii(s: string)
    requires forall i :: 0 <= i < |s| ==> s[i] as int < 0x10000
    ensures Utf16Length(s) == |s|
  {
    if s != [] {
      Utf16Ascii(s[..|s| - 1]);
    }
  }

  // ---------------------------------------------------------------------------
  // The mood marker

  const Marker: string := "MOOD:"

  /** `/MOOD:\s*(\d)/` matches at `p`: the marker, blanks, then a digit, whose value is
      returned. */
  function MarkerAt(s: string, p: nat): (d: Option<int>)
    requires p <= |s|
    ensures d.Some? ==> 0 <= d.value <= 9
  {
    if !StartsWith(s[p..], Marker) then None
    else
      var rest := TrimStart(s[p + |Marker|..]);
      if rest != [] && IsDigit(rest[0]) then Some(rest[0] as int - '0' as int) else None
  }

  /** `fullResponse.match(/MOOD:\s*(\d)/)`: where the leftmost match starts, searching
      from position `p`. */
  function FirstMarker(s: string, p: nat): (q: Option<nat>)
    requires p <= |s|
    ensures q.Some? ==> p <= q.value <= |s|
  {
    FirstHit(Hits(s), p)
  }

  /** Whether a match starts at each position of `s`, the end included. */
  function Hits(s: string): (h: seq<bool>)
    ensures |h| == |s| + 1
  {
    seq(|s| + 1, k requires 0 <= k <= |s| => MarkerAt(s, k).Some?)
  }

  /** The first position from `p` on that holds a hit. */
  function FirstHit(h: seq<bool>, p: nat): (q: Option<nat>)
    requires p <= |h|
    ensures q.Some? ==> p <= q.value < |h|
    decreases |h| - p
  {
    if p == |h| then None
    else if h[p] then Some(p)
    else FirstHit(h, p + 1)
  }

  lemma {:induction false} FirstHitSpec(h: seq<bool>, p: nat)
    requires p <= |h|
    ensures FirstHit(h, p).None? <==> forall k :: p <= k < |h| ==> !h[k]
    ensures FirstHit(h, p).Some? ==> h[FirstHit(h, p).value]
    ensures FirstHit(h, p).Some? ==> forall k :: p <= k < FirstHit(h, p).value ==> !h[k]
    decreases |h| - p
  {
    if p < |h| && !h[p] {
      FirstHitSpec(h, p + 1);
    }
  }

  /** The search finds a match exactly when there is one, and then the leftmost. */
  lemma FirstMarkerSpec(s: string, p: nat)
    requires p <= |s|
    ensures FirstMarker(s, p).None? <==> forall k :: p <= k <= |s| ==> MarkerAt(s, k).None?
    ensures FirstMarker(s, p).Some? ==> MarkerAt(s, FirstMarker(s, p).value).Some?
    ensures FirstMarker(s, p).Some? ==> forall k :: p <= k < FirstMarker(s, p).value ==> MarkerAt(s, k).None?
  {
    var h := Hits(s);
    FirstHitSpec(h, p);
    assert forall k :: 0 <= k <= |s| ==> (h[k] <==> MarkerAt(s, k).Some?);
  }

  /** The search finds the first match when nothing matches before it. */
  lemma FirstAt(s: string, p: nat, q: nat)
    requires p <= q <= |s| && MarkerAt(s, q).Some?
    requires forall k :: p <= k < q ==> MarkerAt(s, k).None?
    ensures FirstMarker(s, p) == Some(q)
  {
    var h := Hits(s);
    assert h[q];
    assert forall k :: p <= k < q ==> !h[k];
    FirstHitAt(h, p, q);
  }

  lemma {:induction false} FirstHitAt(h: seq<bool>, p: nat, q: nat)
    requires p <= q < |h| && h[q]
    requires forall k :: p <= k < q ==> !h[k]
    ensures FirstHit(h, p) == Some(q)
    decreases q - p
  {
    if p < q {
      FirstHitAt(h, p + 1, q);
    }
  }

  /** `.replace(/\s*MOOD:\s*\d\s*$/, '')`: the reply ends (blanks aside) with the marker
      and a digit; the match starts at the first of the blanks before the marker. */
  function StripTrailingMarker(s: string): (r: string)
    ensures |r| <= |s| && r == s[..|r|]
  {
    var t := TrimEnd(s);
    if t != [] && IsDigit(t[|t| - 1]) then
      var v := TrimEnd(t[..|t| - 1]);
      if |v| >= |Marker| && v[|v| - |Marker|..] == Marker then
        var r := TrimEnd(v[..|v| - |Marker|]);
        assert r == s[..|r|] by {
          assert v == s[..|v|];
          assert v[..|v| - |Marker|] == s[..|v| - |Marker|];
        }
        r
      else s
    else s
  }

  /** The reflection and mood read out of the reply when the AI was asked for a mood:
      unchanged text and no mood without a match; otherwise the matched digit and the
      text without a trailing marker, trimmed. */
  function ReadMood(fullResponse: string): (r: (string, Option<int>))
    ensures r.1.None? <==> forall q :: 0 <= q <= |fullResponse| ==> MarkerAt(fullResponse, q).None?
    ensures r.1.None? ==> r.0 == fullResponse
    ensures r.1.Some? ==> r.0 == Trim(StripTrailingMarker(fullResponse)) && 0 <= r.1.value <= 9
  {
    FirstMarkerSpec(fullResponse, 0);
    match FirstMarker(fullResponse, 0)
    case Some(q) => (Trim(StripTrailingMarker(fullResponse)), MarkerAt(fullResponse, q))
    case None => (fullResponse, None)
  }

  /** The format the prompt asks for: text, a line break, then `MOOD: d`. The mood is
      read and the marker line removed. */
  lemma ReadsFormattedReply(x: string, d: char)
    requires IsDigit(d) && forall i :: 0 <= i < |x| ==> x[i] != 'M'
    ensures ReadMood(x + "\nMOOD: " + [d]) == (Trim(x), Some(d as int - '0' as int))
  {
    FormattedMarker(x, d);
    FormattedStrip(x, d);
  }

  lemma FormattedMarker(x: string, d: char)
    requires IsDigit(d) && forall i :: 0 <= i < |x| ==> x[i] != 'M'
    ensures var s := x + "\nMOOD: " + [d];
      FirstMarker(s, 0) == Some(|x| + 1) && MarkerAt(s, |x| + 1) == Some(d as int - '0' as int)
  {
    FormattedLayout(x, d);
    FirstMarkerAfter(x + "\nMOOD: " + [d], x, d);
  }

  /** The first match in a reply laid out as text, line break, marker, blank, digit. */
  lemma FirstMarkerAfter(s: string, x: string, d: char)
    requires IsDigit(d) && forall i :: 0 <= i < |x| ==> x[i] != 'M'
    requires |s| == |x| + 8 && s[..|x|] == x && s[|x|] == '\n' && s[|x| + 1..] == Marker + [' ', d]
    ensures FirstMarker(s, 0) == Some(|x| + 1) && MarkerAt(s, |x| + 1) == Some(d as int - '0' as int)
  {
    MarkerDigit(s, |x| + 1, d);
    NoMarkerBefore(s, x);
    FirstAt(s, 0, |x| + 1);
  }

  /** Where the parts of a formatted reply sit. */
  lemma FormattedLayout(x: string, d: char)
    ensures var s := x + "\nMOOD: " + [d]; var p := |x| + 1;
      |s| == p + 7 && s[..|x|] == x && s[|x|] == '\n'
      && s[p..p + 5] == Marker && s[p + 5] == ' ' && s[p + 6] == d
      && s[p..] == Marker + [' ', d]
  {
    var s := x + "\nMOOD: " + [d];
    var p := |x| + 1;
    assert s[p..p + 5] == "\nMOOD: "[1..6];
    assert s[p..] == Marker + [' ', d];
  }

  /** No match starts inside a text without an `M`, nor at the character after it
      when that is not an `M` either. */
  lemma NoMarkerBefore(s: string, x: string)
    requires |x| < |s| && s[..|x|] == x && s[|x|] != 'M'
    requires forall i :: 0 <= i < |x| ==> x[i] != 'M'
    ensures forall q :: 0 <= q <= |x| ==> MarkerAt(s, q).None?
  {
    forall q | 0 <= q <= |x| ensures MarkerAt(s, q).None? {
      if q < |x| {
        assert s[q] == s[..|x|][q];
      }
      NoMarkerAt(s, q);
    }
  }

  /** The marker, one blank and a digit at the end of the reply give that digit. */
  lemma MarkerDigit(s: string, p: nat, d: char)
    requires p <= |s| && s[p..] == Marker + [' ', d] && IsDigit(d)
    ensures MarkerAt(s, p) == Some(d as int - '0' as int)
  {
    MarkerAtShift(s, p);
    HeadMarker(s[p..], d);
  }

  /** Whether a match starts at `p` depends only on the text from `p` on. */
  lemma MarkerAtShift(s: string, p: nat)
    requires p <= |s|
    ensures MarkerAt(s, p) == MarkerAt(s[p..], 0)
  {
    var u := s[p..];
    assert u[0..] == u;
    if |Marker| <= |u| {
      assert u[|Marker|..] == s[p + |Marker|..];
    }
  }

  /** A blank then a digit: trimming the start leaves the digit first. */
  lemma BlankDigit(t: string, d: char)
    requires |t| >= 2 && t[0] == ' ' && t[1] == d && IsDigit(d)
    ensures TrimStart(t) != [] && TrimStart(t)[0] == d
  {
    assert IsSpace(t[0]);
    assert !IsSpace(t[1..][0]);
    TrimStartClean(t[1..]);
  }

  lemma FormattedStrip(x: string, d: char)
    requires IsDigit(d)
    ensures Trim(StripTrailingMarker(x + "\nMOOD: " + [d])) == Trim(x)
  {
    FormattedLayout(x, d);
    StripAfter(x + "\nMOOD: " + [d], x, d);
  }

  /** Stripping a reply laid out as text, line break, marker, blank, digit leaves the
      text and the line break, which trimming removes. */
  lemma StripAfter(s: string, x: string, d: char)
    requires IsDigit(d)
    requires |s| == |x| + 8 && s[..|x|] == x && s[|x|] == '\n'
    requires s[|x| + 1..|x| + 6] == Marker && s[|x| + 6] == ' ' && s[|x| + 7] == d
    ensures Trim(StripTrailingMarker(s)) == Trim(x)
  {
    var v := s[..|x| + 6];
    assert TrimEnd(s[..|s| - 1]) == v by {
      assert s[..|s| - 1] == v + " ";
      assert v[|v| - 1] == ':';
      SpaceAfter(v);
    }
    assert v[|v| - 5..] == Marker;
    StripParts(s, v);
    assert v[..|v| - 5] == x + "\n";
    assert AllSpace("\n");
    TrimSpaceSuffix(x, "\n");
  }

  lemma SpaceAfter(v: string)
    requires v != [] && !IsSpace(v[|v| - 1])
    ensures TrimEnd(v + " ") == v
  {
    assert (v + " ")[..|v|] == v;
    TrimEndClean(v);
  }

  /** A reply ending in a digit, after blanks, after the marker, loses all three and the
      blanks before the marker. */
  lemma StripParts(s: string, v: string)
    requires s != [] && IsDigit(s[|s| - 1])
    requires TrimEnd(s[..|s| - 1]) == v && |v| >= |Marker| && v[|v| - |Marker|..] == Marker
    ensures StripTrailingMarker(s) == TrimEnd(v[..|v| - |Marker|])
  {
    assert !IsSpace(s[|s| - 1]);
    TrimEndClean(s);
  }

  /** No match starts at a character other than `M`. */
  lemma NoMarkerAt(s: string, q: nat)
    requires q < |s| && s[q] != 'M'
    ensures MarkerAt(s, q).None?
  {
    assert s[q..][0] == s[q];
    assert Marker[0] == 'M';
  }

  /** Blanks at the end do not survive trimming. */
  lemma TrimSpaceSuffix(x: string, w: string)
    requires AllSpace(w)
    ensures Trim(TrimEnd(x + w)) == Trim(x)
  {
    TrimEndSpaceSuffix(x, w);
    TrimEndTwice(x);
    TrimStartOfTrimEnd(x);
  }

  lemma {:induction false} TrimEndSpaceSuffix(x: string, w: string)
    requires AllSpace(w)
    ensures TrimEnd(x + w) == TrimEnd(x)
    decreases |w|
  {
    if w != [] {
      assert (x + w)[..|x + w| - 1] == x + w[..|w| - 1];
      TrimEndSpaceSuffix(x, w[..|w| - 1]);
    } else {
      assert x + w == x;
    }
  }

  lemma TrimEndTwice(x: string)
    ensures TrimEnd(TrimEnd(x)) == TrimEnd(x)
  {
    TrimEndClean(TrimEnd(x));
  }

  /** Trimming the end first does not change the full trim. */
  lemma {:induction false} TrimStartOfTrimEnd(x: string)
    ensures Trim(TrimEnd(x)) == Trim(x)
    decreases |x|
  {
    if x != [] && IsSpace(x[0]) {
      if TrimEnd(x) == [] {
        TrimEmptyIffAllSpace(x);
        TrimEndDropsSpace(x);
        assert AllSpace(x[|TrimEnd(x)|..]);
        assert x[0..] == x;
        TrimEmptyIffAllSpace(x);
      } else {
        TrimEndTail(x);
        TrimStartOfTrimEnd(x[1..]);
      }
    } else {
      TrimStartClean(x);
      var e := TrimEnd(x);
      assert e == [] || e[0] == x[0];
      TrimStartClean(e);
    }
  }

  /** A leading blank that survives `trimEnd` is the head of the trimmed-end string. */
  lemma TrimEndTail(x: string)
    requires x != [] && IsSpace(x[0]) && TrimEnd(x) != []
    ensures TrimEnd(x)[1..] == TrimEnd(x[1..]) && TrimEnd(x)[0] == x[0]
  {
    TrimEndDropHead(x);
  }

  lemma {:induction false} TrimEndDropHead(x: string)
    requires x != [] && TrimEnd(x) != []
    ensures TrimEnd(x)[0] == x[0] && TrimEnd(x)[1..] == TrimEnd(x[1..])
    decreases |x|
  {
    if IsSpace(x[|x| - 1]) {
      var y := x[..|x| - 1];
      assert TrimEnd(x) == TrimEnd(y);
      assert y != [];
      TrimEndDropHead(y);
      assert y[1..] == x[1..][..|x| - 2];
      assert x[1..] == [] || x[1..][|x| - 2] == x[|x| - 1];
    } else {
      if |x| > 1 {
        TrimEndClean(x[1..]);
      }
    }
  }

  /** A marker at the head of the reply followed by more text gives the mood, but only
      a trailing marker is removed: the reply is kept whole. */
  lemma MidTextMarkerIsKept(d: char, y: string)
    requires IsDigit(d) && y != [] && !IsDigit(y[|y| - 1]) && !IsSpace(y[|y| - 1])
    ensures ReadMood(Marker + " " + [d] + " " + y) == (Marker + " " + [d] + " " + y, Some(d as int - '0' as int))
  {
    var s := Marker + " " + [d] + " " + y;
    HeadMarker(s, d);
    FirstAt(s, 0, 0);
    assert s[|s| - 1] == y[|y| - 1];
    CleanEnds(s);
  }

  /** The marker, a blank and a digit at the head of the text match there. */
  lemma HeadMarker(u: string, d: char)
    requires IsDigit(d) && |Marker| + 2 <= |u|
    requires u[..|Marker|] == Marker && u[|Marker|] == ' ' && u[|Marker| + 1] == d
    ensures MarkerAt(u, 0) == Some(d as int - '0' as int)
  {
    assert u[0..] == u;
    BlankDigit(u[|Marker|..], d);
  }

  /** Text that starts with `M` and ends in neither a digit nor a blank is left whole
      by the marker strip and the trim. */
  lemma CleanEnds(s: string)
    requires s != [] && s[0] == 'M' && !IsDigit(s[|s| - 1]) && !IsSpace(s[|s| - 1])
    ensures Trim(StripTrailingMarker(s)) == s
  {
    TrimEndClean(s);
    assert StripTrailingMarker(s) == s;
    TrimStartClean(s);
  }

  /** The digit is not range-checked: a formatted reply ending `MOOD: 9` gives mood 9,
      outside the scale of 1 to 5. */
  lemma OutOfRangeMood(x: string)
    requires forall i :: 0 <= i < |x| ==> x[i] != 'M'
    ensures ReadMood(x + "\nMOOD: " + ['9']).1 == Some(9)
  {
    ReadsFormattedReply(x, '9');
  }

  // ---------------------------------------------------------------------------
  // The handler

  /** A reply: an error with its status, or the reflection (absent when the gateway's
      content is not a string and no mood was asked for) and the mood. */
  datatype Reply = Failure(status: int, error: string) | Success(reflection: Option<string>, moodScore: Option<int>)

  /** The request handler. `body` is the parsed JSON (`None` when it does not parse),
      `apiKey` whether the key is configured and `ai` the gateway's reply. The second
      component records whether the gateway was called. */
  function GenerateReflection(body: Option<Json>, apiKey: bool, ai: AiReply): (r: (Reply, bool))
    ensures body.Some? && ValidateInput(body.value).Err? ==> r == (Failure(400, ValidateInput(body.value).error), false)
    ensures r.1 <==> body.Some? && ValidateInput(body.value).Ok? && apiKey
    ensures r.1 && !ReplyOk(ai) ==> r.0.Failure? && r.0.status == GatewayFailureStatus(ai.status, 500)
    ensures r.0.Success? ==> r.1 && ReplyOk(ai)
    ensures r.1 && ReplyOk(ai) && ValidateInput(body.value).value.moodScore.Some? ==>
      r.0 == Success(ai.content, ValidateInput(body.value).value.moodScore)
    ensures r.1 && ReplyOk(ai) && ValidateInput(body.value).value.moodScore.None? ==>
      (ai.content.None? ==> r.0.Failure? && r.0.status == 500)
      && (ai.content.Some? ==> r.0 == Success(Some(ReadMood(ai.content.value).0), ReadMood(ai.content.value).1))
  {
    if body.None? then (Failure(500, "Unexpected end of JSON input"), false)
    else
      match ValidateInput(body.value)
      case Err(e) => (Failure(400, e), false)
      case Ok(input) =>
        if !apiKey then (Failure(500, "AI service not configured"), false)
        else if !ReplyOk(ai) then
          if ai.status == 429 then (Failure(429, "Rate limit exceeded. Please try again in a moment."), true)
          else if ai.status == 402 then (Failure(402, "AI service unavailable. Please try again later."), true)
          else (Failure(500, "AI gateway returned " + IntToString(ai.status)), true)
        else if input.moodScore.Some? then (Success(ai.content, input.moodScore), true)
        else if ai.content.None? then (Failure(500, "Cannot read properties of undefined (reading 'match')"), true)
        else
          var (reflection, mood) := ReadMood(ai.content.value);
          (Success(Some(reflection), mood), true)
  }
}
