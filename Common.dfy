/** Values shared by the pages and edge functions: journal rows, JavaScript truthiness
    of a nullable mood, JavaScript whitespace and `trim`, UTF-16 lengths, parsed JSON
    request bodies and the AI gateway reply. */
module Common {

  datatype Option<T> = None | Some(value: T)

  datatype Result<T, E> = Ok(value: T) | Err(error: E)

  /** One `journal_entries` row as the pages and edge functions read it. `day` is the
      `entry_date` column as a day number (days since 1970-01-01); `tags` and
      `reflection` are the nullable `tags` and `ai_reflection` columns. */
  datatype Entry = Entry(
    id: nat,
    day: int,
    mood: Option<int>,
    text: string,
    tags: Option<seq<string>>,
    reflection: Option<string>)

  /** `mood_score` is truthy in JavaScript: present and not 0. */
  predicate Tracked(m: Option<int>) {
    m.Some? && m.value != 0
  }

  /** The JavaScript expression `mood_score || fallback`. */
  function MoodOr(m: Option<int>, fallback: int): int {
    if Tracked(m) then m.value else fallback
  }

  /** The `entry_date` of every row, in row order. */
  function Days(es: seq<Entry>): seq<int> {
    seq(|es|, i requires 0 <= i < |es| => es[i].day)
  }

  /** The tag list of a row; a null `tags` column behaves as no tags (`entry.tags?.forEach`). */
  function TagsOf(e: Entry): seq<string> {
    if e.tags.Some? then e.tags.value else []
  }

  /** The index of the first row written on `day`. */
  function FirstOnDay(es: seq<Entry>, day: int): (r: Option<nat>)
    ensures r.None? <==> forall i :: 0 <= i < |es| ==> es[i].day != day
    ensures r.Some? ==> r.value < |es| && es[r.value].day == day
    ensures r.Some? ==> forall j :: 0 <= j < r.value ==> es[j].day != day
  {
    if es == [] then None
    else if es[0].day == day then Some(0)
    else
      match FirstOnDay(es[1..], day)
      case None => None
      case Some(i) => Some(i + 1)
  }

  /** `entries.find(e => e.entry_date === date)`: the first row written on `day`. */
  function FindByDay(es: seq<Entry>, day: int): (r: Option<Entry>)
    ensures r.None? <==> forall i :: 0 <= i < |es| ==> es[i].day != day
    ensures r.Some? ==> r.value in es && r.value.day == day
  {
    match FirstOnDay(es, day)
    case None => None
    case Some(i) => Some(es[i])
  }

  /** Sum of `mood_score || 0` over the rows. */
  function MoodSum(es: seq<Entry>): int {
    if es == [] then 0 else MoodSum(es[..|es| - 1]) + MoodOr(es[|es| - 1].mood, 0)
  }

  /** `avgMood` of the insights page and the monthly reflection: the sum of
      `mood_score || 0` over the rows divided by their number, or 0 without rows. */
  function AvgMood(es: seq<Entry>): (r: real)
    ensures es == [] ==> r == 0.0
    ensures es != [] ==> r * |es| as real == MoodSum(es) as real
  {
    if es == [] then 0.0 else MoodSum(es) as real / |es| as real
  }

  /** Each mood present lies in `lo..hi` (0 counts as untracked). */
  predicate MoodsWithin(es: seq<Entry>, lo: int, hi: int) {
    forall i :: 0 <= i < |es| ==> es[i].mood.None? || lo <= es[i].mood.value <= hi
  }

  lemma {:induction false} MoodSumBounds(es: seq<Entry>)
    requires MoodsWithin(es, 0, 5)
    ensures 0 <= MoodSum(es) <= 5 * |es|
  {
    if es != [] {
      MoodSumBounds(es[..|es| - 1]);
    }
  }

  /** With moods on the 1-5 scale the average stays within 0..5. */
  lemma AvgMoodBounds(es: seq<Entry>)
    requires MoodsWithin(es, 0, 5)
    ensures 0.0 <= AvgMood(es) <= 5.0
  {
    MoodSumBounds(es);
    if es != [] {
      QuotientBounds(MoodSum(es) as real, |es| as real, AvgMood(es));
    }
  }

  /** A quotient of a number in `0..5n` by a positive `n` lies in `0..5`. */
  lemma QuotientBounds(x: real, n: real, r: real)
    requires n > 0.0 && r * n == x && 0.0 <= x <= 5.0 * n
    ensures 0.0 <= r <= 5.0
  {
  }

  /** Number of rows whose mood is truthy. */
  function TrackedCount(es: seq<Entry>): nat {
    if es == [] then 0 else TrackedCount(es[..|es| - 1]) + (if Tracked(es[|es| - 1].mood) then 1 else 0)
  }

  // ---------------------------------------------------------------------------
  // Sequences

  function Count<T(==)>(s: seq<T>, x: T): nat {
    if s == [] then 0 else Count(s[..|s| - 1], x) + (if s[|s| - 1] == x then 1 else 0)
  }

  lemma {:induction false} CountAppend<T>(a: seq<T>, b: seq<T>, x: T)
    ensures Count(a + b, x) == Count(a, x) + Count(b, x)
    decreases |b|
  {
    if b == [] {
      assert a + b == a;
    } else {
      assert (a + b)[..|a + b| - 1] == a + b[..|b| - 1];
      CountAppend(a, b[..|b| - 1], x);
    }
  }

  lemma {:induction false} CountPositive<T>(s: seq<T>, x: T)
    ensures Count(s, x) > 0 <==> x in s
  {
    if s != [] {
      CountPositive(s[..|s| - 1], x);
      assert s == s[..|s| - 1] + [s[|s| - 1]];
    }
  }

  /** The index of the first occurrence of `x` in `s`. */
  function FirstIndex<T(==)>(s: seq<T>, x: T): (k: nat)
    requires x in s
    ensures k < |s| && s[k] == x
    ensures forall j :: 0 <= j < k ==> s[j] != x
  {
    if s[0] == x then 0 else 1 + FirstIndex(s[1..], x)
  }

  /** An occurrence with none before it is the first one. */
  lemma FirstIndexUnique<T>(s: seq<T>, x: T, k: nat)
    requires k < |s| && s[k] == x && forall j :: 0 <= j < k ==> s[j] != x
    ensures FirstIndex(s, x) == k
  {
  }

  /** Appending an element does not move the first occurrence of an earlier one. */
  lemma FirstIndexPrefix<T>(q: seq<T>, x: T, y: T)
    requires y in q
    ensures FirstIndex(q + [x], y) == FirstIndex(q, y)
  {
    var k := FirstIndex(q, y);
    assert (q + [x])[k] == y;
    FirstIndexUnique(q + [x], y, k);
  }

  /** The elements of `s` in order of first occurrence (JavaScript object key order
      for keys that are inserted as they are first met). */
  function Distinct<T(==)>(s: seq<T>): (r: seq<T>)
    ensures forall i :: 0 <= i < |r| ==> r[i] in s
    ensures forall i :: 0 <= i < |s| ==> s[i] in r
    ensures NoDuplicates(r)
  {
    if s == [] then []
    else
      var q := s[..|s| - 1];
      var x := s[|s| - 1];
      var p := Distinct(q);
      var r := if x in q then p else p + [x];
      DistinctStep(s, q, x, p, r);
      r
  }

  /** `Distinct` lists the elements in the order in which each first occurs. */
  lemma {:induction false} DistinctInFirstOrder<T>(s: seq<T>)
    ensures InFirstOrder(s, Distinct(s))
  {
    if s != [] {
      var q, x := s[..|s| - 1], s[|s| - 1];
      assert s == q + [x];
      var p := Distinct(q);
      assert Distinct(s) == if x in q then p else p + [x];
      DistinctInFirstOrder(q);
      DistinctStepOrder(s, q, x, p, Distinct(s));
    }
  }

  /** Every element of `r` occurs in `s`, and `r` lists them in the order in which
      each first occurs there. */
  predicate InFirstOrder<T(==)>(s: seq<T>, r: seq<T>) {
    (forall i :: 0 <= i < |r| ==> r[i] in s)
    && forall i, j :: 0 <= i < j < |r| ==> FirstIndex(s, r[i]) < FirstIndex(s, r[j])
  }

  /** The distinct elements of `q`, with `x` added when it is new, are the distinct
      elements of `q + [x]`. */
  lemma DistinctStep<T>(s: seq<T>, q: seq<T>, x: T, p: seq<T>, r: seq<T>)
    requires s == q + [x] && r == if x in q then p else p + [x]
    requires forall i :: 0 <= i < |p| ==> p[i] in q
    requires forall i :: 0 <= i < |q| ==> q[i] in p
    requires NoDuplicates(p)
    ensures forall i :: 0 <= i < |r| ==> r[i] in s
    ensures forall i :: 0 <= i < |s| ==> s[i] in r
    ensures NoDuplicates(r)
  {
    forall i | 0 <= i < |s| ensures s[i] in r {
      if i < |q| {
        assert s[i] == q[i];
      }
    }
  }

  /** ... and keep the order of first occurrence. */

  lemma DistinctStepOrder<T>(s: seq<T>, q: seq<T>, x: T, p: seq<T>, r: seq<T>)
    requires s == q + [x] && r == if x in q then p else p + [x]
    requires InFirstOrder(q, p)
    ensures InFirstOrder(s, r)
  {
    forall i | 0 <= i < |p| ensures FirstIndex(s, p[i]) == FirstIndex(q, p[i]) {
      FirstIndexPrefix(q, x, p[i]);
    }
    if x !in q {
      FirstIndexUnique(s, x, |q|);
      forall i, j | 0 <= i < j < |r| ensures FirstIndex(s, r[i]) < FirstIndex(s, r[j]) {
        assert r[i] == p[i];
        if j < |p| {
          assert r[j] == p[j];
        }
      }
    }
  }

  /** A new element joins the distinct elements at the end; a repeated one changes
      nothing. */
  lemma DistinctSnoc<T>(s: seq<T>, x: T)
    ensures Distinct(s + [x]) == if x in s then Distinct(s) else Distinct(s) + [x]
  {
    assert (s + [x])[..|s|] == s;
  }

  predicate NoDuplicates<T(==)>(s: seq<T>) {
    forall i, j :: 0 <= i < j < |s| ==> s[i] != s[j]
  }

  // ---------------------------------------------------------------------------
  // Strings

  /** ECMAScript WhiteSpace and LineTerminator code points: what `trim()` removes and
      what `\s` matches in a regular expression. */
  predicate IsSpace(c: char) {
    c == '\t' || c == '\n' || c == '\U{000B}' || c == '\U{000C}' || c == '\r' || c == ' '
    || c == '\U{00A0}' || c == '\U{1680}' || ('\U{2000}' <= c <= '\U{200A}')
    || c == '\U{2028}' || c == '\U{2029}' || c == '\U{202F}' || c == '\U{205F}'
    || c == '\U{3000}' || c == '\U{FEFF}'
  }

  predicate AllSpace(s: string) {
    forall i :: 0 <= i < |s| ==> IsSpace(s[i])
  }

  predicate IsDigit(c: char) {
    '0' <= c <= '9'
  }

  function TrimStart(s: string): (r: string)
    ensures |r| <= |s| && r == s[|s| - |r|..]
    ensures r == [] || !IsSpace(r[0])
  {
    if s != [] && IsSpace(s[0]) then TrimStart(s[1..]) else s
  }

  /** `trimStart` removes blanks only. */
  lemma {:induction false} TrimStartDropsSpace(s: string)
    ensures AllSpace(s[..|s| - |TrimStart(s)|])
  {
    if s != [] && IsSpace(s[0]) {
      TrimStartDropsSpace(s[1..]);
      assert s[..|s| - |TrimStart(s)|] == [s[0]] + s[1..][..|s| - 1 - |TrimStart(s)|];
    }
  }

  function TrimEnd(s: string): (r: string)
    ensures |r| <= |s| && r == s[..|r|]
    ensures r == [] || !IsSpace(r[|r| - 1])
  {
    if s != [] && IsSpace(s[|s| - 1]) then TrimEnd(s[..|s| - 1]) else s
  }

  /** `trimEnd` removes blanks only. */
  lemma {:induction false} TrimEndDropsSpace(s: string)
    ensures AllSpace(s[|TrimEnd(s)|..])
  {
    if s != [] && IsSpace(s[|s| - 1]) {
      TrimEndDropsSpace(s[..|s| - 1]);
      assert s[|TrimEnd(s)|..] == s[..|s| - 1][|TrimEnd(s)|..] + [s[|s| - 1]];
    }
  }

  /** `String.prototype.trim`. */
  function Trim(s: string): string {
    TrimEnd(TrimStart(s))
  }

  /** A string that starts with a non-blank is left alone by `trimStart`. */
  lemma TrimStartClean(s: string)
    requires s == [] || !IsSpace(s[0])
    ensures TrimStart(s) == s
  {
  }

  lemma TrimEndClean(s: string)
    requires s == [] || !IsSpace(s[|s| - 1])
    ensures TrimEnd(s) == s
  {
  }

  /** Trimming keeps a non-blank first character. */
  lemma TrimKeepsHead(s: string)
    requires s != [] && !IsSpace(s[0])
    ensures Trim(s) != [] && Trim(s)[0] == s[0]
  {
    TrimStartClean(s);
    TrimEndDropsSpace(s);
    assert s[0..] == s;
  }

  lemma TrimEmptyIffAllSpace(s: string)
    ensures Trim(s) == [] <==> AllSpace(s)
  {
    var t := TrimStart(s);
    TrimStartDropsSpace(s);
    TrimEndDropsSpace(t);
    assert t != [] ==> t[0] == s[|s| - |t|];
    assert Trim(s) == [] ==> AllSpace(t[|Trim(s)|..]);
  }

  lemma {:induction false} TrimSpacePrefix(w: string, s: string)
    requires AllSpace(w)
    ensures Trim(w + s) == Trim(s)
  {
    assert TrimStart(w + s) == TrimStart(s) by {
      TrimStartSpacePrefix(w, s);
    }
  }

  /** A text with no blank at either end is its own trim. */
  lemma TrimClean(s: string)
    requires s != [] && !IsSpace(s[0]) && !IsSpace(s[|s| - 1])
    ensures Trim(s) == s
  {
    TrimStartClean(s);
    TrimEndClean(s);
  }

  /** Blanks before a text with no blank at either end are all that trimming removes. */
  lemma TrimPadded(w: string, s: string)
    requires AllSpace(w) && s != [] && !IsSpace(s[0]) && !IsSpace(s[|s| - 1])
    ensures Trim(w + s) == s
  {
    TrimSpacePrefix(w, s);
    TrimStartClean(s);
    TrimEndClean(s);
  }

  lemma {:induction false} TrimStartSpacePrefix(w: string, s: string)
    requires AllSpace(w)
    ensures TrimStart(w + s) == TrimStart(s)
    decreases |w|
  {
    if w != [] {
      assert (w + s)[1..] == w[1..] + s;
      TrimStartSpacePrefix(w[1..], s);
    } else {
      assert w + s == s;
    }
  }

  /** `s.indexOf(pat)`: the first position where `pat` occurs. */
  function IndexOf(s: string, pat: string): (r: Option<nat>)
    ensures r.Some? ==> r.value <= |s| && StartsWith(s[r.value..], pat)
    ensures r.Some? ==> forall j :: 0 <= j < r.value ==> !StartsWith(s[j..], pat)
    ensures r.None? ==> forall j :: 0 <= j <= |s| ==> !StartsWith(s[j..], pat)
  {
    if StartsWith(s, pat) then Some(0)
    else if s == [] then None
    else
      var r := IndexOf(s[1..], pat);
      assert forall j :: 1 <= j <= |s| ==> s[j..] == s[1..][j - 1..];
      if r.Some? then Some(r.value + 1) else None
  }

  /** A match with none before it is the one `indexOf` finds. */
  lemma IndexOfAt(s: string, pat: string, k: nat)
    requires k <= |s| && StartsWith(s[k..], pat)
    requires forall j :: 0 <= j < k ==> !StartsWith(s[j..], pat)
    ensures IndexOf(s, pat) == Some(k)
  {
  }

  function StartsWith(s: string, prefix: string): bool {
    |prefix| <= |s| && s[..|prefix|] == prefix
  }

  /** `.length` of a JavaScript string: UTF-16 code units, two for a code point
      outside the Basic Multilingual Plane (most emoji). */
  function Utf16Length(s: string): (n: nat)
    ensures |s| <= n <= 2 * |s|
  {
    if s == [] then 0 else Utf16Length(s[..|s| - 1]) + (if s[|s| - 1] as int >= 0x10000 then 2 else 1)
  }

  function DigitString(n: nat): (s: string)
    ensures |s| > 0 && forall i :: 0 <= i < |s| ==> IsDigit(s[i])
  {
    if n < 10 then [('0' as int + n) as char]
    else DigitString(n / 10) + [('0' as int + n % 10) as char]
  }

  /** `String(n)` for an integer. */
  function IntToString(n: int): string {
    if n < 0 then "-" + DigitString(-n) else DigitString(n)
  }

  // ---------------------------------------------------------------------------
  // Request bodies and the AI gateway

  /** A parsed JSON request body (`await req.json()`). */
  datatype Json =
    | JNull
    | JBool(b: bool)
    | JNum(n: real)
    | JStr(s: string)
    | JArr(items: seq<Json>)
    | JObj(fields: map<string, Json>)

  /** `input && typeof input === 'object'`: an object or an array, not null. */
  predicate IsObjectBody(j: Json) {
    j.JObj? || j.JArr?
  }

  /** A property read on a body that passed `IsObjectBody`; `None` is `undefined`
      (an array has none of the properties the handlers read). */
  function Field(j: Json, name: string): Option<Json> {
    if j.JObj? && name in j.fields then Some(j.fields[name]) else None
  }

  /** A property that holds a string (`typeof value === 'string'`). */
  function StringField(j: Json, name: string): (r: Option<string>)
    ensures r.Some? <==> Field(j, name).Some? && Field(j, name).value.JStr?
  {
    match Field(j, name)
    case Some(JStr(s)) => Some(s)
    case _ => None
  }

  /** JavaScript falsiness of a property value (`!value`). */
  predicate Falsy(v: Option<Json>) {
    match v
    case None => true
    case Some(JNull) => true
    case Some(JBool(b)) => !b
    case Some(JNum(n)) => n == 0.0
    case Some(JStr(s)) => s == []
    case Some(_) => false
  }

  /** The reply of the AI chat-completions gateway: its HTTP status and
      `choices[0].message.content` when that is a string. */
  datatype AiReply = AiReply(status: int, content: Option<string>)

  /** `response.ok`. */
  predicate ReplyOk(r: AiReply) {
    200 <= r.status <= 299
  }

  /** The status a handler answers with when the gateway reply is not OK: 429 and 402
      are passed through, anything else becomes `otherwise`. */
  function GatewayFailureStatus(status: int, otherwise: int): (r: int)
    ensures r in {429, 402, otherwise}
    ensures (status == 429 || status == 402) ==> r == status
    ensures status != 429 && status != 402 ==> r == otherwise
  {
    if status == 429 then 429 else if status == 402 then 402 else otherwise
  }
}
