/** The `generate-life-insight` edge function: the gates in front of the AI call, the
    mood statistics of the last thirty days (average and trend), and the mood labels
    of the prompt. */
module LifeInsight {
  import opened Common

  // ---------------------------------------------------------------------------
  // Mood statistics

  /** `moodEntries.map(e => e.mood_score || 0)`: the moods of the rows whose mood is not
      null, newest first as the rows come. */
  function MoodValues(es: seq<Entry>): (r: seq<int>)
    ensures |r| <= |es|
  {
    if es == [] then []
    else (if es[0].mood.Some? then [es[0].mood.value] else []) + MoodValues(es[1..])
  }

  /** The number of rows with a mood is the number of values. */
  lemma {:induction false} MoodValuesCount(es: seq<Entry>)
    ensures |MoodValues(es)| == 0 <==> forall i :: 0 <= i < |es| ==> es[i].mood.None?
  {
    if es != [] {
      MoodValuesCount(es[1..]);
      assert forall i :: 1 <= i < |es| ==> es[i] == es[1..][i - 1];
    }
  }

  function Sum(s: seq<int>): int {
    if s == [] then 0 else s[0] + Sum(s[1..])
  }

  lemma {:induction false} SumAppend(a: seq<int>, b: seq<int>)
    ensures Sum(a + b) == Sum(a) + Sum(b)
  {
    if a == [] {
      assert a + b == b;
    } else {
      assert (a + b)[1..] == a[1..] + b;
      SumAppend(a[1..], b);
    }
  }

  function Mean(s: seq<int>): real
    requires s != []
  {
    Sum(s) as real / |s| as real
  }

  /** `avgMood`: absent exactly when no row has a mood (a stored 0 counts as a mood). */
  function AvgMood(es: seq<Entry>): (r: Option<real>)
    ensures r.None? <==> forall i :: 0 <= i < |es| ==> es[i].mood.None?
    ensures r.Some? ==> r.value * |MoodValues(es)| as real == Sum(MoodValues(es)) as real
  {
    MoodValuesCount(es);
    var ms := MoodValues(es);
    if ms == [] then None else Some(Mean(ms))
  }

  /** `Math.ceil(n / 2)`. */
  function Half(n: nat): (h: nat)
    ensures 2 * h == n || 2 * h == n + 1
  {
    (n + 1) / 2
  }

  /** `moodTrend`: with three or more moods, the newest ⌈n/2⌉ are compared with the rest. */
  function Trend(moods: seq<int>): (t: string)
    ensures t in {"improving", "declining", "stable"}
    ensures |moods| < 3 ==> t == "stable"
  {
    if |moods| < 3 then "stable"
    else
      var h := Half(|moods|);
      var recentAvg := Mean(moods[..h]);
      var olderAvg := Mean(moods[h..]);
      if recentAvg > olderAvg + 0.5 then "improving"
      else if recentAvg < olderAvg - 0.5 then "declining"
      else "stable"
  }

  /** The trend in whole numbers: with `r` recent and `o` older moods summing to `R`
      and `O`, "improving" iff `2Ro > 2Or + ro`, "declining" iff `2Ro < 2Or - ro`. */
  lemma TrendByCrossMultiplication(moods: seq<int>)
    requires |moods| >= 3
    ensures var h := Half(|moods|); var r := h; var o := |moods| - h;
      var R := Sum(moods[..h]); var O := Sum(moods[h..]);
      r >= 2 && o >= 1
      && (Trend(moods) == "improving" <==> 2 * R * o > 2 * O * r + r * o)
      && (Trend(moods) == "declining" <==> 2 * R * o < 2 * O * r - r * o)
  {
    var h := Half(|moods|);
    var r, o := h, |moods| - h;
    var R, O := Sum(moods[..h]), Sum(moods[h..]);
    CompareMeans(R, r, O, o);
  }

  /** `R/r > O/o + 1/2` and `R/r < O/o - 1/2`, multiplied out by `2ro > 0`. */
  lemma CompareMeans(R: int, r: int, O: int, o: int)
    requires r > 0 && o > 0
    ensures R as real / r as real > O as real / o as real + 0.5 <==> 2 * R * o > 2 * O * r + r * o
    ensures R as real / r as real < O as real / o as real - 0.5 <==> 2 * R * o < 2 * O * r - r * o
  {
    var a := R as real / r as real;
    var b := O as real / o as real;
    var k := (2 * r * o) as real;
    var X, Y, Z := 2 * R * o, 2 * O * r, r * o;
    ScaleMean(R, r, 2 * o);
    ScaleMean(O, o, 2 * r);
    assert r * (2 * o) == 2 * r * o && o * (2 * r) == 2 * r * o;
    assert R * (2 * o) == X && O * (2 * r) == Y;
    HalfOf(r * o);
    assert 2 * (r * o) == 2 * r * o;
    CompareScaled(a, b, k, X as real, Y as real, Z as real);
  }

  /** Comparing two values is comparing them scaled by the same positive factor. */
  lemma CompareScaled(a: real, b: real, k: real, X: real, Y: real, Z: real)
    requires k > 0.0 && a * k == X && b * k == Y && 0.5 * k == Z
    ensures a > b + 0.5 <==> X > Y + Z
    ensures a < b - 0.5 <==> X < Y - Z
  {
    var p, q := a - b - 0.5, a - b + 0.5;
    Distribute(a, b, 0.5, k);
    Distribute(a, b, -0.5, k);
    assert -0.5 * k == -Z;
    assert p * k == X - Y - Z;
    assert q == a - b - -0.5;
    assert q * k == X - Y + Z;
    SignOfProduct(p, k);
    SignOfProduct(q, k);
  }

  lemma ScaleMean(S: int, n: int, m: int)
    requires n > 0
    ensures (S as real / n as real) * (n * m) as real == (S * m) as real
  {
    var a := S as real / n as real;
    assert a * n as real == S as real;
    assert (n * m) as real == n as real * m as real;
    assert (S * m) as real == S as real * m as real;
    assert a * (n as real * m as real) == (a * n as real) * m as real;
  }

  lemma HalfOf(p: int)
    ensures 0.5 * (2 * p) as real == p as real
  {
  }

  lemma Distribute(a: real, b: real, c: real, k: real)
    ensures (a - b - c) * k == a * k - b * k - c * k
  {
  }

  lemma SignOfProduct(x: real, k: real)
    requires k > 0.0
    ensures x > 0.0 <==> x * k > 0.0
    ensures x < 0.0 <==> x * k < 0.0
  {
  }

  /** Steady moods are stable: equal moods throughout never show a trend. */
  lemma ConstantMoodsAreStable(moods: seq<int>, m: int)
    requires forall i :: 0 <= i < |moods| ==> moods[i] == m
    ensures Trend(moods) == "stable"
  {
    if |moods| >= 3 {
      var h := Half(|moods|);
      ConstantSum(moods[..h], m);
      ConstantSum(moods[h..], m);
      TrendByCrossMultiplication(moods);
    }
  }

  lemma {:induction false} ConstantSum(s: seq<int>, m: int)
    requires forall i :: 0 <= i < |s| ==> s[i] == m
    ensures Sum(s) == m * |s|
  {
    if s != [] {
      ConstantSum(s[1..], m);
    }
  }

  /** The mood label of a row in the prompt. */
  function MoodLabel(m: Option<int>): (l: string)
    ensures l == "not tracked" <==> !(m.Some? && 1 <= m.value <= 5)
  {
    if m == Some(1) then "rough/struggling"
    else if m == Some(2) then "meh/low"
    else if m == Some(3) then "okay/neutral"
    else if m == Some(4) then "good/positive"
    else if m == Some(5) then "great/joyful"
    else "not tracked"
  }

  /** The five tracked moods get five different labels. */
  lemma MoodLabelsDistinct(a: int, b: int)
    requires 1 <= a <= 5 && 1 <= b <= 5 && a != b
    ensures MoodLabel(Some(a)) != MoodLabel(Some(b))
  {
  }

  // ---------------------------------------------------------------------------
  // The handler

  /** The mood statistics in the prompt, when any row has a mood. */
  datatype MoodStats = MoodStats(avg: real, trend: string, tracked: nat)

  function MoodContext(es: seq<Entry>): (r: Option<MoodStats>)
    ensures r.None? <==> forall i :: 0 <= i < |es| ==> es[i].mood.None?
    ensures r.Some? ==> r.value.tracked == |MoodValues(es)| && r.value.trend == Trend(MoodValues(es))
  {
    match AvgMood(es)
    case None => None
    case Some(a) => Some(MoodStats(a, Trend(MoodValues(es)), |MoodValues(es)|))
  }

  datatype InsightReply = Failure(status: int, error: string) | NoInsight | Insight(text: string)

  /** A reply and whether the AI gateway was called. */
  datatype Handled = Handled(reply: InsightReply, aiCalled: bool)

  /** The request handler. `authorization` is the header, `apiKey` and `database` whether
      the environment is configured, `userFound` the outcome of the token lookup, `body`
      the parsed JSON (`None` when it does not parse), `rows` what the thirty-day query
      returns, and `ai` the gateway's reply. */
  function GenerateLifeInsight(authorization: Option<string>, apiKey: bool, database: bool, userFound: bool,
                               body: Option<Json>, rows: Result<seq<Entry>, string>, ai: AiReply): (h: Handled)
    ensures authorization.None? ==> h == Handled(Failure(401, "Unauthorized"), false)
    ensures authorization.Some? && apiKey && database && !userFound ==> h == Handled(Failure(401, "Unauthorized"), false)
    ensures authorization.Some? && apiKey && database && userFound && body.Some? && !IsObjectBody(body.value)
      ==> h == Handled(Failure(400, "Invalid request body"), false)
    ensures h.aiCalled <==> (authorization.Some? && apiKey && database && userFound && body.Some?
      && IsObjectBody(body.value) && rows.Ok? && rows.value != [])
    ensures h.reply == NoInsight <==> (authorization.Some? && apiKey && database && userFound && body.Some?
      && IsObjectBody(body.value) && rows == Ok([]))
    ensures h.aiCalled && !ReplyOk(ai) ==> h.reply.Failure? && h.reply.status == GatewayFailureStatus(ai.status, 500)
    ensures h.reply.Insight? <==> h.aiCalled && ReplyOk(ai) && ai.content.Some?
    ensures h.reply.Insight? ==> h.reply.text == Trim(ai.content.value)
  {
    if authorization.None? then Handled(Failure(401, "Unauthorized"), false)
    else if !apiKey then Handled(Failure(500, "AI service not configured"), false)
    else if !database then Handled(Failure(500, "Database not configured"), false)
    else if !userFound then Handled(Failure(401, "Unauthorized"), false)
    else if body.None? then Handled(Failure(500, "Unexpected end of JSON input"), false)
    else if !IsObjectBody(body.value) then Handled(Failure(400, "Invalid request body"), false)
    else if rows.Err? then Handled(Failure(500, "Failed to fetch entries"), false)
    else if rows.value == [] then Handled(NoInsight, false)
    else AfterGateway(ai)
  }

  /** Once the gateway is called: its failures, a reply without content, or the
      trimmed insight. */
  function AfterGateway(ai: AiReply): (h: Handled)
    ensures h.aiCalled && h.reply != NoInsight
    ensures !ReplyOk(ai) ==> h.reply.Failure? && h.reply.status == GatewayFailureStatus(ai.status, 500)
    ensures h.reply.Insight? <==> ReplyOk(ai) && ai.content.Some?
    ensures h.reply.Insight? ==> h.reply.text == Trim(ai.content.value)
  {
    if !ReplyOk(ai) then
      if ai.status == 429 then Handled(Failure(429, "Rate limit exceeded. Please try again in a moment."), true)
      else if ai.status == 402 then Handled(Failure(402, "AI service unavailable. Please try again later."), true)
      else Handled(Failure(500, "AI gateway returned " + IntToString(ai.status)), true)
    else if ai.content.None? then Handled(Failure(500, "Cannot read properties of undefined (reading 'trim')"), true)
    else Handled(Insight(Trim(ai.content.value)), true)
  }
}
