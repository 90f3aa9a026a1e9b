/** Tag frequencies, shared by the insights page and the monthly reflection: the
    `themeCounts` object filled tag by tag, and its entries ranked by count (a stable
    sort, descending) and cut to the top five. */
module Themes {
  import opened Common

  /** Every tag of every entry, in entry order. */
  function AllTags(es: seq<Entry>): seq<string> {
    if es == [] then [] else AllTags(es[..|es| - 1]) + TagsOf(es[|es| - 1])
  }

  /** One `[tag, count]` pair of `Object.entries(themeCounts)`. */
  datatype ThemeCount = ThemeCount(tag: string, count: nat)

  /** The pairs of `themeCounts`, keys in insertion (first-occurrence) order. */
  predicate IsThemeTable(themes: seq<ThemeCount>, tags: seq<string>) {
    |themes| == |Distinct(tags)|
    && (forall i :: 0 <= i < |themes| ==> themes[i].tag == Distinct(tags)[i])
    && (forall i :: 0 <= i < |themes| ==> themes[i].count == Count(tags, themes[i].tag))
  }

  /** `counts` holds exactly the tags of `seen`, each with its number of occurrences. */
  ghost predicate Tallies(counts: map<string, nat>, seen: seq<string>) {
    (forall t :: t in counts <==> t in seen)
    && (forall t :: t in counts ==> counts[t] == Count(seen, t))
  }

  /** The table itself: one pair per distinct tag, in first-occurrence order. */
  function ThemeTable(tags: seq<string>): (r: seq<ThemeCount>)
    ensures IsThemeTable(r, tags)
  {
    var d := Distinct(tags);
    seq(|d|, i requires 0 <= i < |d| => ThemeCount(d[i], Count(tags, d[i])))
  }

  /** One more occurrence of `tag`: its tally goes up by one, or starts at 1. */
  lemma TallyStep(counts: map<string, nat>, seen: seq<string>, tag: string)
    requires Tallies(counts, seen)
    ensures tag in counts ==> Tallies(counts[tag := counts[tag] + 1], seen + [tag])
    ensures tag !in counts ==> Tallies(counts[tag := 1], seen + [tag])
  {
    var next := seen + [tag];
    assert next[..|seen|] == seen;
    assert forall t :: Count(next, t) == Count(seen, t) + (if t == tag then 1 else 0);
    assert forall t :: t in next <==> t in seen || t == tag;
    var after := if tag in counts then counts[tag := counts[tag] + 1] else counts[tag := 1];
    assert forall t :: t in after <==> t in counts || t == tag;
    forall t | t in after ensures after[t] == Count(next, t) {
      if t != tag {
        assert after[t] == counts[t];
      } else if tag !in counts {
        CountPositive(seen, tag);
      }
    }
  }

  lemma AllTagsSnoc(es: seq<Entry>, i: nat)
    requires i < |es|
    ensures AllTags(es[..i + 1]) == AllTags(es[..i]) + TagsOf(es[i])
  {
    assert es[..i + 1][..i] == es[..i];
  }

  /** `themeCounts` after the tags `seen`, one increment at a time. */
  ghost function TallyMap(seen: seq<string>): map<string, nat> {
    if seen == [] then map[]
    else
      var m := TallyMap(seen[..|seen| - 1]);
      var t := seen[|seen| - 1];
      m[t := (if t in m then m[t] else 0) + 1]
  }

  /** The map built increment by increment holds every tag seen with its number of
      occurrences, and nothing else. */
  lemma {:induction false} TallyMapCounts(seen: seq<string>)
    ensures Tallies(TallyMap(seen), seen)
  {
    if seen != [] {
      var init := seen[..|seen| - 1];
      TallyMapCounts(init);
      TallyStep(TallyMap(init), init, seen[|seen| - 1]);
      assert init + [seen[|seen| - 1]] == seen;
    }
  }

  /** The state of `themeCounts` after the tags `seen`: its keys in insertion order
      and its values. */
  ghost predicate Filled(keys: seq<string>, counts: map<string, nat>, seen: seq<string>) {
    keys == Distinct(seen) && counts == TallyMap(seen)
  }

  /** `themeCounts[tag] = (themeCounts[tag] || 0) + 1`, on the keys and the values. */
  lemma FilledStep(keys: seq<string>, counts: map<string, nat>, seen: seq<string>, tag: string)
    requires Filled(keys, counts, seen)
    ensures tag in counts ==> Filled(keys, counts[tag := counts[tag] + 1], seen + [tag])
    ensures tag !in counts ==> Filled(keys + [tag], counts[tag := 1], seen + [tag])
  {
    TallyMapSnoc(seen, tag);
    TallyKeys(seen, tag);
    DistinctSnoc(seen, tag);
  }

  lemma TallyMapSnoc(seen: seq<string>, tag: string)
    ensures var m := TallyMap(seen);
      TallyMap(seen + [tag]) == m[tag := (if tag in m then m[tag] else 0) + 1]
  {
    assert (seen + [tag])[..|seen|] == seen;
  }

  lemma TallyKeys(seen: seq<string>, tag: string)
    ensures tag in TallyMap(seen) <==> tag in seen
  {
    TallyMapCounts(seen);
  }

  /** `Object.entries(themeCounts)`. */
  function Pairs(keys: seq<string>, counts: map<string, nat>): (r: seq<ThemeCount>)
    requires forall k :: 0 <= k < |keys| ==> keys[k] in counts
    ensures |r| == |keys|
    ensures forall m :: 0 <= m < |r| ==> r[m] == ThemeCount(keys[m], counts[keys[m]])
  {
    seq(|keys|, m requires 0 <= m < |keys| => ThemeCount(keys[m], counts[keys[m]]))
  }

  /** The `forEach` loops filling `themeCounts`: each tag occurrence adds one to its
      key, creating the key at 1 the first time. */
  method CountThemes(entries: seq<Entry>) returns (themes: seq<ThemeCount>)
    ensures themes == ThemeTable(AllTags(entries))
  {
    var keys: seq<string> := [];
    var counts: map<string, nat> := map[];
    var i := 0;
    while i < |entries|
      invariant 0 <= i <= |entries|
      invariant Filled(keys, counts, AllTags(entries[..i]))
    {
      keys, counts := CountTags(keys, counts, AllTags(entries[..i]), TagsOf(entries[i]));
      AllTagsSnoc(entries, i);
      i := i + 1;
    }
    assert entries[..i] == entries;
    FilledTable(keys, counts, AllTags(entries));
    themes := Pairs(keys, counts);
  }

  /** The inner `forEach`: the tags of one entry added to the keys and values filled
      from `seen`. */
  method CountTags(keys: seq<string>, counts: map<string, nat>, ghost seen: seq<string>, tags: seq<string>)
    returns (keys': seq<string>, counts': map<string, nat>)
    requires Filled(keys, counts, seen)
    ensures Filled(keys', counts', seen + tags)
  {
    keys', counts' := keys, counts;
    var j := 0;
    assert seen + tags[..0] == seen;
    while j < |tags|
      invariant 0 <= j <= |tags|
      invariant Filled(keys', counts', seen + tags[..j])
    {
      var tag := tags[j];
      SnocPrefix(seen, tags, j);
      FilledStep(keys', counts', seen + tags[..j], tag);
      if tag in counts' {
        counts' := counts'[tag := counts'[tag] + 1];
      } else {
        keys' := keys' + [tag];
        counts' := counts'[tag := 1];
      }
      j := j + 1;
    }
    assert tags[..j] == tags;
  }

  lemma SnocPrefix(seen: seq<string>, tags: seq<string>, j: nat)
    requires j < |tags|
    ensures seen + tags[..j + 1] == (seen + tags[..j]) + [tags[j]]
  {
    assert tags[..j + 1] == tags[..j] + [tags[j]];
  }

  /** Filled keys and values read back as the table of the tags seen. */
  lemma FilledTable(keys: seq<string>, counts: map<string, nat>, seen: seq<string>)
    requires Filled(keys, counts, seen)
    ensures forall k :: 0 <= k < |keys| ==> keys[k] in counts
    ensures Pairs(keys, counts) == ThemeTable(seen)
  {
    TallyMapCounts(seen);
    assert forall k :: 0 <= k < |keys| ==> keys[k] in seen;
  }

  /** Every tag that occurs has a row in the table, and every row is a tag that occurs. */
  lemma ThemeTableCoversTags(themes: seq<ThemeCount>, tags: seq<string>, t: string)
    requires IsThemeTable(themes, tags)
    ensures t in tags <==> exists i :: 0 <= i < |themes| && themes[i].tag == t
  {
    var d := Distinct(tags);
    if t in tags {
      var k :| 0 <= k < |tags| && tags[k] == t;
      assert t in d;
      var i :| 0 <= i < |d| && d[i] == t;
      assert themes[i].tag == t;
    }
  }

  // ---------------------------------------------------------------------------
  // Ranking

  predicate ByCountDesc(s: seq<ThemeCount>) {
    forall i, j :: 0 <= i < j < |s| ==> s[i].count >= s[j].count
  }

  /** The pairs with count `c`, in order. */
  function WithCount(s: seq<ThemeCount>, c: nat): seq<ThemeCount> {
    if s == [] then []
    else (if s[0].count == c then [s[0]] else []) + WithCount(s[1..], c)
  }

  /** Insert `x` before the first pair whose count is not larger: `x` came first, so
      it stays ahead of pairs with the same count. */
  function InsertByCount(x: ThemeCount, s: seq<ThemeCount>): (r: seq<ThemeCount>)
    requires ByCountDesc(s)
    ensures ByCountDesc(r)
    ensures multiset(r) == multiset(s) + multiset{x}
    ensures |r| == |s| + 1
    ensures r[0] == x || (s != [] && r[0] == s[0])
  {
    if s == [] || x.count >= s[0].count then
      HeadBounds(x, s);
      [x] + s
    else
      DescTail(s);
      var t := InsertByCount(x, s[1..]);
      assert s == [s[0]] + s[1..];
      assert |s| > 1 ==> s[1].count <= s[0].count;
      HeadBounds(s[0], t);
      [s[0]] + t
  }

  /** A descending sequence under a head no smaller than its own head stays descending. */
  lemma HeadBounds(h: ThemeCount, t: seq<ThemeCount>)
    requires ByCountDesc(t)
    requires t != [] ==> t[0].count <= h.count
    ensures ByCountDesc([h] + t)
  {
    var r := [h] + t;
    forall i, j | 0 <= i < j < |r| ensures r[i].count >= r[j].count {
      if i > 0 {
        assert r[i] == t[i - 1] && r[j] == t[j - 1];
      } else {
        assert r[j] == t[j - 1];
      }
    }
  }

  /** The stable descending sort by count (`sort(([, a], [, b]) => b - a)`). */
  function RankByCount(s: seq<ThemeCount>): (r: seq<ThemeCount>)
    ensures ByCountDesc(r)
    ensures multiset(r) == multiset(s)
    ensures |r| == |s|
  {
    if s == [] then []
    else
      assert s == [s[0]] + s[1..];
      InsertByCount(s[0], RankByCount(s[1..]))
  }

  lemma {:induction false} InsertKeepsTies(x: ThemeCount, s: seq<ThemeCount>, c: nat)
    requires ByCountDesc(s)
    ensures WithCount(InsertByCount(x, s), c) == (if x.count == c then [x] else []) + WithCount(s, c)
  {
    if s == [] || x.count >= s[0].count {
      WithCountCons(x, s, c);
    } else {
      DescTail(s);
      var t := InsertByCount(x, s[1..]);
      var a := if s[0].count == c then [s[0]] else [];
      var b := if x.count == c then [x] else [];
      var w := WithCount(s[1..], c);
      calc {
        WithCount(InsertByCount(x, s), c);
        { assert InsertByCount(x, s) == [s[0]] + t; }
        WithCount([s[0]] + t, c);
        { WithCountCons(s[0], t, c); }
        a + WithCount(t, c);
        { InsertKeepsTies(x, s[1..], c); }
        a + (b + w);
        { assert a == [] || b == []; }
        b + (a + w);
        { assert s == [s[0]] + s[1..]; WithCountCons(s[0], s[1..], c); }
        b + WithCount(s, c);
      }
    }
  }

  lemma DescTail(s: seq<ThemeCount>)
    requires ByCountDesc(s) && s != []
    ensures ByCountDesc(s[1..])
  {
    var t := s[1..];
    forall i, j | 0 <= i < j < |t| ensures t[i].count >= t[j].count {
      assert t[i] == s[i + 1] && t[j] == s[j + 1];
    }
  }

  lemma WithCountCons(h: ThemeCount, t: seq<ThemeCount>, c: nat)
    ensures WithCount([h] + t, c) == (if h.count == c then [h] else []) + WithCount(t, c)
  {
    assert ([h] + t)[1..] == t;
  }

  /** Stability: pairs with equal counts keep their relative order. */
  lemma {:induction false} RankKeepsTies(s: seq<ThemeCount>, c: nat)
    ensures WithCount(RankByCount(s), c) == WithCount(s, c)
  {
    if s != [] {
      RankKeepsTies(s[1..], c);
      InsertKeepsTies(s[0], RankByCount(s[1..]), c);
    }
  }

  /** `topThemes`: the ranked pairs cut to at most five. */
  function TopThemes(themes: seq<ThemeCount>): (top: seq<ThemeCount>)
    ensures |top| == if |themes| < 5 then |themes| else 5
    ensures ByCountDesc(top)
    ensures forall i :: 0 <= i < |top| ==> top[i] in themes
  {
    var r := RankByCount(themes);
    var n := if |r| < 5 then |r| else 5;
    PrefixFromRanking(themes, n);
    r[..n]
  }

  lemma PrefixFromRanking(themes: seq<ThemeCount>, n: nat)
    requires n <= |themes|
    ensures ByCountDesc(RankByCount(themes)[..n])
    ensures forall i :: 0 <= i < n ==> RankByCount(themes)[i] in themes
  {
    var r := RankByCount(themes);
    forall i | 0 <= i < n ensures r[i] in themes {
      assert r[i] in multiset(r);
    }
  }

  /** Nothing left out of the top five has a larger count than any pair in it. */
  lemma TopThemesAreTop(themes: seq<ThemeCount>, x: ThemeCount)
    requires x in themes && x !in TopThemes(themes)
    ensures forall i :: 0 <= i < |TopThemes(themes)| ==> x.count <= TopThemes(themes)[i].count
  {
    var r := RankByCount(themes);
    var top := TopThemes(themes);
    assert x in multiset(themes);
    assert x in multiset(r);
    var k :| 0 <= k < |r| && r[k] == x;
    assert top == r[..|top|];
    assert k >= |top|;
  }

  /** `strongestTheme`: the head of the top themes, `undefined` without tags. */
  function StrongestTheme(themes: seq<ThemeCount>): (r: Option<ThemeCount>)
    ensures r.None? <==> themes == []
    ensures r.Some? ==> r.value in themes && forall i :: 0 <= i < |themes| ==> themes[i].count <= r.value.count
  {
    var top := TopThemes(themes);
    if top == [] then None
    else
      HeadIsMax(themes);
      Some(top[0])
  }

  lemma HeadIsMax(themes: seq<ThemeCount>)
    requires themes != []
    ensures forall i :: 0 <= i < |themes| ==> themes[i].count <= RankByCount(themes)[0].count
  {
    var r := RankByCount(themes);
    forall i | 0 <= i < |themes| ensures themes[i].count <= r[0].count {
      assert themes[i] in multiset(r);
      var k :| 0 <= k < |r| && r[k] == themes[i];
    }
  }
}
