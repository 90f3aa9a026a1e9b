/** Ordering of day numbers. The pages sort `entry_date` values before scanning them:
    `Array.prototype.sort` on `yyyy-MM-dd` strings (whose lexicographic order is the
    calendar order for four-digit years) or with a comparator on parsed dates. Both give
    the unique ascending (or descending) arrangement of the same days. */
module Sorting {

  predicate Ascending(s: seq<int>) {
    forall i, j :: 0 <= i < j < |s| ==> s[i] <= s[j]
  }

  predicate Descending(s: seq<int>) {
    forall i, j :: 0 <= i < j < |s| ==> s[i] >= s[j]
  }

  function Insert(x: int, s: seq<int>): (r: seq<int>)
    requires Ascending(s)
    ensures Ascending(r)
    ensures multiset(r) == multiset(s) + multiset{x}
    ensures |r| == |s| + 1
  {
    if s == [] || x <= s[0] then
      ConsAscending(x, s);
      [x] + s
    else
      var t := Insert(x, s[1..]);
      assert s == [s[0]] + s[1..];
      HeadBelowRest(x, s);
      LowerBound(s[0], s[1..] + [x], t);
      ConsAscending(s[0], t);
      [s[0]] + t
  }

  lemma HeadBelowRest(x: int, s: seq<int>)
    requires Ascending(s) && s != [] && s[0] < x
    ensures forall k :: 0 <= k < |s[1..] + [x]| ==> s[0] <= (s[1..] + [x])[k]
  {
  }

  lemma ConsAscending(h: int, t: seq<int>)
    requires Ascending(t)
    requires forall k :: 0 <= k < |t| ==> h <= t[k]
    ensures Ascending([h] + t)
  {
  }

  lemma LowerBound(b: int, s: seq<int>, t: seq<int>)
    requires forall k :: 0 <= k < |s| ==> b <= s[k]
    requires multiset(t) == multiset(s)
    ensures forall k :: 0 <= k < |t| ==> b <= t[k]
  {
    forall k | 0 <= k < |t| ensures b <= t[k] {
      assert t[k] in multiset(t);
      assert t[k] in s;
    }
  }

  /** The days in ascending order (insertion sort). */
  function SortAsc(s: seq<int>): (r: seq<int>)
    ensures Ascending(r)
    ensures multiset(r) == multiset(s)
    ensures |r| == |s|
  {
    if s == [] then []
    else
      assert s == [s[0]] + s[1..];
      Insert(s[0], SortAsc(s[1..]))
  }

  function Reverse(s: seq<int>): (r: seq<int>)
    ensures |r| == |s|
    ensures forall i :: 0 <= i < |s| ==> r[i] == s[|s| - 1 - i]
  {
    if s == [] then [] else Reverse(s[1..]) + [s[0]]
  }

  /** The days in descending order: newest first. */
  function SortDesc(s: seq<int>): (r: seq<int>)
    ensures Descending(r)
    ensures multiset(r) == multiset(s)
    ensures |r| == |s|
  {
    var a := SortAsc(s);
    var r := Reverse(a);
    assert r == Reverse(a);
    ReverseMultiset(a);
    r
  }

  lemma {:induction false} ReverseMultiset(s: seq<int>)
    ensures multiset(Reverse(s)) == multiset(s)
  {
    if s != [] {
      ReverseMultiset(s[1..]);
      assert s == [s[0]] + s[1..];
    }
  }

  /** Sorting days that are already ascending leaves them as they are. */
  lemma {:induction false} SortAscFixesAscending(s: seq<int>)
    requires Ascending(s)
    ensures SortAsc(s) == s
  {
    if s != [] {
      var t := s[1..];
      assert Ascending(t);
      SortAscFixesAscending(t);
      assert s == [s[0]] + t;
      assert Insert(s[0], t) == s;
    }
  }

  /** Two ascending arrangements of the same days are the same sequence. */
  lemma {:induction false} AscendingUnique(a: seq<int>, b: seq<int>)
    requires Ascending(a) && Ascending(b) && multiset(a) == multiset(b)
    ensures a == b
  {
    assert |a| == |multiset(a)| == |multiset(b)| == |b|;
    if a != [] {
      HeadIsLeast(a, b[0]);
      HeadIsLeast(b, a[0]);
      SameTails(a, b);
      AscendingTail(a);
      AscendingTail(b);
      AscendingUnique(a[1..], b[1..]);
      SameHeadAndTail(a, b);
    }
  }

  lemma SameTails(a: seq<int>, b: seq<int>)
    requires a != [] && b != [] && a[0] == b[0] && multiset(a) == multiset(b)
    ensures multiset(a[1..]) == multiset(b[1..])
  {
    TailMultiset(a);
    TailMultiset(b);
  }

  lemma SameHeadAndTail(a: seq<int>, b: seq<int>)
    requires a != [] && b != [] && a[0] == b[0] && a[1..] == b[1..]
    ensures a == b
  {
    assert a == [a[0]] + a[1..] && b == [b[0]] + b[1..];
  }

  lemma HeadIsLeast(a: seq<int>, x: int)
    requires Ascending(a) && x in multiset(a)
    ensures a != [] && a[0] <= x
  {
    assert x in a;
    var k :| 0 <= k < |a| && a[k] == x;
  }

  lemma TailMultiset(a: seq<int>)
    requires a != []
    ensures multiset(a[1..]) == multiset(a) - multiset{a[0]}
  {
    assert a == [a[0]] + a[1..];
  }

  lemma AscendingTail(a: seq<int>)
    requires a != [] && Ascending(a)
    ensures Ascending(a[1..])
  {
  }

  /** Sorting days that are already newest first leaves them as they are. */
  lemma SortDescFixesDescending(s: seq<int>)
    requires Descending(s)
    ensures SortDesc(s) == s
  {
    var r := Reverse(s);
    assert Ascending(r);
    ReverseMultiset(s);
    AscendingUnique(SortAsc(s), r);
    ReverseReverse(s);
  }

  lemma ReverseReverse(s: seq<int>)
    ensures Reverse(Reverse(s)) == s
  {
  }
}
