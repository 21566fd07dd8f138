/** The pandas Series aggregates the statistics use, over plain sequences:
    `mode`, `value_counts`, `sum`, `min`, `max`, and the dropping of
    missing values those aggregates perform first. */
module Frequencies {
  import opened Wrappers
  import opened Orders

  /** How many times `x` occurs in `s`. */
  function Occurrences<T(==,!new)>(s: seq<T>, x: T): nat {
    multiset(s)[x]
  }

  /** `m` is a most frequent value of `s`. */
  predicate IsMostFrequent<T(==,!new)>(s: seq<T>, m: T) {
    m in s && forall x :: x in s ==> Occurrences(s, x) <= Occurrences(s, m)
  }

  /** The largest number of occurrences in `s` of a value of `c`: a fold
      over the candidates, 0 when there are none. */
  function MaxCountOver<T(==,!new)>(s: seq<T>, c: seq<T>): (r: nat)
    ensures forall x :: x in c ==> Occurrences(s, x) <= r
    ensures |c| > 0 ==> exists i :: 0 <= i < |c| && Occurrences(s, c[i]) == r
  {
    if |c| == 0 then 0
    else
      var m := MaxCountOver(s, c[1..]);
      assert forall x :: x in c ==> x == c[0] || x in c[1..];
      if |c| > 1 && Occurrences(s, c[0]) < m then
        var i :| 0 <= i < |c[1..]| && Occurrences(s, c[1..][i]) == m;
        assert c[i + 1] == c[1..][i];
        m
      else
        Occurrences(s, c[0])
  }

  /** How often the most frequent value of `s` occurs; 0 for an empty `s`. */
  function MaxCount<T(==,!new)>(s: seq<T>): nat {
    MaxCountOver(s, s)
  }

  /** All most frequent values of `s`: what `Series.mode()` returns, as a set
      (pandas lists the same values in ascending order). They are the values
      reaching the highest count, and there is one unless `s` is empty. */
  function ModeSet<T(==,!new)>(s: seq<T>): (r: set<T>)
    ensures forall x :: x in r <==> x in s && Occurrences(s, x) == MaxCount(s)
    ensures |s| > 0 ==> r != {}
  {
    var r := set x | x in s && IsMostFrequent(s, x);
    if |s| > 0 then
      var i :| 0 <= i < |s| && Occurrences(s, s[i]) == MaxCount(s);
      assert s[i] in r;
      r
    else
      r
  }

  /** The value of `c` that is most frequent in `s`, the `lt`-least one among
      equally frequent candidates. */
  function Favourite<T(==,!new)>(s: seq<T>, c: seq<T>, lt: (T, T) -> bool): (r: T)
    requires |c| > 0
    requires StrictTotalOrder(lt)
    ensures r in c
    ensures forall x :: x in c ==> Occurrences(s, x) <= Occurrences(s, r)
    ensures forall x :: x in c && x != r && Occurrences(s, x) == Occurrences(s, r) ==> lt(r, x)
  {
    if |c| == 1 then
      c[0]
    else
      var b := Favourite(s, c[1..], lt);
      assert forall x :: x in c ==> x == c[0] || x in c[1..];
      if Occurrences(s, c[0]) > Occurrences(s, b) || (Occurrences(s, c[0]) == Occurrences(s, b) && lt(c[0], b)) then
        c[0]
      else
        b
  }

  /** A value that outnumbers every other value is the only mode. */
  lemma SoleMode<T(!new)>(s: seq<T>, m: T)
    requires m in s
    requires forall x :: x in s && x != m ==> Occurrences(s, x) < Occurrences(s, m)
    ensures ModeSet(s) == {m}
  {
    var i :| 0 <= i < |s| && Occurrences(s, s[i]) == MaxCount(s);
    assert Occurrences(s, m) <= MaxCount(s);
    assert MaxCount(s) == Occurrences(s, m);
  }

  /** `m` is `Series.mode()[0]` of `s`: the least of the most frequent values. */
  predicate IsFirstMode<T(==,!new)>(s: seq<T>, m: T, lt: (T, T) -> bool) {
    m in ModeSet(s) && forall x :: x in ModeSet(s) && x != m ==> lt(m, x)
  }

  /** The first mode is a value of the series. */
  lemma FirstModeOccurs<T(!new)>(s: seq<T>, m: T, lt: (T, T) -> bool)
    requires IsFirstMode(s, m, lt)
    ensures m in s
  {
  }

  /** `Series.mode()[0]`. pandas fails on an empty Series, hence the
      precondition. */
  function Mode<T(==,!new)>(s: seq<T>, lt: (T, T) -> bool): (r: T)
    requires |s| > 0
    requires StrictTotalOrder(lt)
    ensures IsFirstMode(s, r, lt)
  {
    Favourite(s, s, lt)
  }

  /** The mode is the only value that is most frequent and least among the
      most frequent: `Mode` agrees with the set-based definition. */
  lemma ModeUnique<T(!new)>(s: seq<T>, lt: (T, T) -> bool)
    requires |s| > 0
    requires StrictTotalOrder(lt)
    ensures forall m :: IsFirstMode(s, m, lt) <==> m == Mode(s, lt)
  {
    var r := Mode(s, lt);
    forall m | IsFirstMode(s, m, lt)
      ensures m == r
    {
      assert m == r || (lt(m, r) && lt(r, m));
    }
  }

  /** A non-empty Series has at least one mode, and all modes are equally
      frequent. */
  lemma ModeSetShape<T(!new)>(s: seq<T>, lt: (T, T) -> bool)
    requires |s| > 0
    requires StrictTotalOrder(lt)
    ensures ModeSet(s) != {}
    ensures forall x, y :: x in ModeSet(s) && y in ModeSet(s) ==> Occurrences(s, x) == Occurrences(s, y)
  {
    assert Mode(s, lt) in ModeSet(s);
  }

  /** `s` without duplicates, in order of first appearance. */
  function Distinct<T(==,!new)>(s: seq<T>): (r: seq<T>)
    ensures forall x :: x in r <==> x in s
    ensures forall i, j :: 0 <= i < j < |r| ==> r[i] != r[j]
  {
    if |s| == 0 then []
    else
      var d := Distinct(s[..|s| - 1]);
      assert forall x :: x in s ==> x in s[..|s| - 1] || x == s[|s| - 1];
      if s[|s| - 1] in d then d else d + [s[|s| - 1]]
  }

  /** The values of a list of (value, count) entries. */
  function Keys<T>(r: seq<(T, nat)>): seq<T> {
    seq(|r|, i requires 0 <= i < |r| => r[i].0)
  }

  function SumCounts<T>(r: seq<(T, nat)>): nat {
    if |r| == 0 then 0 else r[0].1 + SumCounts(r[1..])
  }

  /** Counts listed from the largest down. */
  predicate NonIncreasing<T>(r: seq<(T, nat)>) {
    forall i, j :: 0 <= i < j < |r| ==> r[i].1 >= r[j].1
  }

  predicate DistinctKeys<T(==,!new)>(r: seq<(T, nat)>) {
    forall i, j :: 0 <= i < j < |r| ==> r[i].0 != r[j].0
  }

  /** Each value of `d` with its number of occurrences in `s`. */
  function Tally<T(==,!new)>(d: seq<T>, s: seq<T>): (r: seq<(T, nat)>)
    ensures |r| == |d|
    ensures forall i :: 0 <= i < |r| ==> r[i] == (d[i], Occurrences(s, d[i]))
  {
    if |d| == 0 then [] else [(d[0], Occurrences(s, d[0]))] + Tally(d[1..], s)
  }

  /** Puts `p` in front of the first entry whose count is not larger, so
      `p` precedes the entries of equal count already in `r`. */
  function InsertByCount<T>(p: (T, nat), r: seq<(T, nat)>): seq<(T, nat)> {
    if |r| == 0 || p.1 >= r[0].1 then [p] + r else [r[0]] + InsertByCount(p, r[1..])
  }

  /** Stable insertion sort of the entries by non-increasing count. */
  function SortByCount<T>(ps: seq<(T, nat)>): seq<(T, nat)> {
    if |ps| == 0 then [] else InsertByCount(ps[0], SortByCount(ps[1..]))
  }

  lemma {:induction false} InsertPermutes<T>(p: (T, nat), r: seq<(T, nat)>)
    ensures multiset(InsertByCount(p, r)) == multiset(r) + multiset{p}
    ensures SumCounts(InsertByCount(p, r)) == SumCounts(r) + p.1
  {
    if |r| == 0 || p.1 >= r[0].1 {
      assert ([p] + r)[1..] == r;
    } else {
      InsertPermutes(p, r[1..]);
      var r' := InsertByCount(p, r);
      assert r == [r[0]] + r[1..];
      assert r'[1..] == InsertByCount(p, r[1..]);
    }
  }

  lemma {:induction false} InsertKeepsOrder<T(!new)>(p: (T, nat), r: seq<(T, nat)>)
    requires NonIncreasing(r) && DistinctKeys(r)
    requires forall i :: 0 <= i < |r| ==> r[i].0 != p.0
    ensures NonIncreasing(InsertByCount(p, r)) && DistinctKeys(InsertByCount(p, r))
  {
    if |r| == 0 || p.1 >= r[0].1 {
      ConsKeepsOrder(p, r);
    } else {
      TailKeepsOrder(r);
      InsertKeepsOrder(p, r[1..]);
      var rest := InsertByCount(p, r[1..]);
      InsertPermutes(p, r[1..]);
      HeadBoundsRest(p, r, rest);
      ConsKeepsOrder(r[0], rest);
    }
  }

  lemma TailKeepsOrder<T(!new)>(r: seq<(T, nat)>)
    requires |r| > 0
    requires NonIncreasing(r) && DistinctKeys(r)
    ensures NonIncreasing(r[1..]) && DistinctKeys(r[1..])
  {
  }

  lemma HeadBoundsRest<T(!new)>(p: (T, nat), r: seq<(T, nat)>, rest: seq<(T, nat)>)
    requires |r| > 0 && NonIncreasing(r) && DistinctKeys(r)
    requires p.1 < r[0].1 && p.0 != r[0].0
    requires multiset(rest) == multiset(r[1..]) + multiset{p}
    ensures forall j :: 0 <= j < |rest| ==> rest[j].1 <= r[0].1 && rest[j].0 != r[0].0
  {
    forall j | 0 <= j < |rest|
      ensures rest[j].1 <= r[0].1 && rest[j].0 != r[0].0
    {
      assert rest[j] in multiset(rest);
      if rest[j] != p {
        var k :| 0 <= k < |r| - 1 && r[1..][k] == rest[j];
        assert r[k + 1] == rest[j];
      }
    }
  }

  /** Putting an entry in front of entries with no larger count and other
      values keeps the list ordered and its values distinct. */
  lemma ConsKeepsOrder<T(!new)>(a: (T, nat), r: seq<(T, nat)>)
    requires NonIncreasing(r) && DistinctKeys(r)
    requires forall j :: 0 <= j < |r| ==> r[j].1 <= a.1 && r[j].0 != a.0
    ensures NonIncreasing([a] + r) && DistinctKeys([a] + r)
  {
  }

  lemma {:induction false} SortPermutes<T>(ps: seq<(T, nat)>)
    ensures multiset(SortByCount(ps)) == multiset(ps)
    ensures SumCounts(SortByCount(ps)) == SumCounts(ps)
  {
    if |ps| > 0 {
      SortPermutes(ps[1..]);
      InsertPermutes(ps[0], SortByCount(ps[1..]));
      assert ps == [ps[0]] + ps[1..];
    }
  }

  lemma {:induction false} SortKeepsOrder<T(!new)>(ps: seq<(T, nat)>)
    requires DistinctKeys(ps)
    ensures NonIncreasing(SortByCount(ps)) && DistinctKeys(SortByCount(ps))
  {
    if |ps| > 0 {
      TailKeepsDistinct(ps);
      SortKeepsOrder(ps[1..]);
      SortPermutes(ps[1..]);
      var rest := SortByCount(ps[1..]);
      forall j | 0 <= j < |rest|
        ensures rest[j].0 != ps[0].0
      {
        assert rest[j] in multiset(ps[1..]);
        var k :| 0 <= k < |ps| - 1 && ps[1..][k] == rest[j];
        assert ps[k + 1] == rest[j];
      }
      InsertKeepsOrder(ps[0], rest);
    }
  }

  lemma TailKeepsDistinct<T(!new)>(r: seq<(T, nat)>)
    requires |r| > 0 && DistinctKeys(r)
    ensures DistinctKeys(r[1..])
  {
  }

  /** Sum of the counts of a tally over distinct values, after one more
      element: it grows by one exactly when the element is tallied. */
  lemma {:induction false} TallySnoc<T(!new)>(d: seq<T>, s: seq<T>, x: T)
    requires forall i, j :: 0 <= i < j < |d| ==> d[i] != d[j]
    ensures SumCounts(Tally(d, s + [x])) == SumCounts(Tally(d, s)) + (if x in d then 1 else 0)
  {
    if |d| > 0 {
      TallySnoc(d[1..], s, x);
      assert multiset(s + [x]) == multiset(s) + multiset{x};
      assert x in d <==> x == d[0] || x in d[1..];
      assert Tally(d, s + [x])[1..] == Tally(d[1..], s + [x]);
      assert Tally(d, s)[1..] == Tally(d[1..], s);
    }
  }

  /** Tallying every value of `s` once accounts for every element of `s`. */
  lemma {:induction false} TallyTotal<T(!new)>(d: seq<T>, s: seq<T>)
    requires forall i, j :: 0 <= i < j < |d| ==> d[i] != d[j]
    requires forall x :: x in s ==> x in d
    ensures SumCounts(Tally(d, s)) == |s|
  {
    if |s| == 0 {
      TallyEmpty(d, s);
    } else {
      var s' := s[..|s| - 1];
      assert s == s' + [s[|s| - 1]];
      TallyTotal(d, s');
      TallySnoc(d, s', s[|s| - 1]);
    }
  }

  lemma {:induction false} TallyEmpty<T(!new)>(d: seq<T>, s: seq<T>)
    requires |s| == 0
    ensures SumCounts(Tally(d, s)) == 0
  {
    if |d| > 0 {
      TallyEmpty(d[1..], s);
      assert Tally(d, s)[1..] == Tally(d[1..], s);
    }
  }

  /** Every entry pairs a value with its (positive) number of occurrences in `s`. */
  predicate CountsIn<T(==,!new)>(s: seq<T>, r: seq<(T, nat)>) {
    forall i :: 0 <= i < |r| ==> r[i].1 == Occurrences(s, r[i].0) && r[i].1 > 0
  }

  /** Every value of `s` has an entry. */
  predicate Covers<T(==,!new)>(s: seq<T>, r: seq<(T, nat)>) {
    forall x :: x in s ==> x in Keys(r)
  }

  lemma TallyFacts<T(!new)>(d: seq<T>, s: seq<T>)
    requires forall i, j :: 0 <= i < j < |d| ==> d[i] != d[j]
    requires forall x :: x in d <==> x in s
    ensures DistinctKeys(Tally(d, s))
    ensures CountsIn(s, Tally(d, s))
    ensures Covers(s, Tally(d, s))
  {
    var t := Tally(d, s);
    forall i | 0 <= i < |t|
      ensures t[i].1 == Occurrences(s, t[i].0) && t[i].1 > 0
    {
      assert d[i] in d;
      assert d[i] in multiset(s);
    }
    forall x | x in s
      ensures x in Keys(t)
    {
      var k :| 0 <= k < |d| && d[k] == x;
      assert Keys(t)[k] == x;
    }
  }

  /** Reordering the entries keeps what they say about `s`. */
  lemma ReorderedCounts<T(!new)>(s: seq<T>, t: seq<(T, nat)>, r: seq<(T, nat)>)
    requires multiset(r) == multiset(t)
    requires CountsIn(s, t) && Covers(s, t)
    ensures CountsIn(s, r) && Covers(s, r)
  {
    forall i | 0 <= i < |r|
      ensures r[i].1 == Occurrences(s, r[i].0) && r[i].1 > 0
    {
      assert r[i] in multiset(t);
    }
    forall x | x in s
      ensures x in Keys(r)
    {
      var k :| 0 <= k < |t| && Keys(t)[k] == x;
      assert t[k] in multiset(r);
      var i :| 0 <= i < |r| && r[i] == t[k];
      assert Keys(r)[i] == x;
    }
  }

  /** `Series.value_counts()`: each distinct value with its number of
      occurrences, most frequent first; the counts add up to the length. */
  function ValueCounts<T(==,!new)>(s: seq<T>): (r: seq<(T, nat)>)
    ensures NonIncreasing(r)
    ensures DistinctKeys(r)
    ensures CountsIn(s, r) && Covers(s, r)
    ensures SumCounts(r) == |s|
  {
    var d := Distinct(s);
    var t := Tally(d, s);
    TallyTotal(d, s);
    TallyFacts(d, s);
    var r := SortByCount(t);
    SortPermutes(t);
    SortKeepsOrder(t);
    ReorderedCounts(s, t, r);
    r
  }

  /** The present values of a column with missing entries, in order: the
      values pandas aggregates after skipping NaN. */
  function Present<U(==,!new)>(s: seq<Option<U>>): (r: seq<U>)
    ensures |r| <= |s|
    ensures forall x :: Occurrences(r, x) == Occurrences(s, Some(x))
    ensures forall x :: x in r <==> Some(x) in s
  {
    if |s| == 0 then []
    else
      var rest := Present(s[1..]);
      assert s == [s[0]] + s[1..];
      match s[0]
      case None => rest
      case Some(v) => [v] + rest
  }

  /** `Series.min()` of a non-empty column. */
  function MinOf(s: seq<int>): (r: int)
    requires |s| > 0
    ensures r in s
    ensures forall x :: x in s ==> r <= x
  {
    if |s| == 1 then s[0]
    else
      var m := MinOf(s[1..]);
      assert forall x :: x in s ==> x == s[0] || x in s[1..];
      if s[0] <= m then s[0] else m
  }

  /** `Series.max()` of a non-empty column. */
  function MaxOf(s: seq<int>): (r: int)
    requires |s| > 0
    ensures r in s
    ensures forall x :: x in s ==> x <= r
  {
    if |s| == 1 then s[0]
    else
      var m := MaxOf(s[1..]);
      assert forall x :: x in s ==> x == s[0] || x in s[1..];
      if s[0] >= m then s[0] else m
  }

  /** `Series.sum()`, added in order; 0 for an empty column. */
  function Sum(s: seq<int>): int {
    if |s| == 0 then 0 else s[0] + Sum(s[1..])
  }

  /** The sum of a concatenation is the sum of the sums. */
  lemma {:induction false} SumConcat(a: seq<int>, b: seq<int>)
    ensures Sum(a + b) == Sum(a) + Sum(b)
  {
    if |a| == 0 {
      assert a + b == b;
    } else {
      assert (a + b)[1..] == a[1..] + b;
      SumConcat(a[1..], b);
    }
  }

  /** Values between `lo` and `hi` add up to between `lo` and `hi` times
      their number. */
  lemma {:induction false} SumBounds(s: seq<int>, lo: int, hi: int)
    requires forall x :: x in s ==> lo <= x <= hi
    ensures lo * |s| <= Sum(s) <= hi * |s|
  {
    if |s| > 0 {
      var rest := s[1..];
      assert forall x :: x in rest ==> x in s;
      SumBounds(rest, lo, hi);
      assert s[0] in s;
      TimesSucc(lo, |rest|);
      TimesSucc(hi, |rest|);
    }
  }

  lemma TimesSucc(a: int, n: nat)
    ensures a * (n + 1) == a + a * n
  {
  }

  /** `Series.mean()` of a non-empty column, as an exact quotient: it times
      the count gives back the sum. */
  function Mean(s: seq<int>): (r: real)
    requires |s| > 0
    ensures r * |s| as real == Sum(s) as real
  {
    QuotientTimes(Sum(s), |s|);
    Quotient(Sum(s), |s|)
  }

  /** Exact division of an integer total by a positive count. */
  function Quotient(total: int, n: nat): real
    requires n > 0
  {
    total as real / n as real
  }

  lemma QuotientTimes(total: int, n: nat)
    requires n > 0
    ensures Quotient(total, n) * n as real == total as real
  {
  }

  /** The mean of a column lies between its minimum and its maximum. */
  lemma MeanBetween(s: seq<int>)
    requires |s| > 0
    ensures MinOf(s) as real <= Mean(s) <= MaxOf(s) as real
  {
    var lo, hi, total, n := MinOf(s), MaxOf(s), Sum(s), |s|;
    SumBounds(s, lo, hi);
    QuotientBetween(lo, hi, total, n);
  }

  lemma QuotientBetween(lo: int, hi: int, total: int, n: nat)
    requires n > 0
    requires lo * n <= total <= hi * n
    ensures lo as real <= Quotient(total, n) <= hi as real
  {
    var q := Quotient(total, n);
    QuotientTimes(total, n);
    assert (lo * n) as real == lo as real * n as real;
    assert (hi * n) as real == hi as real * n as real;
    assert (q - lo as real) * n as real == total as real - (lo * n) as real;
    assert (hi as real - q) * n as real == (hi * n) as real - total as real;
  }

}
