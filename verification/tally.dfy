/**
 * The grouping primitives the pipeline borrows from pandas: `value_counts`
 * (occurrence counts, distinct values in first-appearance order, ranking by
 * count) and `mode` (the smallest of the most frequent values).
 */
module Tally {

  /** Number of occurrences of `x` in `xs`. */
  function Count<T(==)>(xs: seq<T>, x: T): nat
  {
    if |xs| == 0 then 0
    else Count(xs[..|xs| - 1], x) + (if xs[|xs| - 1] == x then 1 else 0)
  }

  /** Distinct values of `xs` in order of first appearance. */
  function Distinct<T(==,!new)>(xs: seq<T>): (r: seq<T>)
    ensures forall x :: x in r <==> x in xs
    ensures NoDuplicates(r)
    ensures |r| <= |xs|
  {
    if |xs| == 0 then []
    else
      var d := Distinct(xs[..|xs| - 1]);
      var y := xs[|xs| - 1];
      assert forall x :: x in xs <==> x in xs[..|xs| - 1] || x == y by {
        assert xs == xs[..|xs| - 1] + [y];
      }
      if y in d then d else d + [y]
  }

  predicate NoDuplicates<T(==)>(s: seq<T>) {
    forall i, j :: 0 <= i < j < |s| ==> s[i] != s[j]
  }

  /** Sum of the counts in `xs` of the values listed in `ds`. */
  function SumCounts<T(==)>(ds: seq<T>, xs: seq<T>): nat
  {
    if |ds| == 0 then 0 else Count(xs, ds[0]) + SumCounts(ds[1..], xs)
  }

  lemma {:induction false} CountZero<T>(xs: seq<T>, x: T)
    ensures Count(xs, x) == 0 <==> x !in xs
    ensures Count(xs, x) <= |xs|
  {
    if |xs| > 0 {
      var init := xs[..|xs| - 1];
      CountZero(init, x);
      assert xs == init + [xs[|xs| - 1]];
    }
  }

  /** A sequence made of one value repeated counts that value at every position. */
  lemma {:induction false} CountAll<T>(xs: seq<T>, a: T)
    requires forall i :: 0 <= i < |xs| ==> xs[i] == a
    ensures Count(xs, a) == |xs|
  {
    if |xs| > 0 {
      CountAll(xs[..|xs| - 1], a);
    }
  }

  /** Every occurrence of `b` in `xs` comes after some occurrence of `a`: `a` is seen first. */
  predicate SeenFirst<T(==)>(xs: seq<T>, a: T, b: T) {
    forall j :: 0 <= j < |xs| && xs[j] == b ==> a in xs[..j]
  }

  /** `Distinct` lists values in order of first appearance: whatever precedes a value there is seen first. */
  lemma {:induction false} DistinctFirstAppearance<T(!new)>(xs: seq<T>)
    ensures forall p, q :: 0 <= p < q < |Distinct(xs)| ==> SeenFirst(xs, Distinct(xs)[p], Distinct(xs)[q])
  {
    if |xs| > 0 {
      var init := xs[..|xs| - 1];
      var y := xs[|xs| - 1];
      var d := Distinct(init);
      var r := Distinct(xs);
      DistinctFirstAppearance(init);
      assert xs == init + [y];
      forall p, q | 0 <= p < q < |r| ensures SeenFirst(xs, r[p], r[q]) {
        assert r[p] == d[p] && r[p] in init;
        forall j | 0 <= j < |xs| && xs[j] == r[q] ensures r[p] in xs[..j] {
          if j < |init| {
            assert xs[..j] == init[..j];
            assert q < |d| && r[q] == d[q] by {
              assert init[j] == r[q] && r[q] in d;
            }
          } else {
            assert xs[..j] == init;
          }
        }
      }
    }
  }

  /** One pair of positions of `Distinct`: the earlier value is seen first. */
  lemma DistinctSeenFirstAt<T(!new)>(xs: seq<T>, p: nat, q: nat)
    requires p < q < |Distinct(xs)|
    ensures SeenFirst(xs, Distinct(xs)[p], Distinct(xs)[q])
  {
    DistinctFirstAppearance(xs);
  }

  /** A non-empty sequence made of one value repeated has that value as its only distinct value. */
  lemma {:induction false} DistinctConst<T(!new)>(xs: seq<T>, a: T)
    requires |xs| > 0
    requires forall i :: 0 <= i < |xs| ==> xs[i] == a
    ensures Distinct(xs) == [a]
  {
    if |xs| > 1 {
      DistinctConst(xs[..|xs| - 1], a);
    }
  }

  lemma CountSnoc<T>(xs: seq<T>, y: T, x: T)
    ensures Count(xs + [y], x) == Count(xs, x) + (if y == x then 1 else 0)
  {
    assert (xs + [y])[..|xs|] == xs;
  }

  /** Adding one occurrence of `y` raises the sum over `ds` by one exactly when `y` is listed once. */
  lemma {:induction false} SumCountsSnoc<T>(ds: seq<T>, xs: seq<T>, y: T)
    requires NoDuplicates(ds)
    ensures SumCounts(ds, xs + [y]) == SumCounts(ds, xs) + (if y in ds then 1 else 0)
  {
    if |ds| > 0 {
      CountSnoc(xs, y, ds[0]);
      assert NoDuplicates(ds[1..]);
      SumCountsSnoc(ds[1..], xs, y);
      assert y in ds <==> y == ds[0] || y in ds[1..] by {
        assert ds == [ds[0]] + ds[1..];
      }
      if y == ds[0] {
        assert y !in ds[1..];
      }
    }
  }

  lemma {:induction false} SumCountsAppend<T>(ds: seq<T>, e: T, xs: seq<T>)
    ensures SumCounts(ds + [e], xs) == SumCounts(ds, xs) + Count(xs, e)
  {
    if |ds| == 0 {
      assert SumCounts([e], xs) == Count(xs, e) + SumCounts([e][1..], xs);
    } else {
      assert (ds + [e])[1..] == ds[1..] + [e];
      SumCountsAppend(ds[1..], e, xs);
    }
  }

  /** The per-value counts over the distinct values add up to the length: shares sum to one. */
  lemma {:induction false} SumOfDistinctCounts<T(!new)>(xs: seq<T>)
    ensures SumCounts(Distinct(xs), xs) == |xs|
  {
    if |xs| > 0 {
      var init := xs[..|xs| - 1];
      var y := xs[|xs| - 1];
      assert xs == init + [y];
      SumOfDistinctCounts(init);
      var d := Distinct(init);
      SumCountsSnoc(d, init, y);
      if y !in d {
        SumCountsAppend(d, y, xs);
        CountSnoc(init, y, y);
        CountZero(init, y);
      }
    }
  }

  /** Two values' counts together never exceed the length. */
  lemma {:induction false} CountPair<T>(xs: seq<T>, a: T, b: T)
    requires a != b
    ensures Count(xs, a) + Count(xs, b) <= |xs|
  {
    if |xs| > 0 {
      CountPair(xs[..|xs| - 1], a, b);
    }
  }

  // ---------------------------------------------------------------------------
  // Shares, as `value_counts(normalize=True)` reports them

  /** A share kept exact as a count over a total: `part / whole`. */
  datatype Share = Share(part: nat, whole: nat)

  /** The share of `x` among the values of `xs`. */
  function ShareOf<T(==)>(xs: seq<T>, x: T): (r: Share)
    ensures r.whole == |xs| && r.part <= r.whole
    ensures r.part == 0 <==> x !in xs
  {
    CountZero(xs, x);
    Share(Count(xs, x), |xs|)
  }

  /** `value_counts(normalize=True).to_dict()`: one share per value present. */
  function Distribution<T(==,!new)>(xs: seq<T>): (m: map<T, Share>)
    ensures m.Keys == set x | x in xs
    ensures forall x :: x in m ==> m[x].part > 0
  {
    map x | x in xs :: ShareOf(xs, x)
  }

  /** `dist.get(key, 0)`: the share of `key`, zero when it never occurs. */
  function ShareOrZero<T(==,!new)>(dist: map<T, Share>, key: T, total: nat): (r: Share)
    ensures key in dist ==> r == dist[key]
    ensures key !in dist ==> r == Share(0, total)
  {
    if key in dist then dist[key] else Share(0, total)
  }

  /** A missing key reads as share zero, which is also its count: the lookup never loses a value. */
  lemma ShareOrZeroIsShare<T(!new)>(xs: seq<T>, key: T)
    ensures ShareOrZero(Distribution(xs), key, |xs|) == ShareOf(xs, key)
  {
  }

  // ---------------------------------------------------------------------------
  // Ranking, as `value_counts` orders its result

  /** Index of the first value of `cs` whose count in `xs` is maximal. */
  function FirstMaxIndex<T(==)>(cs: seq<T>, xs: seq<T>): (i: nat)
    requires |cs| > 0
    ensures i < |cs|
    ensures forall j :: 0 <= j < |cs| ==> Count(xs, cs[j]) <= Count(xs, cs[i])
    ensures forall j :: 0 <= j < i ==> Count(xs, cs[j]) < Count(xs, cs[i])
  {
    if |cs| == 1 then 0
    else
      var k := FirstMaxIndex(cs[..|cs| - 1], xs);
      if Count(xs, cs[|cs| - 1]) > Count(xs, cs[k]) then |cs| - 1 else k
  }

  /** `cs` without position `i`. */
  function RemoveAt<T>(cs: seq<T>, i: nat): (r: seq<T>)
    requires i < |cs|
    ensures |r| == |cs| - 1
  {
    cs[..i] + cs[i + 1..]
  }

  lemma RemoveAtProps<T(!new)>(cs: seq<T>, i: nat)
    requires i < |cs|
    requires NoDuplicates(cs)
    ensures NoDuplicates(RemoveAt(cs, i))
    ensures forall x :: x in RemoveAt(cs, i) <==> x in cs && x != cs[i]
  {
    var r := RemoveAt(cs, i);
    forall p, q | 0 <= p < q < |r| ensures r[p] != r[q] {
      var p' := if p < i then p else p + 1;
      var q' := if q < i then q else q + 1;
      assert r[p] == cs[p'] && r[q] == cs[q'];
    }
    forall x ensures x in r <==> x in cs && x != cs[i] {
      if x in r {
        var k :| 0 <= k < |r| && r[k] == x;
        var k' := if k < i then k else k + 1;
        assert cs[k'] == x;
      }
      if x in cs && x != cs[i] {
        var k :| 0 <= k < |cs| && cs[k] == x;
        assert k != i;
        if k < i { assert r[k] == x; } else { assert r[k - 1] == x; }
      }
    }
  }

  /**
   * `cs` ordered by count in `xs`, highest first; among equal counts the one
   * earlier in `cs` comes first (a stable descending sort).
   */
  function Ranked<T(==,!new)>(cs: seq<T>, xs: seq<T>): (r: seq<T>)
    requires NoDuplicates(cs)
    ensures |r| == |cs|
    ensures NoDuplicates(r)
    ensures forall x :: x in r <==> x in cs
    ensures forall i, j :: 0 <= i < j < |r| ==> Count(xs, r[i]) >= Count(xs, r[j])
    ensures |r| > 0 ==> forall x :: x in cs ==> Count(xs, x) <= Count(xs, r[0])
    ensures |cs| > 0 ==> r[0] == cs[FirstMaxIndex(cs, xs)]
    decreases |cs|
  {
    if |cs| == 0 then []
    else
      var k := FirstMaxIndex(cs, xs);
      var rest := RemoveAt(cs, k);
      RemoveAtProps(cs, k);
      var tail := Ranked(rest, xs);
      RankedCons(cs, xs, k, tail);
      [cs[k]] + tail
  }

  /** Putting the first maximal value in front of a ranking of the others ranks the whole list. */
  lemma RankedCons<T(!new)>(cs: seq<T>, xs: seq<T>, k: nat, tail: seq<T>)
    requires k < |cs|
    requires forall j :: 0 <= j < |cs| ==> Count(xs, cs[j]) <= Count(xs, cs[k])
    requires forall x :: x in tail <==> x in cs && x != cs[k]
    requires NoDuplicates(tail)
    requires forall i, j :: 0 <= i < j < |tail| ==> Count(xs, tail[i]) >= Count(xs, tail[j])
    ensures NoDuplicates([cs[k]] + tail)
    ensures forall x :: x in [cs[k]] + tail <==> x in cs
    ensures forall i, j :: 0 <= i < j < |tail| + 1 ==>
              Count(xs, ([cs[k]] + tail)[i]) >= Count(xs, ([cs[k]] + tail)[j])
  {
    var r := [cs[k]] + tail;
    assert forall j :: 0 < j < |r| ==> r[j] == tail[j - 1];
    forall i, j | 0 <= i < j < |r| ensures Count(xs, r[i]) >= Count(xs, r[j]) && r[i] != r[j] {
      if i == 0 {
        assert r[j] in tail;
      }
    }
    forall x | x in cs ensures x in r {
      if x != cs[k] {
        assert x in tail;
      }
    }
  }

  /** `a` stands at an earlier position of `cs` than `b`. */
  ghost predicate Before<T>(cs: seq<T>, a: T, b: T) {
    exists p, q :: 0 <= p < q < |cs| && cs[p] == a && cs[q] == b
  }

  lemma BeforeRemoveAt<T>(cs: seq<T>, k: nat, a: T, b: T)
    requires k < |cs| && Before(RemoveAt(cs, k), a, b)
    ensures Before(cs, a, b)
  {
    var r := RemoveAt(cs, k);
    var p, q :| 0 <= p < q < |r| && r[p] == a && r[q] == b;
    var p' := if p < k then p else p + 1;
    var q' := if q < k then q else q + 1;
    assert cs[p'] == a && cs[q'] == b;
  }

  /** A value tying with the first maximal one stands after it. */
  lemma HeadBefore<T>(cs: seq<T>, xs: seq<T>, k: nat, b: T)
    requires k < |cs|
    requires forall j :: 0 <= j < k ==> Count(xs, cs[j]) < Count(xs, cs[k])
    requires b in cs && b != cs[k] && Count(xs, b) == Count(xs, cs[k])
    ensures Before(cs, cs[k], b)
  {
    var m :| 0 <= m < |cs| && cs[m] == b;
    assert k < m;
  }

  /** The ranking is stable: of two values with equal counts, the one earlier in `cs` ranks first. */
  lemma {:induction false} RankedStable<T(!new)>(cs: seq<T>, xs: seq<T>, i: nat, j: nat)
    requires NoDuplicates(cs)
    requires i < j < |cs|
    requires Count(xs, Ranked(cs, xs)[i]) == Count(xs, Ranked(cs, xs)[j])
    ensures Before(cs, Ranked(cs, xs)[i], Ranked(cs, xs)[j])
    decreases |cs|
  {
    var k := FirstMaxIndex(cs, xs);
    var rest := RemoveAt(cs, k);
    RemoveAtProps(cs, k);
    var tail := Ranked(rest, xs);
    var r := Ranked(cs, xs);
    assert r == [cs[k]] + tail;
    var b := r[j];
    assert b == tail[j - 1];
    if i == 0 {
      assert b in rest;
      HeadBefore(cs, xs, k, b);
    } else {
      var a := r[i];
      assert a == tail[i - 1];
      assert Count(xs, tail[i - 1]) == Count(xs, tail[j - 1]);
      RankedStable(rest, xs, i - 1, j - 1);
      assert Before(rest, a, b);
      BeforeRemoveAt(cs, k, a, b);
    }
  }

  // ---------------------------------------------------------------------------
  // Mode, as `Series.mode()[0]` picks it

  /** Python's string order: lexicographic by code point. */
  predicate LexLess(a: string, b: string)
    decreases |a|
  {
    if |a| == 0 then |b| > 0
    else if |b| == 0 then false
    else a[0] < b[0] || (a[0] == b[0] && LexLess(a[1..], b[1..]))
  }

  lemma {:induction false} LexTotal(a: string, b: string)
    ensures a == b || LexLess(a, b) || LexLess(b, a)
    decreases |a|
  {
    if |a| > 0 && |b| > 0 && a[0] == b[0] {
      LexTotal(a[1..], b[1..]);
      if a[1..] == b[1..] {
        assert a == [a[0]] + a[1..] && b == [b[0]] + b[1..];
      }
    }
  }

  lemma {:induction false} LexIrreflexive(a: string)
    ensures !LexLess(a, a)
    decreases |a|
  {
    if |a| > 0 {
      LexIrreflexive(a[1..]);
    }
  }

  lemma {:induction false} LexTransitive(a: string, b: string, c: string)
    requires LexLess(a, b) && LexLess(b, c)
    ensures LexLess(a, c)
    decreases |a|
  {
    if |a| > 0 && a[0] == b[0] && b[0] == c[0] {
      LexTransitive(a[1..], b[1..], c[1..]);
    }
  }

  /** The lexicographically smallest value of a non-empty list. */
  function Smallest(cs: seq<string>): (r: string)
    requires |cs| > 0
    ensures r in cs
    ensures forall x :: x in cs ==> x == r || LexLess(r, x)
  {
    if |cs| == 1 then cs[0]
    else
      var m := Smallest(cs[1..]);
      assert forall x :: x in cs ==> x == cs[0] || x in cs[1..];
      LexTotal(cs[0], m);
      if LexLess(cs[0], m) then
        assert forall x :: x in cs[1..] && x != m ==> LexLess(cs[0], x) by {
          forall x | x in cs[1..] && x != m ensures LexLess(cs[0], x) {
            LexTransitive(cs[0], m, x);
          }
        }
        cs[0]
      else m
  }

  /** The distinct values of `xs` whose count reaches `c`. */
  function Reaching(ds: seq<string>, xs: seq<string>, c: nat): (r: seq<string>)
    ensures forall x :: x in r <==> x in ds && Count(xs, x) >= c
  {
    if |ds| == 0 then []
    else if Count(xs, ds[0]) >= c then [ds[0]] + Reaching(ds[1..], xs, c)
    else Reaching(ds[1..], xs, c)
  }

  /** `mode()[0]`: the smallest of the most frequent values of a non-empty column. */
  function SmallestMode(xs: seq<string>): (r: string)
    requires |xs| > 0
    ensures r in xs
    ensures forall x :: x in xs ==> Count(xs, x) <= Count(xs, r)
    ensures forall x :: x in xs && Count(xs, x) == Count(xs, r) ==> x == r || LexLess(r, x)
  {
    var ds := Distinct(xs);
    assert xs[0] in ds;
    var top := ds[FirstMaxIndex(ds, xs)];
    var modes := Reaching(ds, xs, Count(xs, top));
    assert top in modes;
    Smallest(modes)
  }

  /** The mode is the only value that is both maximal and smallest among the maximal ones. */
  lemma SmallestModeUnique(xs: seq<string>, m: string)
    requires m in xs
    requires forall x :: x in xs ==> Count(xs, x) <= Count(xs, m)
    requires forall x :: x in xs && Count(xs, x) == Count(xs, m) ==> x == m || LexLess(m, x)
    ensures SmallestMode(xs) == m
  {
    var r := SmallestMode(xs);
    assert Count(xs, r) == Count(xs, m);
    if r != m {
      assert LexLess(m, r) && LexLess(r, m);
      LexTransitive(m, r, m);
      LexIrreflexive(m);
    }
  }
}
