/**
 * The market-share block of `generate_insights`. `value_counts(normalize=True)`
 * ranks airlines by flight count, highest first, equal counts in order of
 * first appearance; `idxmax` takes the first, and `nlargest(3)` minus the top
 * airline gives at most two runner-ups.
 */
module Market {
  import opened Tally

  datatype AirlineShare = AirlineShare(name: string, share: Share)

  /**
   * The top airline entry. `flights` is read from the normalised
   * distribution, so it holds the share and not a flight count.
   */
  datatype TopAirline = TopAirline(name: string, share: Share, flights: Share)

  datatype MarketShare = MarketShare(top: TopAirline, others: seq<AirlineShare>)

  /** `airline_dist`: the distinct airlines, highest count first. */
  function AirlineRanking(airlines: seq<string>): (r: seq<string>)
    ensures |r| == |Distinct(airlines)|
    ensures forall a :: a in r <==> a in airlines
    ensures NoDuplicates(r)
    ensures forall i, j :: 0 <= i < j < |r| ==> Count(airlines, r[i]) >= Count(airlines, r[j])
    ensures |airlines| > 0 ==> |r| > 0 && r[0] == Distinct(airlines)[FirstMaxIndex(Distinct(airlines), airlines)]
  {
    assert |airlines| > 0 ==> airlines[0] in Distinct(airlines);
    Ranked(Distinct(airlines), airlines)
  }

  /** Airlines with equal counts keep their order of first appearance in the ranking. */
  lemma RankingTiesByFirstAppearance(airlines: seq<string>, i: nat, j: nat)
    requires i < j < |AirlineRanking(airlines)|
    requires Count(airlines, AirlineRanking(airlines)[i]) == Count(airlines, AirlineRanking(airlines)[j])
    ensures Before(Distinct(airlines), AirlineRanking(airlines)[i], AirlineRanking(airlines)[j])
    ensures SeenFirst(airlines, AirlineRanking(airlines)[i], AirlineRanking(airlines)[j])
  {
    var ds := Distinct(airlines);
    var r := AirlineRanking(airlines);
    RankedStable(ds, airlines, i, j);
    var p, q :| 0 <= p < q < |ds| && ds[p] == r[i] && ds[q] == r[j];
    DistinctFirstAppearance(airlines);
  }

  /** `airline_dist.idxmax()`: a most frequent airline, the first to appear among equals. */
  function TopAirlineName(airlines: seq<string>): (t: string)
    requires |airlines| > 0
    ensures t == AirlineRanking(airlines)[0]
    ensures t in airlines
    ensures forall a :: a in airlines ==> Count(airlines, a) <= Count(airlines, t)
    ensures forall j :: 0 <= j < |Distinct(airlines)| && Count(airlines, Distinct(airlines)[j]) == Count(airlines, t)
              ==> t in Distinct(airlines)[..j + 1]
    ensures forall a :: a in airlines && a != t && Count(airlines, a) == Count(airlines, t) ==> SeenFirst(airlines, t, a)
  {
    var ds := Distinct(airlines);
    var r := AirlineRanking(airlines);
    var k := FirstMaxIndex(ds, airlines);
    forall j | 0 <= j < |ds| && Count(airlines, ds[j]) == Count(airlines, ds[k])
      ensures ds[k] in ds[..j + 1]
    {
      assert ds[..j + 1][k] == ds[k];
    }
    TopSeenFirst(airlines, k);
    r[0]
  }

  /** When the first record's airline is among the most frequent, it is the top airline. */
  lemma FirstRecordWinsTies(airlines: seq<string>)
    requires |airlines| > 0
    requires forall a :: a in airlines ==> Count(airlines, a) <= Count(airlines, airlines[0])
    ensures TopAirlineName(airlines) == airlines[0]
  {
    var t := TopAirlineName(airlines);
    assert Count(airlines, t) == Count(airlines, airlines[0]);
    assert t != airlines[0] ==> SeenFirst(airlines, t, airlines[0]);
    assert airlines[..0] == [];
  }

  /** The first maximal airline of `Distinct` is seen before every other airline with its count. */
  lemma TopSeenFirst(airlines: seq<string>, k: nat)
    requires |airlines| > 0 && k == FirstMaxIndex(Distinct(airlines), airlines)
    ensures forall a :: a in airlines && a != Distinct(airlines)[k]
              && Count(airlines, a) == Count(airlines, Distinct(airlines)[k])
              ==> SeenFirst(airlines, Distinct(airlines)[k], a)
  {
    forall a | a in airlines && a != Distinct(airlines)[k]
                 && Count(airlines, a) == Count(airlines, Distinct(airlines)[k])
      ensures SeenFirst(airlines, Distinct(airlines)[k], a)
    {
      TieSeenAfter(Distinct(airlines), airlines, k, a);
    }
  }

  /** One airline tying with the first maximal one in `Distinct` is seen after it. */
  lemma TieSeenAfter(ds: seq<string>, airlines: seq<string>, k: nat, a: string)
    requires ds == Distinct(airlines) && |ds| > 0 && k == FirstMaxIndex(ds, airlines)
    requires a in airlines && a != ds[k] && Count(airlines, a) == Count(airlines, ds[k])
    ensures SeenFirst(airlines, ds[k], a)
  {
    assert a in ds;
    var m :| 0 <= m < |ds| && ds[m] == a;
    LaterTie(ds, airlines, k, m);
    DistinctSeenFirstAt(airlines, k, m);
  }

  /** A value tying with the first maximal one stands after it. */
  lemma LaterTie(ds: seq<string>, xs: seq<string>, k: nat, m: nat)
    requires |ds| > 0 && k == FirstMaxIndex(ds, xs) && m < |ds|
    requires ds[m] != ds[k] && Count(xs, ds[m]) == Count(xs, ds[k])
    ensures k < m
  {
  }

  /** `nlargest(3)` without the top airline: the next at most two airlines of the ranking. */
  function RunnerUps(airlines: seq<string>): (rs: seq<string>)
    requires |airlines| > 0
    ensures |rs| == (if |Distinct(airlines)| < 3 then |Distinct(airlines)| - 1 else 2)
    ensures rs == AirlineRanking(airlines)[1..|rs| + 1]
    ensures NoDuplicates(rs)
    ensures forall i :: 0 <= i < |rs| ==> rs[i] in airlines && rs[i] != AirlineRanking(airlines)[0]
    ensures forall i, j :: 0 <= i < j < |rs| ==> Count(airlines, rs[i]) >= Count(airlines, rs[j])
    ensures forall a, i :: a in airlines && a != AirlineRanking(airlines)[0] && a !in rs && 0 <= i < |rs|
              ==> Count(airlines, a) <= Count(airlines, rs[i])
  {
    var r := AirlineRanking(airlines);
    var n := if |r| < 3 then |r| else 3;
    FollowersProps(r, airlines, n, r[1..n]);
    r[1..n]
  }

  /** The entries after the head of a descending ranking, up to position `n`, rank the rest. */
  lemma FollowersProps(r: seq<string>, xs: seq<string>, n: nat, rs: seq<string>)
    requires 1 <= n <= |r| && rs == r[1..n]
    requires NoDuplicates(r)
    requires forall i, j :: 0 <= i < j < |r| ==> Count(xs, r[i]) >= Count(xs, r[j])
    requires forall a :: a in r <==> a in xs
    ensures NoDuplicates(rs)
    ensures forall i :: 0 <= i < |rs| ==> rs[i] in xs && rs[i] != r[0]
    ensures forall i, j :: 0 <= i < j < |rs| ==> Count(xs, rs[i]) >= Count(xs, rs[j])
    ensures forall a, i :: a in xs && a != r[0] && a !in rs && 0 <= i < |rs| ==> Count(xs, a) <= Count(xs, rs[i])
  {
    assert forall i :: 0 <= i < |rs| ==> rs[i] == r[i + 1];
    forall a, i | a in xs && a != r[0] && a !in rs && 0 <= i < |rs|
      ensures Count(xs, a) <= Count(xs, rs[i])
    {
      var p :| 0 <= p < |r| && r[p] == a;
      assert p >= n;
    }
  }

  /** The market-share block for a non-empty airline column. */
  function MarketShareOf(airlines: seq<string>): (m: MarketShare)
    requires |airlines| > 0
    ensures m.top.name == TopAirlineName(airlines)
    ensures m.top.share == ShareOf(airlines, m.top.name)
    ensures m.top.flights == m.top.share
    ensures Names(m.others) == RunnerUps(airlines)
    ensures forall i :: 0 <= i < |m.others| ==> m.others[i].share == ShareOf(airlines, m.others[i].name)
  {
    var top := TopAirlineName(airlines);
    var rs := RunnerUps(airlines);
    var others := Entries(airlines, rs);
    MarketShare(TopAirline(top, ShareOf(airlines, top), ShareOf(airlines, top)), others)
  }

  /** One entry per listed airline, each with its share of the column. */
  function Entries(airlines: seq<string>, names: seq<string>): (es: seq<AirlineShare>)
    ensures Names(es) == names
    ensures forall i :: 0 <= i < |es| ==> es[i].share == ShareOf(airlines, es[i].name)
  {
    var es := seq(|names|, i requires 0 <= i < |names| => AirlineShare(names[i], ShareOf(airlines, names[i])));
    assert Names(es) == names by {
      var ns := Names(es);
      forall i | 0 <= i < |names| ensures ns[i] == names[i] {
        assert es[i].name == names[i];
      }
    }
    es
  }

  /** The names of a list of airline entries, in order. */
  function Names(es: seq<AirlineShare>): (r: seq<string>)
    ensures |r| == |es|
    ensures forall i :: 0 <= i < |es| ==> r[i] == es[i].name
  {
    seq(|es|, i requires 0 <= i < |es| => es[i].name)
  }

  /** There are runner-ups exactly when more than one airline flies. */
  lemma OthersEmptyIffOneAirline(airlines: seq<string>)
    requires |airlines| > 0
    ensures |MarketShareOf(airlines).others| == 0 <==> |Distinct(airlines)| == 1
  {
    assert airlines[0] in Distinct(airlines);
    assert |Names(MarketShareOf(airlines).others)| == |RunnerUps(airlines)|;
  }

  /** The runner-ups never repeat the top airline and number at most two. */
  lemma OthersExcludeTop(airlines: seq<string>)
    requires |airlines| > 0
    ensures |MarketShareOf(airlines).others| <= 2
    ensures forall o :: o in MarketShareOf(airlines).others ==> o.name != MarketShareOf(airlines).top.name
  {
    var m := MarketShareOf(airlines);
    assert |Names(m.others)| == |RunnerUps(airlines)|;
    forall o | o in m.others ensures o.name != m.top.name {
      var i :| 0 <= i < |m.others| && m.others[i] == o;
      assert Names(m.others)[i] == o.name;
    }
  }
}
