/**
 * The hourly departure histogram of `generate_insights` and its peak and
 * off-peak hours. `value_counts().sort_index()` lists the hours present in
 * ascending order and `idxmax`/`idxmin` return the first extreme, so a tie
 * goes to the lowest hour.
 */
module Hours {
  import opened Wrappers
  import Tally

  /** An hour of the day, as `dt.hour` yields it. */
  type Hour = h: int | 0 <= h < 24

  /** Departures per hour of the day; an hour is present when its count is positive. */
  type Histogram = s: seq<nat> | |s| == 24 witness seq(24, _ => 0)

  function BuildHistogram(hs: seq<Hour>): (r: Histogram)
    ensures forall h: Hour :: r[h] == Tally.Count(hs, h)
  {
    seq(24, h requires 0 <= h < 24 => Tally.Count(hs, h as Hour))
  }

  /** Present hours of a histogram built from departures are exactly the departure hours. */
  lemma PresentIffDeparts(hs: seq<Hour>, h: Hour)
    ensures BuildHistogram(hs)[h] > 0 <==> h in hs
  {
    Tally.CountZero(hs, h);
  }

  /** `p` is the lowest present hour of highest count: what `idxmax` returns. */
  ghost predicate IsFirstPeak(hist: Histogram, p: Hour) {
    && hist[p] > 0
    && (forall h: Hour :: hist[h] <= hist[p])
    && (forall h: Hour :: h < p && hist[h] > 0 ==> hist[h] < hist[p])
  }

  /** `q` is the lowest present hour of lowest count: what `idxmin` returns. */
  ghost predicate IsFirstTrough(hist: Histogram, q: Hour) {
    && hist[q] > 0
    && (forall h: Hour :: hist[h] > 0 ==> hist[q] <= hist[h])
    && (forall h: Hour :: h < q && hist[h] > 0 ==> hist[q] < hist[h])
  }

  /** The scan of `idxmax` over the present hours below `k`. */
  function PeakBelow(hist: Histogram, k: nat): (r: Option<Hour>)
    requires k <= 24
    ensures r.None? <==> forall h: Hour :: h < k ==> hist[h] == 0
    ensures r.Some? ==> r.value < k && hist[r.value] > 0
    ensures r.Some? ==> forall h: Hour :: h < k ==> hist[h] <= hist[r.value]
    ensures r.Some? ==> forall h: Hour :: h < r.value && hist[h] > 0 ==> hist[h] < hist[r.value]
  {
    if k == 0 then None
    else
      var prev := PeakBelow(hist, k - 1);
      if hist[k - 1] == 0 then prev
      else if prev.None? || hist[k - 1] > hist[prev.value] then Some(k - 1)
      else prev
  }

  /** The scan of `idxmin` over the present hours below `k`. */
  function TroughBelow(hist: Histogram, k: nat): (r: Option<Hour>)
    requires k <= 24
    ensures r.None? <==> forall h: Hour :: h < k ==> hist[h] == 0
    ensures r.Some? ==> r.value < k && hist[r.value] > 0
    ensures r.Some? ==> forall h: Hour :: h < k && hist[h] > 0 ==> hist[r.value] <= hist[h]
    ensures r.Some? ==> forall h: Hour :: h < r.value && hist[h] > 0 ==> hist[r.value] < hist[h]
  {
    if k == 0 then None
    else
      var prev := TroughBelow(hist, k - 1);
      if hist[k - 1] == 0 then prev
      else if prev.None? || hist[k - 1] < hist[prev.value] then Some(k - 1)
      else prev
  }

  /** A histogram with at least one departure. */
  predicate NonEmpty(hist: Histogram) {
    exists h: Hour :: hist[h] > 0
  }

  /** `hourly_dist.idxmax()`. */
  function PeakHour(hist: Histogram): (p: Hour)
    requires NonEmpty(hist)
    ensures IsFirstPeak(hist, p)
  {
    PeakBelow(hist, 24).value
  }

  /** `hourly_dist.idxmin()`. */
  function OffPeakHour(hist: Histogram): (q: Hour)
    requires NonEmpty(hist)
    ensures IsFirstTrough(hist, q)
  {
    TroughBelow(hist, 24).value
  }

  /** The lowest-hour tie rule leaves exactly one candidate peak. */
  lemma PeakUnique(hist: Histogram, p: Hour)
    requires IsFirstPeak(hist, p)
    ensures NonEmpty(hist) && PeakHour(hist) == p
  {
    var r := PeakHour(hist);
    assert hist[r] == hist[p];
  }

  /** The lowest-hour tie rule leaves exactly one candidate off-peak hour. */
  lemma OffPeakUnique(hist: Histogram, q: Hour)
    requires IsFirstTrough(hist, q)
    ensures NonEmpty(hist) && OffPeakHour(hist) == q
  {
    var r := OffPeakHour(hist);
    assert hist[r] == hist[q];
  }

  /** Every present hour has the same count. */
  ghost predicate Flat(hist: Histogram) {
    forall h1: Hour, h2: Hour :: hist[h1] > 0 && hist[h2] > 0 ==> hist[h1] == hist[h2]
  }

  /**
   * Peak and off-peak hour coincide exactly when all present hours are
   * equally busy, so two distinct hours with equal counts give one answer.
   */
  lemma PeakIsOffPeakIffFlat(hist: Histogram)
    requires NonEmpty(hist)
    ensures PeakHour(hist) == OffPeakHour(hist) <==> Flat(hist)
  {
    var p := PeakHour(hist);
    var q := OffPeakHour(hist);
    if Flat(hist) {
      assert hist[p] == hist[q];
    }
  }

  /** With a single departure hour, peak and off-peak are that hour. */
  lemma SingleHour(hs: seq<Hour>, h: Hour)
    requires |hs| > 0
    requires forall i :: 0 <= i < |hs| ==> hs[i] == h
    ensures NonEmpty(BuildHistogram(hs))
    ensures PeakHour(BuildHistogram(hs)) == h && OffPeakHour(BuildHistogram(hs)) == h
  {
    var hist := BuildHistogram(hs);
    assert hs[0] in hs;
    PresentIffDeparts(hs, h);
    forall g: Hour | g != h ensures hist[g] == 0 {
      PresentIffDeparts(hs, g);
    }
    PeakUnique(hist, h);
    OffPeakUnique(hist, h);
  }

  /** Hours 3 and 5 with one departure each: two distinct hours, yet peak equals off-peak. */
  lemma TwoEqualHoursCoincide()
    ensures NonEmpty(BuildHistogram([3, 5]))
    ensures PeakHour(BuildHistogram([3, 5])) == 3 && OffPeakHour(BuildHistogram([3, 5])) == 3
  {
    var hs: seq<Hour> := [3, 5];
    var hist := BuildHistogram(hs);
    forall g: Hour ensures hist[g] == (if g == 3 || g == 5 then 1 else 0) {
      assert hs == [3] + [5];
      assert [3][..0] == [];
    }
    PeakUnique(hist, 3);
    OffPeakUnique(hist, 3);
  }
}
