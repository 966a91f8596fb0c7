/**
 * The metric block of `create_visualizations`: hourly and status counts for
 * the two charts, the modal departure hour, the modal airline and the
 * on-time rate as a rounded percentage.
 */
module Charts {
  import opened Wrappers
  import opened Records
  import opened Tally
  import opened Hours
  import Insights
  import Market

  /** The `metrics` entries; `None` stands for Python's None. */
  datatype Metrics = Metrics(peakHour: Option<Hour>, topAirline: Option<string>, onTimeRate: Option<nat>)

  /** What the charts are drawn from, plus the metrics merged into the result. */
  datatype ChartData = ChartData(hourly: Option<Histogram>, statusCounts: map<string, nat>, metrics: Metrics)

  datatype ChartOutcome =
    | NoCharts          // the function returns None
    | Raises            // an exception escapes the function
    | Drawn(charts: ChartData)

  /** Python's `round` on a non-negative ratio: to the nearest integer, a tie to the even one. */
  function RoundHalfEven(num: nat, den: nat): (r: nat)
    requires den > 0
    ensures 2 * num <= 2 * r * den + den && 2 * r * den <= 2 * num + den
    ensures 2 * num == 2 * r * den + den || 2 * r * den == 2 * num + den ==> r % 2 == 0
  {
    var (q, rem) := FloorDiv(num, den);
    // round up past the half, and at exactly the half when the quotient is odd
    var up := 2 * rem > den || (2 * rem == den && q % 2 == 1);
    var r := if up then q + 1 else q;
    Scaled(r, q, den, up);
    r
  }

  /** Floor quotient and remainder of a non-negative ratio. */
  function FloorDiv(num: nat, den: nat): (qr: (nat, nat))
    requires den > 0
    ensures num == qr.0 * den + qr.1 && qr.1 < den
  {
    (num / den, num % den)
  }

  /** Twice `r * den`, for `r` the quotient or one above it, in terms of `q * den`. */
  lemma Scaled(r: nat, q: nat, den: nat, up: bool)
    requires r == if up then q + 1 else q
    ensures 2 * r * den == 2 * (q * den) + (if up then 2 * den else 0)
  {
  }

  /** Two integers both within half a step of `num / den`, with ties broken to even, are the same. */
  lemma RoundHalfEvenUnique(num: nat, den: nat, r: nat)
    requires den > 0
    requires 2 * num <= 2 * r * den + den && 2 * r * den <= 2 * num + den
    requires 2 * num == 2 * r * den + den || 2 * r * den == 2 * num + den ==> r % 2 == 0
    ensures RoundHalfEven(num, den) == r
  {
    NearestUnique(num, den, r, RoundHalfEven(num, den));
  }

  /** The half-step and tie-to-even conditions pin down at most one integer. */
  lemma NearestUnique(num: nat, den: nat, r: nat, s: nat)
    requires den > 0
    requires 2 * num <= 2 * r * den + den && 2 * r * den <= 2 * num + den
    requires 2 * num == 2 * r * den + den || 2 * r * den == 2 * num + den ==> r % 2 == 0
    requires 2 * num <= 2 * s * den + den && 2 * s * den <= 2 * num + den
    requires 2 * num == 2 * s * den + den || 2 * s * den == 2 * num + den ==> s % 2 == 0
    ensures r == s
  {
    var rd, sd := r * den, s * den;
    assert 2 * r * den == 2 * rd && 2 * s * den == 2 * sd;
    // both products lie within half a step of `num`, so r and s are equal or neighbours
    assert rd - sd <= den && sd - rd <= den;
    NeighbourSteps(r, s, den);
    NeighbourSteps(s, r, den);
    // neighbours would both sit on a tie, and both be even
  }

  /** Dividing out a positive factor: `r * den` at most one step above `s * den` gives `r <= s + 1`. */
  lemma NeighbourSteps(r: nat, s: nat, den: nat)
    requires den > 0 && r * den - s * den <= den
    ensures r <= s + 1
    ensures r == s + 1 ==> r * den == s * den + den
  {
    assert (s + 2) * den == s * den + 2 * den;
    MulMonotone(s + 2, r, den);
  }

  /** Multiplying by a natural number keeps the order. */
  lemma {:induction false} MulMonotone(a: nat, b: nat, den: nat)
    ensures a <= b ==> a * den <= b * den
    decreases b
  {
    if a < b {
      MulMonotone(a, b - 1, den);
      assert b * den == (b - 1) * den + den;
    }
  }

  /** Dividing out a positive factor from a strict bound. */
  lemma FactorBelow(d: int, den: nat, b: int)
    requires den > 0 && 2 * d * den < 2 * b * den
    ensures d < b
  {
    assert 2 * (d - b) * den < 0;
  }

  /** The records whose status counts as on time. */
  function OnTimeCount(statuses: seq<string>): (k: nat)
    ensures k <= |statuses|
  {
    CountPair(statuses, "scheduled", "landed");
    Count(statuses, "scheduled") + Count(statuses, "landed")
  }

  /** `on_time_rate`: the on-time percentage, rounded half to even. */
  function OnTimeRate(statuses: seq<string>): (p: nat)
    requires |statuses| > 0
    ensures p <= 100
    ensures 2 * 100 * OnTimeCount(statuses) <= 2 * p * |statuses| + |statuses|
    ensures 2 * p * |statuses| <= 2 * 100 * OnTimeCount(statuses) + |statuses|
    ensures (2 * 100 * OnTimeCount(statuses) == 2 * p * |statuses| + |statuses|
             || 2 * p * |statuses| == 2 * 100 * OnTimeCount(statuses) + |statuses|) ==> p % 2 == 0
  {
    var k := OnTimeCount(statuses);
    var n := |statuses|;
    var p := RoundHalfEven(100 * k, n);
    assert 2 * p * n <= 2 * 100 * k + n;
    assert 2 * 100 * k <= 2 * 100 * n;
    FactorBelow(p, n, 101);
    p
  }

  /** One on-time status in eight is exactly 12.5 per cent, a tie that rounds down to the even 12. */
  lemma OneInEightRoundsToEven(statuses: seq<string>)
    requires |statuses| == 8 && OnTimeCount(statuses) == 1
    ensures OnTimeRate(statuses) == 12
  {
    RoundHalfEvenUnique(100, 8, 12);
  }

  /** `df['status'].value_counts()` for the status pie chart. */
  function StatusCounts(statuses: seq<string>): (m: map<string, nat>)
    ensures m.Keys == set s | s in statuses
    ensures forall s :: s in m ==> m[s] == Count(statuses, s) && m[s] > 0
  {
    map s | s in statuses :: ShareOf(statuses, s).part
  }

  /** The metrics of a non-empty record list whose departure hours all parsed. */
  function ChartsOf(rs: seq<FlightRecord>, hours: seq<Hour>): (c: ChartData)
    requires |rs| > 0 && |hours| == |rs|
    ensures c.hourly == Some(BuildHistogram(hours))
    ensures c.metrics.peakHour.Some? && IsFirstPeak(BuildHistogram(hours), c.metrics.peakHour.value)
    ensures c.metrics.topAirline == Some(SmallestMode(Airlines(rs)))
    ensures c.metrics.onTimeRate == Some(OnTimeRate(Statuses(rs)))
    ensures c.statusCounts == StatusCounts(Statuses(rs))
  {
    var hist := BuildHistogram(hours);
    PresentIffDeparts(hours, hours[0]);
    ChartData(
      Some(hist),
      StatusCounts(Statuses(rs)),
      Metrics(Some(PeakHour(hist)), Some(SmallestMode(Airlines(rs))), Some(OnTimeRate(Statuses(rs)))))
  }

  /**
   * `create_visualizations` as written: when a departure time does not parse,
   * the `except` branch sets every metric to None, but the hourly plot then
   * reads the `hour` column that was never created and raises.
   */
  function CreateVisualizations(data: Option<seq<FlightRecord>>, parseHour: string -> Option<Hour>): (r: ChartOutcome)
    ensures r.NoCharts? <==> data.None? || |data.value| == 0
    ensures r.Raises? <==>
              (data.Some? && |data.value| > 0
               && exists i :: 0 <= i < |data.value| && parseHour(data.value[i].departureTime).None?)
    ensures r.Drawn? ==> r.charts == ChartsOf(data.value, Insights.ParseHours(DepartureTimes(data.value), parseHour).value)
  {
    if data.None? || |data.value| == 0 then NoCharts
    else
      match Insights.ParseHours(DepartureTimes(data.value), parseHour)
      case None => Raises
      case Some(hours) => Drawn(ChartsOf(data.value, hours))
  }

  /** One record whose departure is the placeholder, with a parser that rejects it, makes the function raise. */
  lemma PlaceholderDepartureRaises(rec: FlightRecord, parseHour: string -> Option<Hour>)
    requires rec.departureTime == Missing && parseHour(Missing).None?
    ensures CreateVisualizations(Some([rec]), parseHour) == Raises
  {
    assert parseHour([rec][0].departureTime).None?;
  }

  /**
   * `create_visualizations` as its `except` branch intends: an unparseable
   * departure yields None metrics and no hourly chart, never an exception.
   */
  function CreateVisualizationsGuarded(data: Option<seq<FlightRecord>>, parseHour: string -> Option<Hour>): (r: ChartOutcome)
    ensures !r.Raises?
    ensures r.NoCharts? <==> data.None? || |data.value| == 0
    ensures r.Drawn? ==> r.charts.statusCounts == StatusCounts(Statuses(data.value))
    ensures r.Drawn? && r.charts.metrics.peakHour.None? ==>
              r.charts.metrics == Metrics(None, None, None) && r.charts.hourly.None?
              && exists i :: 0 <= i < |data.value| && parseHour(data.value[i].departureTime).None?
    ensures data.Some? && |data.value| > 0
            && (exists i :: 0 <= i < |data.value| && parseHour(data.value[i].departureTime).None?)
            ==> r == Drawn(ChartData(None, StatusCounts(Statuses(data.value)), Metrics(None, None, None)))
    ensures CreateVisualizations(data, parseHour).Drawn? ==> r == CreateVisualizations(data, parseHour)
  {
    if data.None? || |data.value| == 0 then NoCharts
    else
      match Insights.ParseHours(DepartureTimes(data.value), parseHour)
      case None => Drawn(ChartData(None, StatusCounts(Statuses(data.value)), Metrics(None, None, None)))
      case Some(hours) => Drawn(ChartsOf(data.value, hours))
  }

  /** The chart's modal hour is the report's peak hour: both take the lowest of the busiest hours. */
  lemma ChartPeakIsReportPeak(data: Option<seq<FlightRecord>>, parseHour: string -> Option<Hour>)
    requires CreateVisualizations(data, parseHour).Drawn?
    ensures Insights.GenerateInsights(data, parseHour).Report?
    ensures CreateVisualizations(data, parseHour).charts.metrics.peakHour
         == Some(Insights.GenerateInsights(data, parseHour).performance.peakHour)
  {
    var hours := Insights.ParseHours(DepartureTimes(data.value), parseHour).value;
    var hist := BuildHistogram(hours);
    var p := CreateVisualizations(data, parseHour).charts.metrics.peakHour.value;
    var q := Insights.GenerateInsights(data, parseHour).performance.peakHour;
    PeakUnique(hist, p);
    PeakUnique(hist, q);
  }

  /**
   * The chart's airline and the report's top airline fly equally often, and
   * are the same airline when no other airline ties with them.
   */
  lemma ChartAirlineIsATopAirline(rs: seq<FlightRecord>)
    requires |rs| > 0
    ensures Count(Airlines(rs), SmallestMode(Airlines(rs))) == Count(Airlines(rs), Market.TopAirlineName(Airlines(rs)))
    ensures (forall a :: a in Airlines(rs) && a != Market.TopAirlineName(Airlines(rs)) ==>
               Count(Airlines(rs), a) < Count(Airlines(rs), Market.TopAirlineName(Airlines(rs))))
            ==> SmallestMode(Airlines(rs)) == Market.TopAirlineName(Airlines(rs))
  {
  }
}
