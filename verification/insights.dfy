/**
 * `generate_insights`: the structured report built from the normalised
 * records, and its two sentinel reports. Departure-time parsing is a
 * parameter (`parseHour`), `None` for a string the parser rejects.
 */
module Insights {
  import opened Wrappers
  import opened Records
  import opened Tally
  import opened Hours
  import opened Judgments
  import opened Market

  datatype Overview = Overview(totalFlights: nat, demandLevel: Demand)

  /** Shares are counts over the flight total; `onTimePerformance` is `1 - delayed - cancelled`. */
  datatype Performance = Performance(
    onTimePerformance: Share,
    cancellationRate: Share,
    peakHour: Hour,
    offPeakHour: Hour)

  /** The suggestion templates, each with the values it is filled in with. */
  datatype Suggestion =
    | BookOffPeak(hour: Hour)
    | FlexibleBooking
    | EarlyMorning
    | EveningAvailability
    | PreferAirline(name: string, share: Share)
    | CompareAlternatives
    | LimitedOptions
    | CancellationRiskIs(risk: Risk, share: Share)
    | ConsiderInsurance
    | RiskMinimal

  datatype Group = Group(category: string, suggestions: seq<Suggestion>)

  datatype Prediction =
    | ExpectedDemand(level: Demand, total: nat)
    | DelaysAtPeak
    | StableOperations
    | BookAhead

  datatype InsightsReport =
    | NoDataReport
    | ErrorReport
    | Report(
        overview: Overview,
        performance: Performance,
        market: MarketShare,
        recommendations: seq<Group>,
        predictive: seq<Prediction>)

  /** The suggestions whose text has no interpolated value, word for word. */
  function FixedText(s: Suggestion): (t: Option<string>)
    ensures t.None? <==> s.BookOffPeak? || s.PreferAirline? || s.CancellationRiskIs?
  {
    match s
    case FlexibleBooking => Some("Flexible booking recommended")
    case EarlyMorning => Some("Consider early morning flights for higher reliability")
    case EveningAvailability => Some("Evening flights show more availability")
    case CompareAlternatives => Some("Compare alternatives for potential better pricing")
    case LimitedOptions => Some("Limited airline options available")
    case ConsiderInsurance => Some("Consider travel insurance")
    case RiskMinimal => Some("Cancellation risk appears minimal")
    case _ => None
  }

  /** The predictions whose text has no interpolated value, word for word. */
  function FixedPrediction(p: Prediction): (t: Option<string>)
    ensures t.None? <==> p.ExpectedDemand?
  {
    match p
    case DelaysAtPeak => Some("Higher probability of delays during peak hours")
    case StableOperations => Some("Generally stable operations expected")
    case BookAhead => Some("Best pricing typically available 3-6 weeks before departure")
    case _ => None
  }

  /** The fixed texts tell the suggestions apart: two suggestions with the same text are the same. */
  lemma FixedTextsDistinct(a: Suggestion, b: Suggestion)
    requires FixedText(a).Some? && FixedText(a) == FixedText(b)
    ensures a == b
  {
  }

  /** The `overview` string of a sentinel report. */
  function SentinelOverview(r: InsightsReport): (s: string)
    requires !r.Report?
    ensures r.NoDataReport? ==> s == "No flight data available for analysis"
    ensures r.ErrorReport? ==> s == "Analysis unavailable due to data processing error"
    ensures |s| > 0
  {
    if r.NoDataReport? then "No flight data available for analysis"
    else "Analysis unavailable due to data processing error"
  }

  /** The overview string tells the two sentinel reports apart. */
  lemma SentinelsDistinct(r: InsightsReport, q: InsightsReport)
    requires !r.Report? && !q.Report?
    ensures SentinelOverview(r) == SentinelOverview(q) <==> r == q
  {
  }

  /** `recommendations`, which a sentinel report carries as an empty list. */
  function RecommendationsOf(r: InsightsReport): seq<Group> {
    if r.Report? then r.recommendations else []
  }

  /** `pd.to_datetime(...).dt.hour` over the departure column: all hours, or `None` if any string fails. */
  function ParseHours(times: seq<string>, parseHour: string -> Option<Hour>): (r: Option<seq<Hour>>)
    ensures r.Some? <==> forall i :: 0 <= i < |times| ==> parseHour(times[i]).Some?
    ensures r.Some? ==> |r.value| == |times|
    ensures r.Some? ==> forall i :: 0 <= i < |times| ==> r.value[i] == parseHour(times[i]).value
  {
    if |times| == 0 then Some([])
    else
      match parseHour(times[0])
      case None => None
      case Some(h) =>
        match ParseHours(times[1..], parseHour)
        case None => None
        case Some(hs) => Some([h] + hs)
  }

  /** The three recommendation groups; each branch is picked by one judgment. */
  function Recommendations(
    demand: Demand, peak: Hour, offPeak: Hour, market: MarketShare, severalAirlines: bool,
    risk: Risk, cancelled: Share): (gs: seq<Group>)
    ensures |gs| == 3
    ensures gs[0].category == "Booking Strategy" && gs[1].category == "Airline Selection"
         && gs[2].category == "Risk Management"
    ensures forall i :: 0 <= i < 3 ==> |gs[i].suggestions| == 2
    ensures gs[0].suggestions[0] == BookOffPeak(offPeak) <==> demand == High
    ensures demand != High ==> gs[0].suggestions[0] == FlexibleBooking
    ensures gs[0].suggestions[1] == EarlyMorning <==> peak > 12
    ensures peak <= 12 ==> gs[0].suggestions[1] == EveningAvailability
    ensures gs[1].suggestions[0] == PreferAirline(market.top.name, market.top.share)
    ensures gs[1].suggestions[1] == CompareAlternatives <==> severalAirlines
    ensures !severalAirlines ==> gs[1].suggestions[1] == LimitedOptions
    ensures gs[2].suggestions[0] == CancellationRiskIs(risk, cancelled)
    ensures gs[2].suggestions[1] == ConsiderInsurance <==> risk != LowRisk
    ensures risk == LowRisk ==> gs[2].suggestions[1] == RiskMinimal
  {
    [ Group("Booking Strategy", [
        if demand == High then BookOffPeak(offPeak) else FlexibleBooking,
        if peak > 12 then EarlyMorning else EveningAvailability]),
      Group("Airline Selection", [
        PreferAirline(market.top.name, market.top.share),
        if severalAirlines then CompareAlternatives else LimitedOptions]),
      Group("Risk Management", [
        CancellationRiskIs(risk, cancelled),
        if risk == MediumRisk || risk == HighRisk then ConsiderInsurance else RiskMinimal]) ]
  }

  /** The three predictive lines; the second depends on whether the peak is a rush hour. */
  function Predictions(demand: Demand, total: nat, peak: Hour): (ps: seq<Prediction>)
    ensures |ps| == 3 && ps[0] == ExpectedDemand(demand, total) && ps[2] == BookAhead
    ensures ps[1] == DelaysAtPeak <==> peak in {7, 8, 17, 18}
    ensures ps[1] != DelaysAtPeak ==> ps[1] == StableOperations
  {
    [ExpectedDemand(demand, total), if peak in [7, 8, 17, 18] then DelaysAtPeak else StableOperations, BookAhead]
  }

  /** The body of the `try` block, once every departure hour has parsed. */
  function Analyse(rs: seq<FlightRecord>, hours: seq<Hour>): (r: InsightsReport)
    requires |rs| > 0 && |hours| == |rs|
    ensures r.Report?
    ensures r.overview == Overview(|rs|, DemandLevel(|rs|))
    ensures r.performance.cancellationRate == ShareOf(Statuses(rs), "cancelled")
    ensures r.performance.onTimePerformance.whole == |rs|
    ensures r.performance.onTimePerformance.part
         == |rs| - Count(Statuses(rs), "delayed") - Count(Statuses(rs), "cancelled")
    ensures IsFirstPeak(BuildHistogram(hours), r.performance.peakHour)
    ensures IsFirstTrough(BuildHistogram(hours), r.performance.offPeakHour)
    ensures r.market == MarketShareOf(Airlines(rs))
    ensures r.recommendations == Recommendations(
              DemandLevel(|rs|), r.performance.peakHour, r.performance.offPeakHour, r.market,
              |Distinct(Airlines(rs))| > 1,
              CancellationRisk(Count(Statuses(rs), "cancelled"), |rs|), r.performance.cancellationRate)
    ensures r.predictive == Predictions(DemandLevel(|rs|), |rs|, r.performance.peakHour)
  {
    var n := |rs|;
    var statuses := Statuses(rs);
    var dist := Distribution(statuses);
    var cancelled := ShareOrZero(dist, "cancelled", n);
    var delayed := ShareOrZero(dist, "delayed", n);
    ShareOrZeroIsShare(statuses, "cancelled");
    ShareOrZeroIsShare(statuses, "delayed");
    CountPair(statuses, "delayed", "cancelled");
    var hist := BuildHistogram(hours);
    PresentIffDeparts(hours, hours[0]);
    var peak := PeakHour(hist);
    var offPeak := OffPeakHour(hist);
    var airlines := Airlines(rs);
    var market := MarketShareOf(airlines);
    var demand := DemandLevel(n);
    var risk := CancellationRisk(cancelled.part, n);
    Report(
      Overview(n, demand),
      Performance(Share(n - delayed.part - cancelled.part, n), cancelled, peak, offPeak),
      market,
      Recommendations(demand, peak, offPeak, market, |Distinct(airlines)| > 1, risk, cancelled),
      Predictions(demand, n, peak))
  }

  /** `generate_insights`: never raises; an empty input or an unparseable departure gives a sentinel. */
  function GenerateInsights(data: Option<seq<FlightRecord>>, parseHour: string -> Option<Hour>): (r: InsightsReport)
    ensures r.NoDataReport? <==> data.None? || |data.value| == 0
    ensures r.ErrorReport? <==>
              (data.Some? && |data.value| > 0
               && exists i :: 0 <= i < |data.value| && parseHour(data.value[i].departureTime).None?)
    ensures !r.Report? ==> RecommendationsOf(r) == []
    ensures r.Report? ==> r == Analyse(data.value, ParseHours(DepartureTimes(data.value), parseHour).value)
  {
    if data.None? || |data.value| == 0 then NoDataReport
    else
      var rs := data.value;
      var times := DepartureTimes(rs);
      var parsed := ParseHours(times, parseHour);
      assert parsed.None? <==> exists i :: 0 <= i < |rs| && parseHour(rs[i].departureTime).None?;
      if parsed.None? then ErrorReport
      else Analyse(rs, parsed.value)
  }

  /** The on-time share lies in [0, 1]: delayed and cancelled are disjoint statuses. */
  lemma OnTimeWithinBounds(rs: seq<FlightRecord>, hours: seq<Hour>)
    requires |rs| > 0 && |hours| == |rs|
    ensures 0 <= Analyse(rs, hours).performance.onTimePerformance.part <= |rs|
    ensures (Analyse(rs, hours).performance.onTimePerformance.part as real) / (|rs| as real)
         == 1.0 - (Count(Statuses(rs), "delayed") as real) / (|rs| as real)
                - (Count(Statuses(rs), "cancelled") as real) / (|rs| as real)
  {
    var st := Statuses(rs);
    var d, c := Count(st, "delayed"), Count(st, "cancelled");
    var p := Analyse(rs, hours).performance.onTimePerformance.part;
    assert p == |rs| - d - c;
    CountPair(st, "delayed", "cancelled");
    var q := OnTimeNumerator(d, c, |rs|);
    assert q == p;
  }

  /** The report always has the fixed three groups of two suggestions and three predictions. */
  lemma ReportShape(data: Option<seq<FlightRecord>>, parseHour: string -> Option<Hour>)
    requires GenerateInsights(data, parseHour).Report?
    ensures |GenerateInsights(data, parseHour).recommendations| == 3
    ensures forall i :: 0 <= i < 3 ==> |GenerateInsights(data, parseHour).recommendations[i].suggestions| == 2
    ensures |GenerateInsights(data, parseHour).predictive| == 3
  {
  }

  /** The Airline Selection group suggests comparing alternatives exactly when several airlines fly. */
  lemma CompareIffSeveralAirlines(rs: seq<FlightRecord>, hours: seq<Hour>)
    requires |rs| > 0 && |hours| == |rs|
    ensures Analyse(rs, hours).recommendations[1].suggestions[1] == CompareAlternatives
        <==> |MarketShareOf(Airlines(rs)).others| > 0
  {
    OthersEmptyIffOneAirline(Airlines(rs));
  }

  /** Travel insurance is suggested exactly when at least a tenth of the flights are cancelled. */
  lemma InsuranceIffTenthCancelled(rs: seq<FlightRecord>, hours: seq<Hour>)
    requires |rs| > 0 && |hours| == |rs|
    ensures Analyse(rs, hours).recommendations[2].suggestions[1] == ConsiderInsurance
        <==> 10 * Count(Statuses(rs), "cancelled") >= |rs|
  {
    ShareThresholds(Count(Statuses(rs), "cancelled"), |rs|);
  }

  /** Ten flights of which two are cancelled: moderate demand and, at exactly 0.2, high risk. */
  lemma TwoOfTenCancelled(rs: seq<FlightRecord>, hours: seq<Hour>)
    requires |rs| == 10 && |hours| == 10
    requires Count(Statuses(rs), "cancelled") == 2
    ensures Analyse(rs, hours).overview.demandLevel == Moderate
    ensures Analyse(rs, hours).recommendations[2].suggestions[0] == CancellationRiskIs(HighRisk, Share(2, 10))
    ensures Analyse(rs, hours).recommendations[2].suggestions[1] == ConsiderInsurance
  {
    ShareThresholds(2, 10);
  }

  /** With a single airline the top airline holds the whole market and there are no runner-ups. */
  lemma SingleAirline(rs: seq<FlightRecord>, hours: seq<Hour>, a: string)
    requires |rs| > 0 && |hours| == |rs|
    requires forall i :: 0 <= i < |rs| ==> rs[i].airline == a
    ensures Analyse(rs, hours).market.top.name == a
    ensures Analyse(rs, hours).market.top.share == Share(|rs|, |rs|)
    ensures Analyse(rs, hours).market.others == []
    ensures Analyse(rs, hours).recommendations[1].suggestions[1] == LimitedOptions
  {
    var airlines := Airlines(rs);
    DistinctConst(airlines, a);
    OthersEmptyIffOneAirline(airlines);
    CountAll(airlines, a);
  }
}
