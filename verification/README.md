# Flight analytics pipeline — Dafny model

This project models the analytics core of a small flight-tracker web
application (`app.py`). The core has three parts:

- **Normaliser** (`process_flight_data`). It turns the flight provider's JSON
  response into fixed-shape records with seven string fields. A missing field
  becomes `"N/A"`, and a missing status becomes `"unknown"`.
- **Insights** (`generate_insights`). It computes these values:
  - status shares;
  - the hourly departure histogram, with its peak and off-peak hours;
  - the airline ranking, with the top airline and up to two runner-ups;
  - the demand-level and cancellation-risk judgments;
  - the on-time share.

  From these it assembles the fixed three-group recommendation structure. An
  empty input or an unparseable departure time gives a sentinel report
  instead.
- **Chart metrics** (the metric block of `create_visualizations`). These are
  the modal departure hour, the modal airline, and the on-time rate as a
  percentage rounded half to even.

Shares are kept exact, as a count over the total (`Tally.Share`). The
source's float thresholds then become integer comparisons:
- `cancelled/n < 0.1` becomes `10*c < n`;
- `< 0.2` becomes `5*c < n`.

`Judgments.CancellationRisk` proves that these integer comparisons agree with
the comparisons on real-valued shares.

Departure-time parsing (`pd.to_datetime(...).dt.hour`) is a parameter,
`parseHour: string -> Option<Hour>`. `None` stands for a string pandas
rejects. The model has no I/O, clock or randomness.

Modules, in dependency order:
- `Wrappers`: `Option`.
- `Records`: the raw and normalised record types.
- `Normalizer`: `process_flight_data`.
- `Tally`: the pandas `value_counts` and `mode` primitives.
- `Hours`: the histogram and the peak and off-peak hours.
- `Judgments`: demand, risk and on-time.
- `Market`: the airline ranking.
- `Insights`: `generate_insights`.
- `Charts`: `create_visualizations`.

### Source behaviour worth noting

- If the response's `data` value is not a list (for example `null`),
  `process_flight_data` raises in its loop. This is
  `Normalizer.Processed.Raises`.
- Two cancellations out of ten is a share of exactly 0.2, and the `< 0.2`
  test at app.py:97 makes that risk `"high"`. See `Judgments.TwoInTenIsHigh`
  and `Insights.TwoOfTenCancelled`.
- The peak and off-peak hours can be equal even when several distinct hours
  are present: they coincide exactly when every present hour has the same
  count. See `Hours.PeakIsOffPeakIffFlat` and `Hours.TwoEqualHoursCoincide`.
- Assuming a stable sort in `value_counts`: among airlines with equal counts,
  the report's top airline is the one that appears first in the records. See
  `Tally.DistinctFirstAppearance`, `Market.TopAirlineName` and
  `Market.FirstRecordWinsTies`.
- The chart's airline is `mode()[0]`, the smallest name among the most
  frequent airlines. It agrees with the report's top airline whenever the
  maximum is unique.
- In the model, the on-time numerator `n - delayed - cancelled` is never
  negative: every record has one status, so the two counts together are at
  most the total (`Insights.OnTimeWithinBounds`). The source's float
  subtraction can fall just below zero; see "Left out".
- If a departure time does not parse, `create_visualizations` raises (see
  Findings).

## Model

| member | source | states |
|---|---|---|
| `Normalizer.Nested` | app.py:46-51 | a two-level lookup is the nested value when the outer object and the inner key are both present, otherwise `"N/A"` |
| `Normalizer.Truthy` | app.py:40 | `not data` on the decoded response: falsy exactly for None and the empty object |
| `Normalizer.NormaliseFlight` | app.py:45-53 | each of the six string fields is its own nested lookup with default `"N/A"`; status is `flight_status` when present, otherwise `"unknown"` |
| `Normalizer.NormaliseAll` | app.py:43-55 | exactly one record per raw flight, same order, record i derived from flight i alone |
| `Normalizer.ProcessFlightData` | app.py:38-55 | None iff the response is falsy or has no `data` key; raises iff `data` is not a list; otherwise one record per element, in order |
| `Normalizer.NormaliseToRaw` | app.py:45-53 | a record reshaped as a provider object normalises back to itself |
| `Normalizer.ProcessIdempotent` | app.py:38-55 | re-running the normaliser on its own output, reshaped as a response, returns that output unchanged |
| `Normalizer.EmptyFlightDefaults` | app.py:46-52 | a flight with nothing in it becomes six `"N/A"` fields and status `"unknown"` |
| `Tally.Distribution` | app.py:70 | `value_counts(normalize=True)` has a key for every value present and only those, each with a positive share |
| `Tally.ShareOrZeroIsShare` | app.py:97 | `status_counts.get('cancelled', 0)` is always the cancelled count over the total, zero when no flight is cancelled |
| `Tally.ShareOrZero` | app.py:97 | `.get(key, 0)` on the share map: the stored share when the key is present, otherwise share zero over the same total |
| `Tally.SumOfDistinctCounts` | app.py:70 | the per-status counts add up to the number of flights: the shares sum to one |
| `Tally.Ranked` | app.py:80 | the `value_counts` order is a permutation of the distinct values, with counts non-increasing, and its head is the first value of maximal count |
| `Tally.RankedStable` | app.py:80 | among values with equal counts the ranking keeps the order of its input list; for the airline column that list is `Distinct`, so ties stay in order of first appearance |
| `Tally.Distinct` | app.py:80 | the distinct values, each once, exactly those that occur: the index of `value_counts` before ranking, whose length is `len(airline_dist)` |
| `Tally.DistinctFirstAppearance` | app.py:80 | the distinct values are in order of first appearance: every occurrence of a later one comes after an occurrence of each earlier one |
| `Tally.SmallestMode` | app.py:239 | `mode()[0]` occurs in the column with maximal count, and is the smallest such value in code-point order |
| `Tally.SmallestModeUnique` | app.py:239 | only one value can be both maximal and smallest among the maximal ones |
| `Hours.BuildHistogram` | app.py:75 | the hourly histogram holds, for each hour, the number of departures in that hour |
| `Hours.PresentIffDeparts` | app.py:75 | an hour appears in the histogram exactly when some flight departs in it |
| `Hours.PeakBelow` | app.py:75-76 | the ascending `idxmax` scan returns a present hour of maximal count, with no present hour of equal count before it |
| `Hours.TroughBelow` | app.py:75-77 | the ascending `idxmin` scan returns a present hour of minimal count, with no present hour of equal count before it |
| `Hours.PeakHour` | app.py:76 | the peak hour is in 0..23, present, of maximal count, and the lowest such hour |
| `Hours.OffPeakHour` | app.py:77 | the off-peak hour is in 0..23, present, of minimal count among present hours, and the lowest such hour |
| `Hours.PeakUnique` | app.py:76 | the lowest-hour tie rule determines the peak hour uniquely |
| `Hours.OffPeakUnique` | app.py:77 | the lowest-hour tie rule determines the off-peak hour uniquely |
| `Hours.PeakIsOffPeakIffFlat` | app.py:75-77 | peak and off-peak coincide if and only if every present hour has the same count |
| `Hours.SingleHour` | app.py:75-77 | when all flights leave in one hour, peak and off-peak are both that hour |
| `Hours.TwoEqualHoursCoincide` | app.py:75-77 | hours 3 and 5 with one departure each give peak = off-peak = 3 |
| `Judgments.DemandLevel` | app.py:96 | `"high"` iff more than 15 flights, `"moderate"` iff 9 to 15, `"low"` iff at most 8 |
| `Judgments.CancellationRisk` | app.py:97 | low iff the cancelled share is below 0.1, medium iff it is in [0.1, 0.2), high iff it is at least 0.2, with the integer tests proved equal to the real-valued ones |
| `Judgments.ShareThresholds` | app.py:97 | `c/n < 0.1` iff `10c < n`, and `c/n < 0.2` iff `5c < n` |
| `Judgments.DemandMonotone` | app.py:96 | more flights never lower the demand level |
| `Judgments.RiskMonotone` | app.py:97 | more cancellations out of the same total never lower the risk |
| `Judgments.TwoInTenIsHigh` | app.py:96-97 | 2 cancellations in 10 flights is high risk, and 10 flights is moderate demand |
| `Judgments.LabelsAsInSource` | app.py:96-97 | the demand and risk labels are the source's strings under the source's thresholds, and the insurance test on the label (`in ['medium', 'high']`, app.py:144) holds exactly for risk other than low |
| `Judgments.OnTimeNumerator` | app.py:108 | the on-time numerator over the total equals `1 - delayed/n - cancelled/n` |
| `Market.AirlineRanking` | app.py:80 | the airline distribution lists each distinct airline once, with counts non-increasing |
| `Market.RankingTiesByFirstAppearance` | app.py:80 | of two airlines with equal counts, the one ranked first is seen first in the records: every occurrence of the other comes after an occurrence of it |
| `Market.TopAirlineName` | app.py:81 | the top airline flies and has the maximal count, and every occurrence of any airline tying with it comes after an occurrence of the top airline |
| `Market.FirstRecordWinsTies` | app.py:80-81 | when the first record's airline is among the most frequent, it is the top airline |
| `Market.RunnerUps` | app.py:119-123 | `nlargest(3)` without the top airline: at most two entries, distinct, never the top airline, as many as the other airlines up to two, in non-increasing count order, and no airline left out flies more often than any of them |
| `Market.MarketShareOf` | app.py:113-124 | the top entry's share is its count over the total, its `flights` field is that same share (not a count), and each runner-up carries its own share |
| `Market.OthersEmptyIffOneAirline` | app.py:119-123 | there are no runner-ups exactly when a single airline flies |
| `Market.OthersExcludeTop` | app.py:119-123 | at most two runner-ups, none of them the top airline |
| `Insights.ParseHours` | app.py:73-74 | the departure column parses iff every entry parses, and then hour i is the parse of departure i |
| `Insights.Recommendations` | app.py:125-147 | three groups, in order Booking Strategy, Airline Selection, Risk Management, each of two suggestions. The off-peak booking tip appears iff demand is high, and flexible booking otherwise; the early-morning tip iff the peak hour is after 12, and evening availability otherwise; the compare-alternatives tip iff several airlines fly, and limited options otherwise; the insurance tip iff risk is medium or high, and minimal risk otherwise |
| `Insights.FixedText` | app.py:129-144 | the suggestion texts, word for word; exactly the off-peak, preferred-airline and cancellation-risk tips have no fixed text, since they interpolate values |
| `Insights.FixedTextsDistinct` | app.py:129-144 | no two different fixed suggestions share a text |
| `Insights.FixedPrediction` | app.py:149-152 | the prediction texts, word for word; only the expected-demand line interpolates values |
| `Insights.SentinelOverview` | app.py:59-63 | the `overview` string of each sentinel report, word for word: the no-data text of app.py:61 and the error text of app.py:160 |
| `Insights.SentinelsDistinct` | app.py:157-162 | the no-data overview (app.py:61) and the error overview (app.py:160) differ, so the string tells the two sentinels apart |
| `Insights.Predictions` | app.py:148-152 | three predictions; the second warns of delays iff the peak hour is 7, 8, 17 or 18 |
| `Insights.Analyse` | app.py:66-155 | the report's totals, demand level, cancellation and on-time shares, peak and off-peak hours (by the lowest-hour tie rule), market block and recommendation branches follow from the records and their departure hours |
| `Insights.GenerateInsights` | app.py:57-162 | no-data sentinel iff the input is None or empty; error sentinel iff some departure fails to parse; sentinels carry no recommendations; otherwise the full report |
| `Insights.OnTimeWithinBounds` | app.py:108 | the on-time numerator lies between 0 and the total, and over the total it equals `1 - delayed share - cancelled share` |
| `Insights.ReportShape` | app.py:125-152 | every full report has three groups of two suggestions and three predictions |
| `Insights.CompareIffSeveralAirlines` | app.py:137 | the second Airline Selection suggestion compares alternatives iff there are runner-ups, that is, more than one airline |
| `Insights.InsuranceIffTenthCancelled` | app.py:144 | travel insurance is suggested iff at least a tenth of the flights are cancelled |
| `Insights.TwoOfTenCancelled` | app.py:96-144 | ten flights with two cancelled: moderate demand, high risk at share 2/10, insurance suggested |
| `Insights.SingleAirline` | app.py:80-137 | with one airline: it is the top airline with the whole market, there are no runner-ups, and the limited-options text is shown |
| `Charts.RoundHalfEven` | app.py:240 | Python `round`: the result is within half a step of the ratio, and an exact tie goes to the even integer |
| `Charts.RoundHalfEvenUnique` | app.py:240 | exactly one integer satisfies the nearest/ties-to-even conditions |
| `Charts.OnTimeCount` | app.py:240 | the scheduled-or-landed count never exceeds the number of flights |
| `Charts.OnTimeRate` | app.py:240 | the rate lies in 0..100, is within half a percentage point of `100*k/n` with k the scheduled or landed flights, and on an exact half goes to the even integer, as Python's `round` does |
| `Charts.OneInEightRoundsToEven` | app.py:240 | one on-time flight in eight, exactly 12.5 per cent, rounds to 12 |
| `Charts.StatusCounts` | app.py:280 | the status chart has one positive count per status present, equal to that status's number of flights |
| `Charts.ChartsOf` | app.py:233-240 | the metrics are the lowest busiest hour, the smallest modal airline and the rounded on-time rate |
| `Charts.CreateVisualizations` | app.py:217-254 | None iff the input is None or empty; raises iff some departure fails to parse; otherwise the charts and metrics |
| `Charts.PlaceholderDepartureRaises` | app.py:236-254 | a single record whose departure is `"N/A"`, rejected by the parser, makes the function raise |
| `Charts.CreateVisualizationsGuarded` | app.py:241-247 | the intended version never raises: the metrics are all None with no hourly chart exactly when some departure does not parse, and the status counts are kept; otherwise it agrees with the as-written version |
| `Charts.ChartPeakIsReportPeak` | app.py:76-238 | whenever the charts are drawn, the chart's modal hour equals the report's peak hour |
| `Charts.ChartAirlineIsATopAirline` | app.py:81-239 | the chart's modal airline flies as often as the report's top airline, and is that airline when the maximum is unique |

## Left out

- `get_flight_data` and `openrecruiter_analysis` (app.py:16-36, 203-215): outbound HTTP. The fetch result is the `Payload` parameter, whose `None` stands for a failed request.
- The Flask routes `index`, `analyze` and `api_flights` (app.py:327-368): web plumbing and upper-casing of query parameters.
- All matplotlib drawing and base64 encoding (app.py:222-226, 252-325): rendering side effects. The model keeps only the data the two charts are drawn from (`Charts.ChartData.hourly`, `Charts.ChartData.statusCounts`).
- `pd.to_datetime` itself: a parameter `parseHour` returning the hour or `None`. Mixed time zones and pandas' format inference are not modelled.
- The `time_period` string (app.py:103), the `duration_analysis` text (app.py:84-93), and every `:.1%` percentage string. These are float and `strftime` formatting. The report carries the shares and hours they are formatted from. `Insights.FixedText` and `Insights.FixedPrediction` give the suggestion and prediction texts with no interpolated value.
- Insights.ParseHours: `parseHour` gives each departure string an hour or a rejection. `pd.to_datetime` has a third outcome: it turns `""`, `"NaT"` or `"nan"` into NaT, whose `dt.hour` is NaN. In the source such a record still counts in `total_flights` but is left out of `hourly_dist` (app.py:73-75), and no error sentinel results unless every departure is NaT, when `idxmax` on the empty series raises. The model cannot express a record without an hour, so it does not cover these inputs.
- Charts.ChartsOf: for the same reason, a NaT departure is not modelled in the charts. The source leaves such a record out of `mode()`, and when every departure is NaT the guard at app.py:238 sets `peak_hour` to None while the other metrics are still computed.
- `local_analysis` (app.py:164-201): string assembly around the same `value_counts`/`mode` primitives.
- `config.py`: environment loading and process exit.
- Raw values of the wrong JSON type: a string or `null` where a nested object is expected, or `null` as a nested value. The source raises or stores None there. `Records.RawFlight` types the provider schema, so it cannot express them.
- An empty string or empty object under `data`: the source's loop runs zero times and returns `[]`. `Records.PayloadValue.NotAList` treats every non-list as raising.
- Charts.OnTimeRate: rounds the exact ratio `100*k/n`. The source computes `(k/n)*100` in floating point first. Within the 100-record page limit this differs only at k/n = 23/40 and 46/80: the float gives 57, the exact half-to-even rule gives 58.
- Insights.Analyse: the on-time share is the exact count `n - delayed - cancelled` over n, never negative. The source subtracts two rounded float shares from 1, which can differ from it in the last bit and can even fall below zero: with 5 flights, 4 delayed and 1 cancelled, `1 - 0.8 - 0.2` is about `-5.55e-17` in double precision.
- Market.AirlineRanking: equal counts are ranked in order of first appearance. This assumes pandas' descending sort in `value_counts` is stable, which numpy does not document for its default sort; vectorised sorts can reorder ties. The tie clauses of Market.TopAirlineName, Market.RankingTiesByFirstAppearance, Market.FirstRecordWinsTies and Tally.RankedStable rest on the same assumption.

## Findings

| source | as written | input that shows it | evidently intended | confidence | as-written member | corrected member |
|---|---|---|---|---|---|---|
| app.py:236-254 | when `pd.to_datetime` fails, the `except` sets every metric to None and carries on to the hourly plot. That plot reads `df['hour']`, a column never created, so a KeyError escapes the function | one record whose `departure_time` is `"N/A"` (`Charts.PlaceholderDepartureRaises`) | return the charts with None metrics and no hourly plot, never raising | high; not executed | `Charts.CreateVisualizations` | `Charts.CreateVisualizationsGuarded` |

The float analysis under Left out assumes at most 100 records, the
provider's page size (app.py:21). The integer thresholds (`10*c < n`,
`5*c < n`) match Python's float comparisons for far larger inputs too. Unless
`c/n` is exactly 0.1 or 0.2, it differs from them by at least `1/(10n)`,
which is far above the rounding error of one float division.
