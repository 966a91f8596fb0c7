/**
 * The two record shapes of the flight pipeline: the provider's raw flight object
 * and the fixed-shape flight record the rest of the pipeline works on.
 */
module Records {
  import opened Wrappers

  /** A nested provider object (`flight`, `departure`, `arrival`, `airline`): string keys to string values. */
  type RawObject = map<string, string>

  /**
   * One element of the provider's `data` array. Each nested object, and the
   * top-level `flight_status` string, may be absent (`None`).
   */
  datatype RawFlight = RawFlight(
    flight: Option<RawObject>,
    departure: Option<RawObject>,
    arrival: Option<RawObject>,
    airline: Option<RawObject>,
    flightStatus: Option<string>)

  /** A value stored under a top-level key of the provider response. */
  datatype PayloadValue =
    | FlightList(flights: seq<RawFlight>)  // a JSON array of flight objects
    | NotAList                             // null, a number, a boolean, or a non-empty string or object

  /** The decoded provider response: `None` when the fetch failed, else its top-level keys. */
  type Payload = Option<map<string, PayloadValue>>

  /** The normalised record: every field always holds a string. */
  datatype FlightRecord = FlightRecord(
    flightNumber: string,
    departureAirport: string,
    departureTime: string,
    arrivalAirport: string,
    arrivalTime: string,
    airline: string,
    status: string)

  /** Placeholder for a missing nested field. */
  const Missing: string := "N/A"

  /** Placeholder for a missing flight status. */
  const UnknownStatus: string := "unknown"

  /** The status column of a record sequence. */
  function Statuses(rs: seq<FlightRecord>): (r: seq<string>)
    ensures |r| == |rs|
    ensures forall i :: 0 <= i < |rs| ==> r[i] == rs[i].status
  {
    seq(|rs|, i requires 0 <= i < |rs| => rs[i].status)
  }

  /** The airline column of a record sequence. */
  function Airlines(rs: seq<FlightRecord>): (r: seq<string>)
    ensures |r| == |rs|
    ensures forall i :: 0 <= i < |rs| ==> r[i] == rs[i].airline
  {
    seq(|rs|, i requires 0 <= i < |rs| => rs[i].airline)
  }

  /** The departure-time column of a record sequence. */
  function DepartureTimes(rs: seq<FlightRecord>): (r: seq<string>)
    ensures |r| == |rs|
    ensures forall i :: 0 <= i < |rs| ==> r[i] == rs[i].departureTime
  {
    seq(|rs|, i requires 0 <= i < |rs| => rs[i].departureTime)
  }
}
