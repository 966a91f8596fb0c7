/** `process_flight_data`: provider payload to fixed-shape flight records. */
module Normalizer {
  import opened Wrappers
  import opened Records

  /** What `process_flight_data` hands back: None, a list of records, or an exception. */
  datatype Processed =
    | NoData                                // the function returns None
    | Flights(records: seq<FlightRecord>)   // the normalised list
    | Raises                                // iterating `data['data']` raises

  /** Python truthiness of the decoded response: None and `{}` are falsy. */
  predicate Truthy(p: Payload): (b: bool)
    ensures !b <==> p == None || p == Some(map[])
  {
    p.Some? && |p.value| > 0
  }

  /** `obj.get(key, 'N/A')` after `flight.get(outer, {})`: the nested value, or the placeholder. */
  function Nested(obj: Option<RawObject>, key: string): (r: string)
    ensures obj.Some? && key in obj.value ==> r == obj.value[key]
    ensures !(obj.Some? && key in obj.value) ==> r == Missing
  {
    match obj
    case None => Missing
    case Some(m) => if key in m then m[key] else Missing
  }

  /** One raw flight to one record; the seven fields read independently of each other. */
  function NormaliseFlight(f: RawFlight): (r: FlightRecord)
    ensures r.flightNumber == Nested(f.flight, "number")
    ensures r.departureAirport == Nested(f.departure, "airport")
    ensures r.departureTime == Nested(f.departure, "scheduled")
    ensures r.arrivalAirport == Nested(f.arrival, "airport")
    ensures r.arrivalTime == Nested(f.arrival, "scheduled")
    ensures r.airline == Nested(f.airline, "name")
    ensures r.status == f.flightStatus.GetOr(UnknownStatus)
  {
    FlightRecord(
      Nested(f.flight, "number"),
      Nested(f.departure, "airport"),
      Nested(f.departure, "scheduled"),
      Nested(f.arrival, "airport"),
      Nested(f.arrival, "scheduled"),
      Nested(f.airline, "name"),
      f.flightStatus.GetOr(UnknownStatus))
  }

  /** The loop of `process_flight_data`: one record per flight, in order. */
  function NormaliseAll(fs: seq<RawFlight>): (r: seq<FlightRecord>)
    ensures |r| == |fs|
    ensures forall i :: 0 <= i < |fs| ==> r[i] == NormaliseFlight(fs[i])
  {
    if |fs| == 0 then []
    else [NormaliseFlight(fs[0])] + NormaliseAll(fs[1..])
  }

  /** `process_flight_data`. */
  function ProcessFlightData(p: Payload): (r: Processed)
    ensures r.NoData? <==> !Truthy(p) || "data" !in p.value
    ensures r.Raises? <==> Truthy(p) && "data" in p.value && p.value["data"].NotAList?
    ensures r.Flights? ==> p.Some? && "data" in p.value && p.value["data"].FlightList?
    ensures r.Flights? ==> |r.records| == |p.value["data"].flights|
    ensures r.Flights? ==> forall i :: 0 <= i < |r.records| ==>
              r.records[i] == NormaliseFlight(p.value["data"].flights[i])
  {
    if !Truthy(p) || "data" !in p.value then NoData
    else match p.value["data"]
      case FlightList(fs) => Flights(NormaliseAll(fs))
      case NotAList => Raises
  }

  /** A record reshaped as the provider object it would have come from. */
  function ToRaw(rec: FlightRecord): RawFlight {
    RawFlight(
      Some(map["number" := rec.flightNumber]),
      Some(map["airport" := rec.departureAirport, "scheduled" := rec.departureTime]),
      Some(map["airport" := rec.arrivalAirport, "scheduled" := rec.arrivalTime]),
      Some(map["name" := rec.airline]),
      Some(rec.status))
  }

  /** Normalising a record reshaped as raw input gives the record back. */
  lemma NormaliseToRaw(rec: FlightRecord)
    ensures NormaliseFlight(ToRaw(rec)) == rec
  {
  }

  /** Re-running the normaliser on its own output, reshaped as a payload, is the identity. */
  lemma ProcessIdempotent(rs: seq<FlightRecord>)
    ensures ProcessFlightData(Some(map["data" := FlightList(seq(|rs|, i requires 0 <= i < |rs| => ToRaw(rs[i])))])) == Flights(rs)
  {
    var raws := seq(|rs|, i requires 0 <= i < |rs| => ToRaw(rs[i]));
    var p: Payload := Some(map["data" := FlightList(raws)]);
    assert Truthy(p) by { assert "data" in p.value; }
    var out := NormaliseAll(raws);
    forall i | 0 <= i < |rs| ensures out[i] == rs[i] {
      NormaliseToRaw(rs[i]);
    }
  }

  /** A flight with no nested objects and no status becomes the all-placeholder record. */
  lemma EmptyFlightDefaults()
    ensures NormaliseFlight(RawFlight(None, None, None, None, None))
         == FlightRecord(Missing, Missing, Missing, Missing, Missing, Missing, UnknownStatus)
  {
  }
}
