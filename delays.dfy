/** The live trip status returned by the trip API, and `has_delays`. */
module Delays {
  import opened Wrappers

  /**
    * One end of a leg: the station name, the planned time and, once real-time data exists,
    * the actual time (`actualDateTime` may be absent from the API's record).
    */
  datatype Endpoint = Endpoint(name: string, planned: string, actual: Option<string>)

  datatype Leg = Leg(origin: Endpoint, destination: Endpoint)

  /** A trip as the trip API returns it: its legs, in travel order. */
  datatype TripStatus = TripStatus(legs: seq<Leg>)

  /** An endpoint runs to plan when it carries an actual time equal to its planned time. */
  predicate OnPlan(e: Endpoint)
  {
    e.actual == Some(e.planned)
  }

  /**
    * `has_delays`: looks at the first leg only. The flag starts out "on time"; only when both
    * endpoints carry an actual time is it replaced by "both actual times equal the planned ones".
    * The answer is the negation of that flag.
    */
  function HasDelays(trip: TripStatus): (delayed: bool)
    requires |trip.legs| > 0
    ensures trip.legs[0].origin.actual.None? || trip.legs[0].destination.actual.None? ==> !delayed
    ensures trip.legs[0].origin.actual.Some? && trip.legs[0].destination.actual.Some? ==>
      (delayed <==> !OnPlan(trip.legs[0].origin) || !OnPlan(trip.legs[0].destination))
  {
    var t := trip.legs[0];
    var onTime :=
      if t.origin.actual.Some? && t.destination.actual.Some? then
        t.origin.planned == t.origin.actual.value && t.destination.planned == t.destination.actual.value
      else
        true;
    !onTime
  }

  /** A trip is reported as not delayed exactly when real-time data is missing or both ends run to plan. */
  lemma NotDelayedIff(trip: TripStatus)
    requires |trip.legs| > 0
    ensures !HasDelays(trip) <==>
      (trip.legs[0].origin.actual.None? || trip.legs[0].destination.actual.None?
       || (OnPlan(trip.legs[0].origin) && OnPlan(trip.legs[0].destination)))
  {
  }

  /** Only the first leg is consulted: trips that share their first leg get the same answer. */
  lemma HasDelaysFirstLegOnly(a: TripStatus, b: TripStatus)
    requires |a.legs| > 0 && |b.legs| > 0
    requires a.legs[0] == b.legs[0]
    ensures HasDelays(a) == HasDelays(b)
  {
  }
}
