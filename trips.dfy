/** `parse_upcoming_trips`: which configured trips are imminent, and the requests issued for them. */
module Trips {
  import opened Wrappers
  import opened Sequences
  import opened Stations
  import opened Route
  import opened Delays

  /**
    * A row of the trip table. Times are the planned departure and arrival, already parsed,
    * as whole seconds on the same local clock as `now`.
    */
  datatype TripConfig = TripConfig(stationOrigin: string, stationDestination: string, timeOrigin: int, timeDestination: int)

  /** The fixed UTC offset appended to every rendered time, whatever the season. */
  const Offset: string := "+01:00"

  /**
    * A time as sent to the trip API: `clock` renders the date and time of day
    * (`%Y-%m-%dT%H:%M:%S`), followed by the fixed offset.
    */
  function Stamp(clock: int -> string, t: int): (text: string)
    ensures |text| >= |Offset| && text[|text| - |Offset|..] == Offset
  {
    clock(t) + Offset
  }

  function Abs(x: int): int
  {
    if x < 0 then -x else x
  }

  /** `abs(t - now)` is below the window of `minutesDelta` minutes, measured in seconds. */
  predicate InWindow(t: int, now: int, minutesDelta: int)
    ensures InWindow(t, now, minutesDelta) <==> now - 60 * minutesDelta < t < now + 60 * minutesDelta
  {
    Abs(t - now) < 60 * minutesDelta
  }

  /** The selection test of `parse_upcoming_trips`: departure or arrival is within the window. */
  predicate Imminent(trip: TripConfig, now: int, minutesDelta: int)
  {
    InWindow(trip.timeOrigin, now, minutesDelta) || InWindow(trip.timeDestination, now, minutesDelta)
  }

  /** A departure that already passed, but less than the window ago, still selects the trip. */
  lemma RecentlyPassedSelected(trip: TripConfig, now: int, minutesDelta: int)
    requires now - 60 * minutesDelta < trip.timeOrigin <= now
    ensures Imminent(trip, now, minutesDelta)
  {
  }

  /** A trip whose departure and arrival are both exactly the window away is not selected. */
  lemma BoundaryNotSelected(trip: TripConfig, now: int, minutesDelta: int)
    requires Abs(trip.timeOrigin - now) == 60 * minutesDelta
    requires Abs(trip.timeDestination - now) == 60 * minutesDelta
    ensures !Imminent(trip, now, minutesDelta)
  {
  }

  /** The route string requested for one trip, with both stations looked up by name. */
  function TripRequest(stations: seq<Station>, trip: TripConfig, clock: int -> string): string
  {
    RouteString(Str(Lookup(stations, trip.stationOrigin)), Str(Lookup(stations, trip.stationDestination)),
                Stamp(clock, trip.timeOrigin), Stamp(clock, trip.timeDestination))
  }

  /** The requests `parse_upcoming_trips` issues, in the order it issues them. */
  function Requests(stations: seq<Station>, trips: seq<TripConfig>, now: int, minutesDelta: int,
                    clock: int -> string): seq<string>
  {
    FilterMap(trips, t => Imminent(t, now, minutesDelta), t => TripRequest(stations, t, clock))
  }

  /** A trip whose origin name matches no station sends the text "None" as its origin code. */
  lemma UnknownOriginSendsNone(stations: seq<Station>, trip: TripConfig, clock: int -> string)
    requires forall i :: 0 <= i < |stations| ==> stations[i].name != trip.stationOrigin
    ensures TripRequest(stations, trip, clock)
         == RouteString("None", Str(Lookup(stations, trip.stationDestination)),
                        Stamp(clock, trip.timeOrigin), Stamp(clock, trip.timeDestination))
  {
    LookupIsFirstMatch(stations, trip.stationOrigin);
  }

  /** A trip whose destination name matches no station sends the text "None" as its destination code. */
  lemma UnknownDestinationSendsNone(stations: seq<Station>, trip: TripConfig, clock: int -> string)
    requires forall i :: 0 <= i < |stations| ==> stations[i].name != trip.stationDestination
    ensures TripRequest(stations, trip, clock)
         == RouteString(Str(Lookup(stations, trip.stationOrigin)), "None",
                        Stamp(clock, trip.timeOrigin), Stamp(clock, trip.timeDestination))
  {
    LookupIsFirstMatch(stations, trip.stationDestination);
  }

  /** The positions of the imminent trips in the input, in increasing order. */
  function SelectedIndices(trips: seq<TripConfig>, now: int, minutesDelta: int): seq<nat>
  {
    Positions(trips, t => Imminent(t, now, minutesDelta))
  }

  /**
    * One request per imminent trip and none for the others, in input order:
    * the k-th request is the route of the k-th imminent trip.
    */
  lemma RequestsSelectExactly(stations: seq<Station>, trips: seq<TripConfig>, now: int,
                              minutesDelta: int, clock: int -> string)
    ensures var idx := SelectedIndices(trips, now, minutesDelta);
      var reqs := Requests(stations, trips, now, minutesDelta, clock);
      |reqs| == |idx| <= |trips|
      && StrictlyIncreasing(idx)
      && (forall i :: 0 <= i < |trips| ==> (i in idx <==> Imminent(trips[i], now, minutesDelta)))
      && (forall k :: 0 <= k < |idx| ==> idx[k] < |trips| && reqs[k] == TripRequest(stations, trips[idx[k]], clock))
  {
    PositionsSpec(trips, t => Imminent(t, now, minutesDelta));
    FilterMapAtPositions(trips, t => Imminent(t, now, minutesDelta), t => TripRequest(stations, t, clock));
  }

  /**
    * `parse_upcoming_trips`: for every row, look up both stations, render both times and, when
    * the trip is imminent, request its live status. `fetch` is the trip API. Besides the fetched
    * trips, the requests sent are returned, in order.
    */
  method ParseUpcomingTrips(stations: seq<Station>, trips: seq<TripConfig>, minutesDelta: int, now: int,
                            clock: int -> string, fetch: string -> TripStatus)
    returns (requests: seq<string>, result: seq<TripStatus>)
    ensures requests == Requests(stations, trips, now, minutesDelta, clock)
    ensures |result| == |requests| <= |trips|
    ensures forall k :: 0 <= k < |result| ==> result[k] == fetch(requests[k])
  {
    requests, result := [], [];
    for i := 0 to |trips|
      invariant requests == Requests(stations, trips[..i], now, minutesDelta, clock)
      invariant |result| == |requests|
      invariant forall k :: 0 <= k < |result| ==> result[k] == fetch(requests[k])
    {
      var trip := trips[i];
      var stationStartUic := GetStationUic(stations, trip.stationOrigin);
      var stationEndUic := GetStationUic(stations, trip.stationDestination);
      var diffStart := trip.timeOrigin - now;
      var diffEnd := trip.timeDestination - now;
      var start := Stamp(clock, trip.timeOrigin);
      var arrive := Stamp(clock, trip.timeDestination);
      assert trips[..i + 1][..i] == trips[..i];
      if Abs(diffStart) < 60 * minutesDelta || Abs(diffEnd) < 60 * minutesDelta {
        var route := RouteString(Str(stationStartUic), Str(stationEndUic), start, arrive);
        var tripParsed := fetch(route);
        requests := requests + [route];
        result := result + [tripParsed];
      }
    }
    assert trips[..|trips|] == trips;
    RequestsSelectExactly(stations, trips, now, minutesDelta, clock);
  }
}
