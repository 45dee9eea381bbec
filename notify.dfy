/** The top level of the script: filter the configured trips, then push one note per delayed trip. */
module Notify {
  import opened Sequences
  import opened Stations
  import opened Delays
  import opened Trips

  /** A push notification: its title and body. */
  datatype Note = Note(title: string, body: string)

  /** The window, in minutes, the script passes to `parse_upcoming_trips`. */
  const MinutesDelta: int := 30

  /** The note pushed for a delayed trip, naming the first leg's origin and destination. */
  function DelayNote(trip: TripStatus): Note
    requires |trip.legs| > 0
  {
    var start := trip.legs[0].origin.name;
    var end := trip.legs[0].destination.name;
    Note("Delay!", "There is a delay on the trip " + start + " - " + end)
  }

  /** Every fetched trip has a first leg, as the notify loop indexes `legs[0]`. */
  predicate AllHaveLegs(tripsParsed: seq<TripStatus>)
  {
    forall k :: 0 <= k < |tripsParsed| ==> |tripsParsed[k].legs| > 0
  }

  /** A fetched trip that `has_delays` reports as delayed. */
  predicate Delayed(trip: TripStatus)
  {
    |trip.legs| > 0 && HasDelays(trip)
  }

  /** The notes the notify loop pushes, in the order it pushes them. */
  function Notes(tripsParsed: seq<TripStatus>): seq<Note>
    requires AllHaveLegs(tripsParsed)
  {
    FilterMap(tripsParsed, Delayed, DelayNote)
  }

  /**
    * Exactly one note per delayed trip and none for the others, in the order of the fetched trips;
    * each has the title "Delay!" and names the first leg's stations.
    */
  lemma NotesForDelayedTrips(tripsParsed: seq<TripStatus>)
    requires AllHaveLegs(tripsParsed)
    ensures var idx := Positions(tripsParsed, Delayed);
      var notes := Notes(tripsParsed);
      |notes| == |idx| <= |tripsParsed|
      && StrictlyIncreasing(idx)
      && (forall i :: 0 <= i < |tripsParsed| ==> (i in idx <==> HasDelays(tripsParsed[i])))
      && (forall k :: 0 <= k < |idx| ==>
            idx[k] < |tripsParsed|
            && notes[k].title == "Delay!"
            && notes[k].body == "There is a delay on the trip " + tripsParsed[idx[k]].legs[0].origin.name
                                + " - " + tripsParsed[idx[k]].legs[0].destination.name)
  {
    PositionsSpec(tripsParsed, Delayed);
    FilterMapAtPositions(tripsParsed, Delayed, DelayNote);
  }

  /**
    * One run of the script (the top level after the helper definitions): select and fetch the
    * imminent trips with a 30-minute window, then push a note for each delayed one.
    */
  method Run(stations: seq<Station>, trips: seq<TripConfig>, now: int, clock: int -> string,
             fetch: string -> TripStatus)
    returns (requests: seq<string>, tripsParsed: seq<TripStatus>, notes: seq<Note>)
    requires forall r :: r in Requests(stations, trips, now, MinutesDelta, clock) ==> |fetch(r).legs| > 0
    ensures requests == Requests(stations, trips, now, MinutesDelta, clock)
    ensures |tripsParsed| == |requests| && forall k :: 0 <= k < |tripsParsed| ==> tripsParsed[k] == fetch(requests[k])
    ensures AllHaveLegs(tripsParsed) && notes == Notes(tripsParsed)
    ensures |notes| <= |tripsParsed| <= |trips|
  {
    requests, tripsParsed := ParseUpcomingTrips(stations, trips, MinutesDelta, now, clock, fetch);
    notes := Notes(tripsParsed);
    NotesForDelayedTrips(tripsParsed);
  }
}
