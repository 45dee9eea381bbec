# NS delay notifier — Dafny model

This project models the decision logic of a small polling script that watches configured train
trips on the Dutch railways (NS) API and pushes a phone notification when a trip is delayed
(`src/app.py`). One run of the script:

1. resolves each configured trip's origin and destination station names to UIC codes by a linear,
   exact-name search over the station list (`get_station_uic`);
2. keeps the trips whose planned departure or arrival lies within 30 minutes of now, in either
   direction, and fetches the live status of each by sending a fixed-format route string to the trip
   API (`parse_upcoming_trips`, `get_ns_trip`);
3. checks the first leg of every fetched trip for a departure or arrival that deviates from plan
   (`has_delays`);
4. pushes one note, titled `Delay!`, per delayed trip.

Modules, one per component: `Stations` (station directory and lookup), `Route` (the route string
and a splitter that reads its fields back), `Trips` (the window filter), `Delays` (live trip status
and the delay test), `Notify` (the notify loop and a whole run). `Sequences` holds the
order-preserving filter-and-map (`FilterMap`, with the kept positions `Positions`) that the trip filter and the notify loop share, and
`Wrappers` the `Option` type.

Modelling choices:

- Timestamps are whole seconds on the same local clock as `now`, and `now` is a parameter. The
  window test `abs(diff) < minutes_delta` on float minutes becomes `abs(t - now) < 60 * minutesDelta`.
- The trip API is the parameter `fetch: string -> TripStatus`, applied to the route string. The
  time renderer (`strftime("%Y-%m-%dT%H:%M:%S")`) is the parameter `clock: int -> string`. Only
  the literal `+01:00` offset that follows it is modelled.
- A push is an emitted `Note` record. `ParseUpcomingTrips` and `Run` also return the route strings
  they send, so that "one request per selected trip" is part of their results.
- Behaviour worth noting, where the code's own docstrings say something else or nothing:
  - `parse_upcoming_trips` is documented (src/app.py:46-47) as taking trips "within the next
    minutes_delta minutes". The test at src/app.py:70 uses `abs`, so a departure or arrival that
    passed less than the window ago also selects the trip (`Trips.RecentlyPassedSelected`).
  - `get_station_uic` is documented (src/app.py:28-29) as returning a string. When no name
    matches, the loop falls through and returns `None`, and the f-string of the route writes
    the text `None` into the request (`Trips.UnknownOriginSendsNone`,
    `Trips.UnknownDestinationSendsNone`).
  - `has_delays` starts from a flag that means "on time" and returns its negation. A trip whose
    first leg lacks an actual time at either end is therefore reported as not delayed
    (`Delays.HasDelays`, `Delays.NotDelayedIff`).

## Model

| member | source | states |
|---|---|---|
| `Stations.LookupIsFirstMatch` | src/app.py:31-33 | the lookup yields the UIC code of the first station, in list order, whose name equals the query; it yields `None` exactly when no station name equals the query |
| `Stations.LookupCaseSensitive` | src/app.py:32 | names are compared exactly: "utrecht centraal" does not find "Utrecht Centraal" |
| `Stations.GetStationUic` | src/app.py:21-33 | the loop with early return gives the first exact match's code, `None` iff nothing matches, and agrees with the lookup specification |
| `Trips.UnknownOriginSendsNone` | src/app.py:31-40 | when no station is named like the trip's origin, the lookup falls through and the request carries the text "None" as its origin code, the rest of the route unchanged |
| `Trips.UnknownDestinationSendsNone` | src/app.py:31-40 | when no station is named like the trip's destination, the request carries the text "None" as its destination code |
| `Route.RouteIsJoin` | src/app.py:40 | the route string is exactly the seven fields `arnu`, `fromStation=…`, `toStation=…`, `plannedFromTime=…`, `plannedArrivalTime=…`, `yearCard=false`, `excludeHighSpeedTrains=false` joined by the bar character |
| `Route.RouteFieldsRecoverable` | src/app.py:40 | when no value contains the bar character, splitting the route string at each bar gives back exactly those seven fields |
| `Route.RouteStringInjective` | src/app.py:40 | two routes whose values contain no bar character are equal only if their stations and times are equal |
| `Trips.Stamp` | src/app.py:67-68 | every rendered time ends in the fixed offset `+01:00`, whatever the time |
| `Trips.InWindow` | src/app.py:64-70 | a time is in the window iff it lies strictly between `now - 60*delta` and `now + 60*delta` seconds, so past times count too |
| `Trips.RecentlyPassedSelected` | src/app.py:64-70 | a departure that passed less than the window ago selects the trip |
| `Trips.BoundaryNotSelected` | src/app.py:70 | a trip whose departure and arrival are both exactly the window away is not selected |
| `Trips.RequestsSelectExactly` | src/app.py:56-74 | one request per trip whose departure or arrival is in the window and none for the others, in input order; at most as many requests as trips |
| `Trips.ParseUpcomingTrips` | src/app.py:44-74 | the loop sends exactly the specified requests, in order, and returns the API's answer to each, in the same order |
| `Delays.HasDelays` | src/app.py:76-87 | a trip whose first leg lacks an actual time at either end is not delayed; with both actual times present it is delayed iff either differs from its planned time |
| `Delays.NotDelayedIff` | src/app.py:82-87 | not delayed iff an actual time is missing or both ends run to plan |
| `Delays.HasDelaysFirstLegOnly` | src/app.py:80 | two trips that share their first leg get the same answer, whatever their later legs |
| `Notify.NotesForDelayedTrips` | src/app.py:94-100 | exactly one note per delayed trip and none for the others, in order; title "Delay!", body "There is a delay on the trip <origin> - <destination>" from the first leg |
| `Notify.Run` | src/app.py:90-100 | a run with the 30-minute window sends the specified requests, fetches each, and pushes the notes of the delayed fetched trips |

## Left out

- The API clients (`Pushbullet`, `NSAPI`), the API keys read from the environment and `.env`
  file, and the station list download: network and configuration I/O. The station list is a
  parameter, the trip API is `fetch`, a push is a `Note`.
- Reading `trips.csv` with pandas: file I/O. The rows are a parameter of type `TripConfig`.
- Date parsing with `dateutil` and rendering with `strftime`: library calls. Times are already
  parsed seconds, and rendering is the `clock` parameter followed by `+01:00`.
- The console line `Delay on <start> - <end>` printed next to each push: console output.
- `Trips.InWindow`: does not model the float division to minutes, nor sub-second precision. The
  exact integer comparison in seconds can differ from the float test only by rounding at the
  window's edge.
- `Trips.ParseUpcomingTrips`: `now` is one value for the whole run. The script reads the clock
  afresh for each departure and each arrival.
- `Trips.ParseUpcomingTrips`: the trip API is a function of the route string, so two equal
  requests get equal answers, and it never fails. The script would stop on a network error.
- `Delays.HasDelays`: requires a first leg. The script would stop on a trip without legs, and so
  `Notify.Run` requires that every fetched trip has one.
- The once-per-day notification cache is not part of this script version, so it is not modelled.
- `setup.py` is packaging metadata and is not part of this model.
