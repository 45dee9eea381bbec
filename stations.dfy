/** The station directory and `get_station_uic`: first exact-name match in list order. */
module Stations {
  import opened Wrappers

  /** A station as returned by the railway API: its display name (`names['lang']`) and UIC code. */
  datatype Station = Station(name: string, uic: string)

  /** The station at index `i` is the first one whose name is exactly `query`. */
  predicate IsFirstMatch(stations: seq<Station>, query: string, i: int)
  {
    0 <= i < |stations| && stations[i].name == query
    && forall j :: 0 <= j < i ==> stations[j].name != query
  }

  /** Specification of the lookup: the UIC of the first station named `query`, `None` when there is none. */
  function Lookup(stations: seq<Station>, query: string): Option<string>
    decreases |stations|
  {
    if |stations| == 0 then None
    else if stations[0].name == query then Some(stations[0].uic)
    else Lookup(stations[1..], query)
  }

  /** `Lookup` yields the code of the first exact match, and `None` exactly when no name matches. */
  lemma {:induction false} LookupIsFirstMatch(stations: seq<Station>, query: string)
    ensures Lookup(stations, query).None? <==> forall i :: 0 <= i < |stations| ==> stations[i].name != query
    ensures Lookup(stations, query).Some? ==>
      exists i :: IsFirstMatch(stations, query, i) && Lookup(stations, query).value == stations[i].uic
    decreases |stations|
  {
    if |stations| > 0 {
      if stations[0].name == query {
        assert IsFirstMatch(stations, query, 0);
      } else {
        var rest := stations[1..];
        LookupIsFirstMatch(rest, query);
        assert forall i :: 1 <= i < |stations| ==> stations[i] == rest[i - 1];
        if Lookup(rest, query).Some? {
          var i :| IsFirstMatch(rest, query, i) && Lookup(rest, query).value == rest[i].uic;
          assert IsFirstMatch(stations, query, i + 1);
        } else {
          assert forall i :: 0 <= i < |stations| ==> stations[i].name != query by {
            forall i | 0 <= i < |stations|
              ensures stations[i].name != query
            {
              if i > 0 { assert stations[i] == rest[i - 1]; }
            }
          }
        }
      }
    }
  }

  /**
    * An illustration of exact matching on one pair of names: a name differing only in letter case
    * is not found. The general fact is `LookupIsFirstMatch`: `None` whenever no name is exactly equal.
    */
  lemma LookupCaseSensitive()
    ensures Lookup([Station("Utrecht Centraal", "8400621")], "utrecht centraal") == None
  {
    assert "Utrecht Centraal"[0] != "utrecht centraal"[0];
  }

  /** `get_station_uic`: scan the list and return the first matching station's code; fall through to `None`. */
  method GetStationUic(stations: seq<Station>, stationName: string) returns (uic: Option<string>)
    ensures uic == Lookup(stations, stationName)
    ensures uic.None? <==> forall i :: 0 <= i < |stations| ==> stations[i].name != stationName
    ensures uic.Some? ==> exists i :: IsFirstMatch(stations, stationName, i) && uic.value == stations[i].uic
  {
    for i := 0 to |stations|
      invariant forall j :: 0 <= j < i ==> stations[j].name != stationName
      invariant Lookup(stations, stationName) == Lookup(stations[i..], stationName)
    {
      assert stations[i..][1..] == stations[i + 1..];
      if stationName == stations[i].name {
        assert IsFirstMatch(stations, stationName, i);
        return Some(stations[i].uic);
      }
    }
    return None;
  }
}
