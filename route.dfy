/** The route string that `get_ns_trip` sends to the trip API, and how its fields can be read back. */
module Route {
  import opened Wrappers

  /** Python's f-string rendering of a looked-up code: `None` prints as the text "None". */
  function Str(code: Option<string>): string
  {
    match code
    case Some(c) => c
    case None => "None"
  }

  /**
    * The route string built by `get_ns_trip`:
    * arnu|fromStation=..|toStation=..|plannedFromTime=..|plannedArrivalTime=..|yearCard=false|excludeHighSpeedTrains=false
    * (written with each `|` as its own piece).
    */
  function RouteString(fromStation: string, toStation: string, plannedFrom: string, plannedArrival: string): string
  {
    "arnu" + "|" + "fromStation=" + fromStation + "|" + "toStation=" + toStation + "|" + "plannedFromTime=" + plannedFrom
      + "|" + "plannedArrivalTime=" + plannedArrival + "|" + "yearCard=false" + "|" + "excludeHighSpeedTrains=false"
  }

  /** The seven `|`-separated fields of a route string. */
  function RouteFields(fromStation: string, toStation: string, plannedFrom: string, plannedArrival: string): seq<string>
  {
    ["arnu", "fromStation=" + fromStation, "toStation=" + toStation, "plannedFromTime=" + plannedFrom,
     "plannedArrivalTime=" + plannedArrival, "yearCard=false", "excludeHighSpeedTrains=false"]
  }

  /** Concatenates `parts` with `sep` between neighbours. */
  function Join(parts: seq<string>, sep: char): string
    requires |parts| > 0
    decreases |parts|
  {
    if |parts| == 1 then parts[0] else parts[0] + [sep] + Join(parts[1..], sep)
  }

  /** Cuts `s` at every occurrence of `sep`. */
  function Split(s: string, sep: char): (parts: seq<string>)
    ensures |parts| > 0
    decreases |s|
  {
    if |s| == 0 then [""]
    else if s[0] == sep then [""] + Split(s[1..], sep)
    else
      var rest := Split(s[1..], sep);
      [[s[0]] + rest[0]] + rest[1..]
  }

  lemma {:induction false} SplitNoSep(x: string, sep: char)
    requires sep !in x
    ensures Split(x, sep) == [x]
    decreases |x|
  {
    if |x| > 0 {
      assert sep !in x[1..];
      SplitNoSep(x[1..], sep);
      assert [x[0]] + x[1..] == x;
    }
  }

  lemma {:induction false} SplitAfterField(x: string, sep: char, y: string)
    requires sep !in x
    ensures Split(x + [sep] + y, sep) == [x] + Split(y, sep)
    decreases |x|
  {
    var s := x + [sep] + y;
    if |x| == 0 {
      assert s[0] == sep && s[1..] == y;
    } else {
      assert s[0] == x[0] && s[1..] == x[1..] + [sep] + y;
      assert sep !in x[1..];
      SplitAfterField(x[1..], sep, y);
      assert [x[0]] + x[1..] == x;
    }
  }

  /** Splitting undoes joining when no part contains the separator. */
  lemma {:induction false} SplitJoin(parts: seq<string>, sep: char)
    requires |parts| > 0
    requires forall k :: 0 <= k < |parts| ==> sep !in parts[k]
    ensures Split(Join(parts, sep), sep) == parts
    decreases |parts|
  {
    if |parts| == 1 {
      SplitNoSep(parts[0], sep);
    } else {
      SplitJoin(parts[1..], sep);
      SplitAfterField(parts[0], sep, Join(parts[1..], sep));
      assert [parts[0]] + parts[1..] == parts;
    }
  }

  lemma JoinCons(head: string, tail: seq<string>, sep: char)
    requires |tail| > 0
    ensures Join([head] + tail, sep) == head + ([sep] + Join(tail, sep))
  {
    assert ([head] + tail)[1..] == tail;
  }

  /** Seven fields joined, written out right-nested. */
  lemma JoinSeven(f0: string, f1: string, f2: string, f3: string, f4: string, f5: string, f6: string, sep: char)
    ensures Join([f0, f1, f2, f3, f4, f5, f6], sep)
         == f0 + ([sep] + (f1 + ([sep] + (f2 + ([sep] + (f3 + ([sep] + (f4 + ([sep] + (f5 + ([sep] + f6)))))))))))
  {
    JoinCons(f5, [f6], sep);
    JoinCons(f4, [f5, f6], sep);
    JoinCons(f3, [f4, f5, f6], sep);
    JoinCons(f2, [f3, f4, f5, f6], sep);
    JoinCons(f1, [f2, f3, f4, f5, f6], sep);
    JoinCons(f0, [f1, f2, f3, f4, f5, f6], sep);
  }

  /** Concatenation regrouped to the right, on arbitrary pieces. */
  lemma Regroup(k0: string, k1: string, a: string, k2: string, b: string, k3: string, c: string, k4: string,
                d: string, k5: string, k6: string, sep: string)
    ensures k0 + sep + k1 + a + sep + k2 + b + sep + k3 + c + sep + k4 + d + sep + k5 + sep + k6
         == k0 + (sep + (k1 + a + (sep + (k2 + b + (sep + (k3 + c + (sep + (k4 + d + (sep + (k5 + (sep + k6)))))))))))
  {
  }

  /** The route string is its seven fields joined by `|`. */
  lemma RouteIsJoin(fromStation: string, toStation: string, plannedFrom: string, plannedArrival: string)
    ensures RouteString(fromStation, toStation, plannedFrom, plannedArrival)
         == Join(RouteFields(fromStation, toStation, plannedFrom, plannedArrival), '|')
  {
    Regroup("arnu", "fromStation=", fromStation, "toStation=", toStation, "plannedFromTime=", plannedFrom,
            "plannedArrivalTime=", plannedArrival, "yearCard=false", "excludeHighSpeedTrains=false", "|");
    JoinSeven("arnu", "fromStation=" + fromStation, "toStation=" + toStation, "plannedFromTime=" + plannedFrom,
              "plannedArrivalTime=" + plannedArrival, "yearCard=false", "excludeHighSpeedTrains=false", '|');
  }

  /** When no value contains `|`, the trip API can recover every field of the route string. */
  lemma RouteFieldsRecoverable(fromStation: string, toStation: string, plannedFrom: string, plannedArrival: string)
    requires '|' !in fromStation && '|' !in toStation && '|' !in plannedFrom && '|' !in plannedArrival
    ensures Split(RouteString(fromStation, toStation, plannedFrom, plannedArrival), '|')
         == RouteFields(fromStation, toStation, plannedFrom, plannedArrival)
  {
    RouteIsJoin(fromStation, toStation, plannedFrom, plannedArrival);
    var f := RouteFields(fromStation, toStation, plannedFrom, plannedArrival);
    forall k | 0 <= k < |f| ensures '|' !in f[k] {
    }
    SplitJoin(f, '|');
  }

  /** Distinct `|`-free values give distinct route strings. */
  lemma RouteStringInjective(a: string, b: string, c: string, d: string, a': string, b': string, c': string, d': string)
    requires '|' !in a && '|' !in b && '|' !in c && '|' !in d
    requires '|' !in a' && '|' !in b' && '|' !in c' && '|' !in d'
    requires RouteString(a, b, c, d) == RouteString(a', b', c', d')
    ensures a == a' && b == b' && c == c' && d == d'
  {
    RouteFieldsRecoverable(a, b, c, d);
    RouteFieldsRecoverable(a', b', c', d');
    var f, f' := RouteFields(a, b, c, d), RouteFields(a', b', c', d');
    assert f == f';
    assert a == f[1][|"fromStation="|..] == f'[1][|"fromStation="|..] == a';
    assert b == f[2][|"toStation="|..] == f'[2][|"toStation="|..] == b';
    assert c == f[3][|"plannedFromTime="|..] == f'[3][|"plannedFromTime="|..] == c';
    assert d == f[4][|"plannedArrivalTime="|..] == f'[4][|"plannedArrivalTime="|..] == d';
  }
}
