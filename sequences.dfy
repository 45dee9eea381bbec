/** Order-preserving selection over sequences, shared by the trip filter and the notify loop. */
module Sequences {

  /** The indices of `s` whose element satisfies `keep`, in increasing order. */
  function Positions<T>(s: seq<T>, keep: T -> bool): seq<nat>
    decreases |s|
  {
    if |s| == 0 then []
    else
      var n := |s| - 1;
      Positions(s[..n], keep) + (if keep(s[n]) then [n] else [])
  }

  predicate StrictlyIncreasing(idx: seq<nat>)
  {
    forall k, l :: 0 <= k < l < |idx| ==> idx[k] < idx[l]
  }

  /** `Positions` lists every kept index exactly once, and nothing else, in input order. */
  lemma {:induction false} PositionsSpec<T>(s: seq<T>, keep: T -> bool)
    ensures var idx := Positions(s, keep);
      |idx| <= |s|
      && StrictlyIncreasing(idx)
      && (forall k :: 0 <= k < |idx| ==> idx[k] < |s| && keep(s[idx[k]]))
      && (forall i :: 0 <= i < |s| && keep(s[i]) ==> i in idx)
    decreases |s|
  {
    if |s| > 0 {
      var n := |s| - 1;
      var init := s[..n];
      PositionsSpec(init, keep);
      var prev := Positions(init, keep);
      var idx := Positions(s, keep);
      if keep(s[n]) {
        assert idx == prev + [n];
        assert idx[|prev|] == n;
        forall k | 0 <= k < |idx| ensures idx[k] < |s| && keep(s[idx[k]]) {
          if k < |prev| { assert idx[k] == prev[k] && s[prev[k]] == init[prev[k]]; }
        }
        forall k, l | 0 <= k < l < |idx| ensures idx[k] < idx[l] {
          assert idx[k] == prev[k];
        }
      } else {
        assert idx == prev;
        forall k | 0 <= k < |idx| ensures idx[k] < |s| && keep(s[idx[k]]) {
          assert s[prev[k]] == init[prev[k]];
        }
      }
      forall i | 0 <= i < |s| && keep(s[i])
        ensures i in idx
      {
        if i < n {
          assert init[i] == s[i];
          assert i in prev;
        } else {
          assert idx[|idx| - 1] == n;
        }
      }
    }
  }

  /** The images under `f` of the elements of `s` that satisfy `keep`, in input order. */
  function FilterMap<T, U>(s: seq<T>, keep: T -> bool, f: T --> U): seq<U>
    requires forall i :: 0 <= i < |s| && keep(s[i]) ==> f.requires(s[i])
    decreases |s|
  {
    if |s| == 0 then []
    else
      var n := |s| - 1;
      FilterMap(s[..n], keep, f) + (if keep(s[n]) then [f(s[n])] else [])
  }

  /** The k-th element of `FilterMap` is the image of the element at the k-th kept position. */
  lemma {:induction false} FilterMapAtPositions<T, U>(s: seq<T>, keep: T -> bool, f: T --> U)
    requires forall i :: 0 <= i < |s| && keep(s[i]) ==> f.requires(s[i])
    ensures var idx := Positions(s, keep);
      var r := FilterMap(s, keep, f);
      |r| == |idx|
      && forall k :: 0 <= k < |idx| ==> idx[k] < |s| && keep(s[idx[k]]) && r[k] == f(s[idx[k]])
    decreases |s|
  {
    PositionsSpec(s, keep);
    if |s| > 0 {
      var n := |s| - 1;
      var init := s[..n];
      FilterMapAtPositions(init, keep, f);
      var idx := Positions(s, keep);
      var r := FilterMap(s, keep, f);
      var prevIdx := Positions(init, keep);
      var prev := FilterMap(init, keep, f);
      assert idx == prevIdx + (if keep(s[n]) then [n] else []);
      forall k | 0 <= k < |idx|
        ensures r[k] == f(s[idx[k]])
      {
        if k < |prevIdx| {
          assert idx[k] == prevIdx[k] && r[k] == prev[k];
          assert init[prevIdx[k]] == s[prevIdx[k]];
        }
      }
    }
  }
}
