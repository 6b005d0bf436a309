/** A scored destination (src/ch/epfl/tchu/game/Trip.java). */
module Trips {
  import opened Stations

  datatype Trip = Trip(from: Station, to: Station, points: int)

  /** The constructor's check: a trip is worth at least one point. */
  predicate Valid(t: Trip) { t.points > 0 }

  /** `points(connectivity)`: the trip's value, counted positive when its two stations are
      connected and negative otherwise. */
  function Points(t: Trip, connected: Connectivity): (p: int)
    requires Valid(t)
    ensures p == t.points || p == -t.points
    ensures p > 0 <==> connected(t.from, t.to)
  {
    if connected(t.from, t.to) then t.points else -t.points
  }

  /** Cell `(a, b)` of an `i`-row, `n`-column table comes before row `i`. */
  lemma RowMajorBound(a: nat, b: nat, i: nat, n: nat)
    requires a < i && b < n
    ensures a * n + b < i * n
  {
    calc {
      a * n + b;
    <
      a * n + n;
    ==
      (a + 1) * n;
    <=  { assert a + 1 <= i; }
      i * n;
    }
  }

  /** The trips from `start` to every station of `to`, in order. */
  function Row(start: Station, to: seq<Station>, points: int): (r: seq<Trip>)
    ensures |r| == |to|
  {
    seq(|to|, j requires 0 <= j < |to| => Trip(start, to[j], points))
  }

  /** The trips `Trip.all` returns: one row per station of `from`. */
  function AllTrips(from: seq<Station>, to: seq<Station>, points: int): seq<Trip>
    decreases |from|
  {
    if from == [] then []
    else AllTrips(from[..|from| - 1], to, points) + Row(from[|from| - 1], to, points)
  }

  /** `Trip.all` yields |from| * |to| trips in row-major order, all worth `points`. */
  lemma {:induction false} AllTripsShape(from: seq<Station>, to: seq<Station>, points: int)
    ensures |AllTrips(from, to, points)| == |from| * |to|
    ensures forall i, j :: 0 <= i < |from| && 0 <= j < |to| ==>
              AllTrips(from, to, points)[i * |to| + j] == Trip(from[i], to[j], points)
    decreases |from|
  {
    if from != [] {
      var m := |from| - 1;
      var init := from[..m];
      AllTripsShape(init, to, points);
      var all := AllTrips(from, to, points);
      assert all == AllTrips(init, to, points) + Row(from[m], to, points);
      assert |all| == m * |to| + |to| == |from| * |to|;
      forall i, j | 0 <= i < |from| && 0 <= j < |to|
        ensures all[i * |to| + j] == Trip(from[i], to[j], points)
      {
        if i < m {
          RowMajorBound(i, j, m, |to|);
          assert init[i] == from[i];
        } else {
          assert i * |to| + j == m * |to| + j;
        }
      }
    }
  }

  /** `Trip.all`: one trip from every station of `from` to every station of `to`. */
  method All(from: seq<Station>, to: seq<Station>, points: int) returns (trips: seq<Trip>)
    requires |from| > 0 && |to| > 0 && points > 0
    ensures trips == AllTrips(from, to, points)
    ensures forall k :: 0 <= k < |trips| ==> Valid(trips[k])
  {
    trips := [];
    for i := 0 to |from|
      invariant trips == AllTrips(from[..i], to, points)
      invariant forall k :: 0 <= k < |trips| ==> Valid(trips[k])
    {
      for j := 0 to |to|
        invariant trips == AllTrips(from[..i], to, points) + Row(from[i], to[..j], points)
        invariant forall k :: 0 <= k < |trips| ==> Valid(trips[k])
      {
        trips := trips + [Trip(from[i], to[j], points)];
      }
      assert to[..|to|] == to;
      assert from[..i + 1][..i] == from[..i];
    }
    assert from[..|from|] == from;
  }
}
