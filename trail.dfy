/** Trails through a player's routes (src/ch/epfl/tchu/game/Trail.java): a walk that never uses
    a route twice, and the search for the longest one, which decides the longest-trail bonus. */
module Trails {
  import opened Wrappers
  import opened Stations
  import opened Routes
  import Text

  /** A trail: where it starts and ends, its routes in walking order and its total length. Only
      the empty trail has no stations. */
  datatype Trail = Trail(start: Option<Station>, end: Option<Station>, routes: seq<Route>, length: int)

  /** The trail of no route, of length 0. */
  const EMPTY: Trail := Trail(None, None, [], 0)

  /** `station1()`: no station for a trail of length 0. */
  function Station1(t: Trail): Option<Station>
  {
    if t.length == 0 then None else t.start
  }

  /** `station2()`: no station for a trail of length 0. */
  function Station2(t: Trail): Option<Station>
  {
    if t.length == 0 then None else t.end
  }

  // ----- what a trail is -----

  predicate Distinct(rs: seq<Route>)
  {
    forall i, j :: 0 <= i < j < |rs| ==> rs[i] != rs[j]
  }

  /** Where a walk from `start` along `rs` arrives, each route taken from the end the walk stands
      on to its other end; `None` once a route does not touch the walk's current station. */
  function Walk(start: Station, rs: seq<Route>): Option<Station>
  {
    if rs == [] then Some(start)
    else
      match Walk(start, rs[..|rs| - 1])
      case None => None
      case Some(here) =>
        var r := rs[|rs| - 1];
        if r.station1 == here then Some(r.station2)
        else if r.station2 == here then Some(r.station1)
        else None
  }

  /** A non-empty trail made of distinct routes of `routes`: a walk from its start to its end,
      whose length is the sum of its routes' lengths. */
  predicate IsTrail(t: Trail, routes: seq<Route>)
  {
    t.start.Some? && |t.routes| > 0 && Distinct(t.routes)
    && (forall i :: 0 <= i < |t.routes| ==> t.routes[i] in routes)
    && t.end.Some? && t.end == Walk(t.start.value, t.routes)
    && t.length == TotalLength(t.routes)
  }

  /** Of the empty trail neither end is known; a trail's ends are its start and where its walk
      arrives. */
  lemma Ends(t: Trail, routes: seq<Route>)
    requires AllValid(routes)
    ensures Station1(EMPTY) == None && Station2(EMPTY) == None
    ensures IsTrail(t, routes) ==>
              t.length > 0 && Station1(t) == t.start && Station2(t) == Walk(t.start.value, t.routes)
  {
    if IsTrail(t, routes) {
      TotalLengthPositive(t.routes, routes);
    }
  }

  lemma {:induction false} TotalLengthPositive(rs: seq<Route>, routes: seq<Route>)
    requires AllValid(routes) && forall i :: 0 <= i < |rs| ==> rs[i] in routes
    ensures |rs| > 0 ==> TotalLength(rs) >= |rs| > 0
    ensures TotalLength(rs) >= 0
  {
    if rs != [] {
      TotalLengthPositive(rs[..|rs| - 1], routes);
    }
  }

  // ----- the search, as the sequence of trails it generates -----

  /** The trail `t` followed by `r`, now ending at `e`. */
  function Extend(t: Trail, r: Route, e: Station): Trail
  {
    Trail(Station1(t), Some(e), t.routes + [r], t.length + r.length)
  }

  /** The step along `r` from its first station, when `t` ends there. */
  function Forward(t: Trail, r: Route): seq<Trail>
  {
    if Some(r.station1) == Station2(t) then [Extend(t, r, r.station2)] else []
  }

  /** The step along `r` from its second station, when `t` ends there. */
  function Backward(t: Trail, r: Route): seq<Trail>
  {
    if Some(r.station2) == Station2(t) then [Extend(t, r, r.station1)] else []
  }

  /** The trails the search makes from `t` and one route: none if the route is already used,
      otherwise one for each end of the route that `t` arrives at (`Forward`, `Backward`). */
  function Step(t: Trail, r: Route): seq<Trail>
  {
    if r in t.routes then []
    else Forward(t, r) + Backward(t, r)
  }

  /** The inner loop: the steps from `t` with each route of `rs`, in order. */
  function Grow(t: Trail, rs: seq<Route>): seq<Trail>
  {
    if rs == [] then [] else Grow(t, rs[..|rs| - 1]) + Step(t, rs[|rs| - 1])
  }

  /** One round: the trails grown from each trail of `ts`, in order. */
  function Round(ts: seq<Trail>, routes: seq<Route>): seq<Trail>
  {
    if ts == [] then [] else Round(ts[..|ts| - 1], routes) + Grow(ts[|ts| - 1], routes)
  }

  /** The first loop: each route, walked forwards and then backwards. */
  function Singles(rs: seq<Route>): seq<Trail>
  {
    if rs == [] then []
    else
      var r := rs[|rs| - 1];
      Singles(rs[..|rs| - 1]) + [FromStation1(r), FromStation2(r)]
  }

  /** The trails of `k` routes the search generates, in the order it generates them. */
  function Layer(routes: seq<Route>, k: nat): seq<Trail>
    requires k >= 1
  {
    if k == 1 then Singles(routes) else Round(Layer(routes, k - 1), routes)
  }

  /** Every trail of at most `k` routes the search generates, in order. */
  function Layers(routes: seq<Route>, k: nat): seq<Trail>
  {
    if k == 0 then [] else Layers(routes, k - 1) + Layer(routes, k)
  }

  /** The running maximum of `longest`: `m`, replaced by each trail of `ts` that is strictly
      longer (`BestIsFirstLongest`). */
  function Best(m: Trail, ts: seq<Trail>): Trail
  {
    if ts == [] then m
    else
      var b := Best(m, ts[..|ts| - 1]);
      var last := ts[|ts| - 1];
      if last.length > b.length then last else b
  }

  /** The running maximum is at least `m` and every trail of `ts`; it is `m` or the first trail of
      `ts` strictly longer than `m` and than every trail before it: ties keep the earlier one. */
  lemma {:induction false} BestIsFirstLongest(m: Trail, ts: seq<Trail>)
    ensures Best(m, ts).length >= m.length
    ensures forall i :: 0 <= i < |ts| ==> ts[i].length <= Best(m, ts).length
    ensures Best(m, ts) == m || exists i :: 0 <= i < |ts| && Best(m, ts) == ts[i]
    ensures Best(m, ts) != m ==>
              exists i :: 0 <= i < |ts| && Best(m, ts) == ts[i] && ts[i].length > m.length
                          && forall j :: 0 <= j < i ==> ts[j].length < ts[i].length
  {
    if ts != [] {
      var init := ts[..|ts| - 1];
      BestIsFirstLongest(m, init);
      assert forall i :: 0 <= i < |init| ==> init[i] == ts[i];
    }
  }

  /** `longest(routes)`: the empty trail for no route, otherwise the first longest trail of all
      those the search generates. */
  function LongestTrail(routes: seq<Route>): Trail
  {
    if routes == [] then EMPTY else Best(EMPTY, Layers(routes, |routes|))
  }

  // ----- the search generates exactly the trails -----

  lemma {:induction false} SinglesTrails(rs: seq<Route>, routes: seq<Route>)
    requires AllValid(routes) && forall i :: 0 <= i < |rs| ==> rs[i] in routes
    ensures forall i :: 0 <= i < |Singles(rs)| ==>
              IsTrail(Singles(rs)[i], routes) && |Singles(rs)[i].routes| == 1
  {
    if rs != [] {
      SinglesTrails(rs[..|rs| - 1], routes);
      var r := rs[|rs| - 1];
      RouteEnds(r, routes);
      assert [r][..0] == [];
      assert TotalLength([r]) == r.length;
      assert IsTrail(Trail(Some(r.station1), Some(r.station2), [r], r.length), routes);
      assert IsTrail(Trail(Some(r.station2), Some(r.station1), [r], r.length), routes);
    }
  }

  lemma StepTrails(t: Trail, r: Route, routes: seq<Route>)
    requires AllValid(routes) && IsTrail(t, routes) && r in routes
    ensures forall i :: 0 <= i < |Step(t, r)| ==>
              IsTrail(Step(t, r)[i], routes) && |Step(t, r)[i].routes| == |t.routes| + 1
  {
    Ends(t, routes);
    var rs := t.routes + [r];
    assert rs[..|rs| - 1] == t.routes;
    if r !in t.routes {
      forall i, j | 0 <= i < j < |rs| ensures rs[i] != rs[j] {
        if j == |rs| - 1 {
          assert rs[i] in t.routes;
        }
      }
    }
  }

  lemma {:induction false} GrowTrails(t: Trail, rs: seq<Route>, routes: seq<Route>)
    requires AllValid(routes) && IsTrail(t, routes) && forall i :: 0 <= i < |rs| ==> rs[i] in routes
    ensures forall i :: 0 <= i < |Grow(t, rs)| ==>
              IsTrail(Grow(t, rs)[i], routes) && |Grow(t, rs)[i].routes| == |t.routes| + 1
  {
    if rs != [] {
      GrowTrails(t, rs[..|rs| - 1], routes);
      StepTrails(t, rs[|rs| - 1], routes);
    }
  }

  lemma {:induction false} RoundTrails(ts: seq<Trail>, routes: seq<Route>, k: nat)
    requires AllValid(routes)
    requires forall i :: 0 <= i < |ts| ==> IsTrail(ts[i], routes) && |ts[i].routes| == k
    ensures forall i :: 0 <= i < |Round(ts, routes)| ==>
              IsTrail(Round(ts, routes)[i], routes) && |Round(ts, routes)[i].routes| == k + 1
  {
    if ts != [] {
      RoundTrails(ts[..|ts| - 1], routes, k);
      GrowTrails(ts[|ts| - 1], routes, routes);
    }
  }

  /** Every trail of the `k`-th round is a trail of `k` routes. */
  lemma {:induction false} LayerTrails(routes: seq<Route>, k: nat)
    requires AllValid(routes) && k >= 1
    ensures forall i :: 0 <= i < |Layer(routes, k)| ==>
              IsTrail(Layer(routes, k)[i], routes) && |Layer(routes, k)[i].routes| == k
  {
    if k == 1 {
      SinglesTrails(routes, routes);
    } else {
      LayerTrails(routes, k - 1);
      RoundTrails(Layer(routes, k - 1), routes, k - 1);
    }
  }

  lemma {:induction false} SinglesComplete(rs: seq<Route>, r: Route)
    requires r in rs
    ensures Trail(Some(r.station1), Some(r.station2), [r], r.length) in Singles(rs)
    ensures Trail(Some(r.station2), Some(r.station1), [r], r.length) in Singles(rs)
  {
    var init := rs[..|rs| - 1];
    if r != rs[|rs| - 1] {
      assert rs == init + [rs[|rs| - 1]];
      SinglesComplete(init, r);
    }
  }

  lemma {:induction false} GrowComplete(t: Trail, rs: seq<Route>, r: Route, x: Trail)
    requires r in rs && x in Step(t, r)
    ensures x in Grow(t, rs)
  {
    var init := rs[..|rs| - 1];
    if r != rs[|rs| - 1] {
      assert rs == init + [rs[|rs| - 1]];
      GrowComplete(t, init, r, x);
    }
  }

  lemma {:induction false} RoundComplete(ts: seq<Trail>, routes: seq<Route>, p: Trail, x: Trail)
    requires p in ts && x in Grow(p, routes)
    ensures x in Round(ts, routes)
  {
    var init := ts[..|ts| - 1];
    if p != ts[|ts| - 1] {
      assert ts == init + [ts[|ts| - 1]];
      RoundComplete(init, routes, p, x);
    }
  }

  /** A trail of several routes is the search's step from the trail of all its routes but the
      last. */
  lemma StepFromPrefix(t: Trail, routes: seq<Route>) returns (p: Trail)
    requires AllValid(routes) && IsTrail(t, routes) && |t.routes| >= 2
    ensures IsTrail(p, routes) && |p.routes| == |t.routes| - 1
    ensures t in Step(p, t.routes[|t.routes| - 1])
  {
    var n := |t.routes|;
    var init := t.routes[..n - 1];
    var r := t.routes[n - 1];
    p := Trail(t.start, Walk(t.start.value, init), init, TotalLength(init));
    assert forall i :: 0 <= i < n - 1 ==> init[i] == t.routes[i];
    assert r !in init by {
      forall i | 0 <= i < n - 1 ensures init[i] != r {
        assert t.routes[i] != t.routes[n - 1];
      }
    }
    Ends(p, routes);
    assert t.routes == init + [r];
    RouteEnds(r, routes);
  }

  lemma RouteEnds(r: Route, routes: seq<Route>)
    requires AllValid(routes) && r in routes
    ensures r.station1 != r.station2
  {
  }

  /** A trail of one route is that route walked forwards or backwards. */
  lemma OneRouteComplete(t: Trail, routes: seq<Route>)
    requires AllValid(routes) && IsTrail(t, routes) && |t.routes| == 1
    ensures t in Layer(routes, 1)
  {
    var r := t.routes[0];
    var st := t.start.value;
    assert t.routes == [r];
    assert [r][..0] == [];
    assert TotalLength([r]) == r.length;
    RouteEnds(r, routes);
    SinglesComplete(routes, r);
    assert Walk(st, [r][..0]) == Some(st);
    if st == r.station1 {
      assert t == Trail(Some(r.station1), Some(r.station2), [r], r.length);
    } else {
      assert t == Trail(Some(r.station2), Some(r.station1), [r], r.length);
    }
  }

  /** Every trail of `k` routes is generated in the `k`-th round. */
  lemma {:induction false} LayerComplete(t: Trail, routes: seq<Route>)
    requires AllValid(routes) && IsTrail(t, routes)
    ensures t in Layer(routes, |t.routes|)
    decreases |t.routes|, 1
  {
    if |t.routes| == 1 {
      OneRouteComplete(t, routes);
    } else {
      LongerComplete(t, routes);
    }
  }

  lemma {:induction false} LongerComplete(t: Trail, routes: seq<Route>)
    requires AllValid(routes) && IsTrail(t, routes) && |t.routes| >= 2
    ensures t in Layer(routes, |t.routes|)
    decreases |t.routes|, 0
  {
    var k := |t.routes|;
    var p := StepFromPrefix(t, routes);
    LayerComplete(p, routes);
    GrowComplete(p, routes, t.routes[k - 1], t);
    RoundComplete(Layer(routes, k - 1), routes, p, t);
    LayerSnoc(routes, k);
  }

  /** A list of distinct routes all taken from a set is no longer than the set. */
  lemma {:induction false} DistinctBound(rs: seq<Route>, s: set<Route>)
    requires Distinct(rs) && forall i :: 0 <= i < |rs| ==> rs[i] in s
    ensures |rs| <= |s|
  {
    if rs != [] {
      var x := rs[|rs| - 1];
      var init := rs[..|rs| - 1];
      forall i | 0 <= i < |init| ensures init[i] in s - {x} {
        assert init[i] == rs[i] != rs[|rs| - 1];
      }
      DistinctBound(init, s - {x});
    }
  }

  lemma {:induction false} ElementsBound(routes: seq<Route>)
    ensures |set r | r in routes| <= |routes|
  {
    if routes != [] {
      var init := routes[..|routes| - 1];
      ElementsBound(init);
      assert (set r | r in routes) == (set r | r in init) + {routes[|routes| - 1]};
    }
  }

  /** No trail has more routes than there are routes. */
  lemma TrailBound(t: Trail, routes: seq<Route>)
    requires IsTrail(t, routes)
    ensures |t.routes| <= |routes|
  {
    DistinctBound(t.routes, set r | r in routes);
    ElementsBound(routes);
  }

  /** Past the number of routes, a round generates nothing. */
  lemma LayerEmpty(routes: seq<Route>, k: nat)
    requires AllValid(routes) && k > |routes|
    ensures |Layer(routes, k)| == 0
  {
    LayerTrails(routes, k);
    if Layer(routes, k) != [] {
      TrailBound(Layer(routes, k)[0], routes);
    }
  }

  lemma LayerSnoc(routes: seq<Route>, k: nat)
    requires k >= 2
    ensures Layer(routes, k) == Round(Layer(routes, k - 1), routes)
  {
  }

  lemma LayersSnoc(routes: seq<Route>, n: nat)
    requires n >= 1
    ensures Layers(routes, n) == Layers(routes, n - 1) + Layer(routes, n)
  {
  }

  /** After a round that generates nothing, nothing more is generated. */
  lemma {:induction false} LayersStable(routes: seq<Route>, k: nat, n: nat)
    requires 1 <= k <= n + 1 && |Layer(routes, k)| == 0
    ensures Layers(routes, n) == Layers(routes, k - 1)
    decreases n, 1
  {
    if n >= k {
      LayersStableStep(routes, k, n);
    }
  }

  lemma {:induction false} LayersStableStep(routes: seq<Route>, k: nat, n: nat)
    requires 1 <= k <= n && |Layer(routes, k)| == 0
    ensures Layers(routes, n) == Layers(routes, k - 1)
    decreases n, 0
  {
    LayersStable(routes, k, n - 1);
    LaterLayersEmpty(routes, k, n);
    LayersAddNothing(routes, k, n);
  }

  lemma LayersAddNothing(routes: seq<Route>, k: nat, n: nat)
    requires 1 <= k <= n && Layers(routes, n - 1) == Layers(routes, k - 1) && |Layer(routes, n)| == 0
    ensures Layers(routes, n) == Layers(routes, k - 1)
  {
    LayersSnoc(routes, n);
  }

  lemma {:induction false} LaterLayersEmpty(routes: seq<Route>, k: nat, n: nat)
    requires 1 <= k <= n && |Layer(routes, k)| == 0
    ensures |Layer(routes, n)| == 0
    decreases n
  {
    if n > k {
      LaterLayersEmpty(routes, k, n - 1);
    }
  }

  lemma {:induction false} InLayers(routes: seq<Route>, k: nat, n: nat, t: Trail)
    requires 1 <= k <= n && t in Layer(routes, k)
    ensures t in Layers(routes, n)
    decreases n
  {
    LayersSnoc(routes, n);
    if n > k {
      InLayers(routes, k, n - 1, t);
    }
  }

  lemma {:induction false} BestConcat(m: Trail, a: seq<Trail>, b: seq<Trail>)
    ensures Best(m, a + b) == Best(Best(m, a), b)
    decreases |b|
  {
    if b == [] {
      assert a + b == a;
    } else {
      assert (a + b)[..|a + b| - 1] == a + b[..|b| - 1];
      BestConcat(m, a, b[..|b| - 1]);
    }
  }

  /** The search's answer for a non-empty list is a trail of those routes. */
  lemma LongestIsTrail(routes: seq<Route>)
    requires AllValid(routes) && routes != []
    ensures IsTrail(LongestTrail(routes), routes)
  {
    var all := Layers(routes, |routes|);
    SinglesTrails(routes, routes);
    assert Singles(routes)[0] in Layer(routes, 1);
    var first := Singles(routes)[0];
    InLayers(routes, 1, |routes|, first);
    Ends(first, routes);
    var r := LongestTrail(routes);
    BestIsFirstLongest(EMPTY, all);
    var i0 :| 0 <= i0 < |all| && all[i0] == first;
    assert r.length >= first.length > 0;
    var i :| 0 <= i < |all| && r == all[i];
    LayersTrails(routes, |routes|, r);
  }

  lemma {:induction false} LayersTrails(routes: seq<Route>, n: nat, t: Trail)
    requires AllValid(routes) && t in Layers(routes, n)
    ensures IsTrail(t, routes)
    decreases n
  {
    if t in Layers(routes, n - 1) {
      LayersTrails(routes, n - 1, t);
    } else {
      LayerTrails(routes, n);
    }
  }

  /** No trail of those routes is longer than the search's answer. */
  lemma LongestIsLongest(routes: seq<Route>, t: Trail)
    requires AllValid(routes) && IsTrail(t, routes)
    ensures t.length <= LongestTrail(routes).length
  {
    LayerComplete(t, routes);
    TrailBound(t, routes);
    InLayers(routes, |t.routes|, |routes|, t);
    BestIsFirstLongest(EMPTY, Layers(routes, |routes|));
  }

  // ----- the search -----

  /** The first trail of each route, walked from its first station. */
  function FromStation1(r: Route): Trail
  {
    Trail(Some(r.station1), Some(r.station2), [r], r.length)
  }

  /** The second trail of each route, walked from its second station. */
  function FromStation2(r: Route): Trail
  {
    Trail(Some(r.station2), Some(r.station1), [r], r.length)
  }

  lemma SinglesSnoc(routes: seq<Route>, i: nat)
    requires i < |routes|
    ensures Singles(routes[..i + 1]) == Singles(routes[..i]) + [FromStation1(routes[i]), FromStation2(routes[i])]
  {
    assert routes[..i + 1][..i] == routes[..i];
  }

  lemma GrowSnoc(t: Trail, routes: seq<Route>, j: nat)
    requires j < |routes|
    ensures Grow(t, routes[..j + 1]) == Grow(t, routes[..j]) + Step(t, routes[j])
  {
    assert routes[..j + 1][..j] == routes[..j];
  }

  lemma RoundSnoc(ts: seq<Trail>, routes: seq<Route>, i: nat)
    requires i < |ts|
    ensures Round(ts[..i + 1], routes) == Round(ts[..i], routes) + Grow(ts[i], routes)
  {
    assert ts[..i + 1][..i] == ts[..i];
  }

  lemma GrowInvariant(trails0: seq<Trail>, t: Trail, routes: seq<Route>, j: nat,
                      prev: seq<Trail>, trails2: seq<Trail>)
    requires j < |routes| && prev == trails0 + Grow(t, routes[..j])
    requires trails2 == prev + Step(t, routes[j])
    ensures trails2 == trails0 + Grow(t, routes[..j + 1])
  {
    GrowSnoc(t, routes, j);
  }

  lemma StepUsed(t: Trail, r: Route)
    requires r in t.routes
    ensures Step(t, r) == []
  {
  }

  lemma StepUnused(t: Trail, r: Route, prev: seq<Trail>, mid: seq<Trail>, next: seq<Trail>)
    requires r !in t.routes
    requires mid == prev + Forward(t, r) && next == mid + Backward(t, r)
    ensures next == prev + Step(t, r)
  {
  }

  /** Comparing one more trail with the running maximum. */
  lemma BestSnoc(m: Trail, ts: seq<Trail>, x: Trail)
    ensures Best(m, ts + [x]) == if x.length > Best(m, ts).length then x else Best(m, ts)
  {
    assert (ts + [x])[..|ts|] == ts;
  }

  /** `longest(routes)`: the single routes in both directions, then rounds that extend every
      trail of the previous round by each unused route leaving from its end, keeping the first
      strictly longest trail seen, until a round generates nothing. */
  method Longest(routes: seq<Route>) returns (longest: Trail)
    requires AllValid(routes)
    ensures longest == LongestTrail(routes)
    ensures routes == [] <==> longest == EMPTY
    ensures routes != [] ==> IsTrail(longest, routes)
    ensures forall t :: IsTrail(t, routes) ==> t.length <= longest.length
  {
    if routes == [] {
      return EMPTY;
    }
    var trails: seq<Trail> := [];
    longest := EMPTY;
    for i := 0 to |routes|
      invariant trails == Singles(routes[..i])
      invariant longest == Best(EMPTY, trails)
    {
      var route := routes[i];
      var first := Trail(Some(route.station1), Some(route.station2), [route], route.length);
      longest := if first.length > longest.length then first else longest;
      var second := Trail(Some(route.station2), Some(route.station1), [route], route.length);
      longest := if second.length > longest.length then second else longest;
      BestSnoc(EMPTY, trails, first);
      BestSnoc(EMPTY, trails + [first], second);
      SinglesSnoc(routes, i);
      assert trails + [first] + [second] == trails + [first, second];
      trails := trails + [first, second];
    }
    assert routes[..|routes|] == routes;
    LayersSnoc(routes, 1);
    assert Layers(routes, 0) == [];
    assert Layers(routes, 1) == trails;
    var k := 1;
    while trails != []
      invariant 1 <= k <= |routes| + 1
      invariant trails == Layer(routes, k)
      invariant longest == Best(EMPTY, Layers(routes, k))
      decreases |routes| + 1 - k
    {
      if k > |routes| {
        LayerEmpty(routes, k);
      }
      var trails2;
      trails2, longest := ExtendAll(trails, routes, longest);
      BestConcat(EMPTY, Layers(routes, k), trails2);
      LayerSnoc(routes, k + 1);
      LayersSnoc(routes, k + 1);
      trails := trails2;
      k := k + 1;
    }
    LongestFound(routes, k, longest);
    LongestIsTrail(routes);
    LongestIsLongestAll(routes);
  }

  /** When a round generates nothing, the maximum so far is the search's answer. */
  lemma LongestFound(routes: seq<Route>, k: nat, longest: Trail)
    requires AllValid(routes) && routes != [] && 1 <= k <= |routes| + 1
    requires |Layer(routes, k)| == 0 && longest == Best(EMPTY, Layers(routes, k))
    ensures longest == LongestTrail(routes)
  {
    LayersStable(routes, k, |routes|);
    LayersAddNothing(routes, k, k);
  }

  /** No trail of those routes is longer than the search's answer. */
  lemma LongestIsLongestAll(routes: seq<Route>)
    requires AllValid(routes)
    ensures forall t :: IsTrail(t, routes) ==> t.length <= LongestTrail(routes).length
  {
    forall t | IsTrail(t, routes) ensures t.length <= LongestTrail(routes).length {
      LongestIsLongest(routes, t);
    }
  }

  /** One round of the outer loop: every trail of `layer` extended by every route, in order. */
  method ExtendAll(layer: seq<Trail>, routes: seq<Route>, longest0: Trail)
    returns (trails2: seq<Trail>, longest: Trail)
    ensures trails2 == Round(layer, routes)
    ensures longest == Best(longest0, trails2)
  {
    trails2 := [];
    longest := longest0;
    for i := 0 to |layer|
      invariant trails2 == Round(layer[..i], routes)
      invariant longest == Best(longest0, trails2)
    {
      var trail := layer[i];
      trails2, longest := ExtendTrail(trail, routes, trails2, longest, longest0);
      assert routes[..|routes|] == routes;
      RoundSnoc(layer, routes, i);
    }
    assert layer[..|layer|] == layer;
  }

  /** The inner loop over the routes: each step from `trail` is appended to `trails2` and
      compared with the running maximum. */
  method ExtendTrail(trail: Trail, routes: seq<Route>, trails0: seq<Trail>, longest0: Trail,
                     ghost m: Trail)
    returns (trails2: seq<Trail>, longest: Trail)
    requires longest0 == Best(m, trails0)
    ensures trails2 == trails0 + Grow(trail, routes)
    ensures longest == Best(m, trails2)
  {
    trails2 := trails0;
    longest := longest0;
    for j := 0 to |routes|
      invariant trails2 == trails0 + Grow(trail, routes[..j])
      invariant longest == Best(m, trails2)
    {
      ghost var prev := trails2;
      trails2, longest := ExtendStep(trail, routes[j], trails2, longest, m);
      GrowInvariant(trails0, trail, routes, j, prev, trails2);
    }
    assert routes[..|routes|] == routes;
  }

  /** The body of the inner loop: `trail` followed by `route`, from whichever end of the route
      it arrives at, unless the route is already on it. */
  method ExtendStep(trail: Trail, route: Route, trails0: seq<Trail>, longest0: Trail, ghost m: Trail)
    returns (trails2: seq<Trail>, longest: Trail)
    requires longest0 == Best(m, trails0)
    ensures trails2 == trails0 + Step(trail, route)
    ensures longest == Best(m, trails2)
  {
    trails2 := trails0;
    longest := longest0;
    if route !in trail.routes {
      if Some(route.station1) == Station2(trail) {
        var newTrail := Trail(Station1(trail), Some(route.station2), trail.routes + [route],
                              trail.length + route.length);
        BestSnoc(m, trails2, newTrail);
        trails2 := trails2 + [newTrail];
        longest := if newTrail.length > longest.length then newTrail else longest;
      }
      ghost var mid := trails2;
      assert mid == trails0 + Forward(trail, route);
      if Some(route.station2) == Station2(trail) {
        var newTrail := Trail(Station1(trail), Some(route.station1), trail.routes + [route],
                              trail.length + route.length);
        BestSnoc(m, trails2, newTrail);
        trails2 := trails2 + [newTrail];
        longest := if newTrail.length > longest.length then newTrail else longest;
      }
      assert trails2 == mid + Backward(trail, route);
      StepUnused(trail, route, trails0, mid, trails2);
    } else {
      StepUsed(trail, route);
    }
  }

  // ----- text -----

  /** The stations a walk from `start` along `rs` passes, from `start` to where it arrives. */
  function StationsAlong(start: Station, rs: seq<Route>): (s: seq<Station>)
    requires Walk(start, rs).Some?
    ensures |s| == |rs| + 1 && s[0] == start && s[|rs|] == Walk(start, rs).value
  {
    if rs == [] then [start]
    else
      var init := StationsAlong(start, rs[..|rs| - 1]);
      init + [StationOpposite(rs[|rs| - 1], init[|init| - 1])]
  }

  /** Consecutive stations of the walk are the two ends of the route between them. */
  lemma {:induction false} StationsAlongSteps(start: Station, rs: seq<Route>, i: nat)
    requires Walk(start, rs).Some? && i < |rs|
    ensures var s := StationsAlong(start, rs);
            (s[i] == rs[i].station1 && s[i + 1] == rs[i].station2)
            || (s[i] == rs[i].station2 && s[i + 1] == rs[i].station1)
  {
    var init := rs[..|rs| - 1];
    if i < |rs| - 1 {
      assert init[i] == rs[i];
      StationsAlongSteps(start, init, i);
    }
  }

  /** The trails `toString` can print: the empty trail, or a walk of distinct routes. */
  predicate Printable(t: Trail)
  {
    t == EMPTY || (t.start.Some? && Walk(t.start.value, t.routes).Some? && Distinct(t.routes))
  }

  function Names(stations: seq<Station>): (names: seq<string>)
    ensures |names| == |stations|
  {
    seq(|stations|, i requires 0 <= i < |stations| => stations[i].name)
  }

  /** `toString()`: "empty (0)" for the empty trail; otherwise the names of the stations passed,
      separated by " - ", then the length in parentheses. */
  function TrailText(t: Trail): string
    requires Printable(t)
  {
    if t == EMPTY then "empty (0)"
    else
      Text.Join(Names(StationsAlong(t.start.value, t.routes)), " - ")
      + " (" + Text.IntToString(t.length) + ")"
  }

  /** A trail of one route reads "from - to (length)". */
  lemma OneRouteText(r: Route, routes: seq<Route>)
    requires AllValid(routes) && r in routes
    ensures var t := Trail(Some(r.station1), Some(r.station2), [r], r.length);
            IsTrail(t, routes) && Printable(t)
            && TrailText(t) == r.station1.name + " - " + r.station2.name + " (" + Text.IntToString(r.length) + ")"
  {
    var t := Trail(Some(r.station1), Some(r.station2), [r], r.length);
    assert t.routes[..0] == [];
    var s := StationsAlong(r.station1, [r]);
    assert s == [r.station1, r.station2];
    var names := Names(s);
    assert names == [r.station1.name, r.station2.name];
    assert names[1..] == [r.station2.name];
  }

  /** Every trail the search finds can be printed. */
  lemma TrailsPrintable(t: Trail, routes: seq<Route>)
    requires IsTrail(t, routes)
    ensures Printable(t) && t != EMPTY
  {
  }

  /** `routes.indexOf(route)`: the first position of `route`. */
  function IndexOf(rs: seq<Route>, r: Route): (k: nat)
    requires r in rs
    ensures k < |rs| && rs[k] == r
    ensures forall j :: 0 <= j < k ==> rs[j] != r
  {
    if rs[0] == r then 0 else 1 + IndexOf(rs[1..], r)
  }

  lemma WalkPrefix(start: Station, rs: seq<Route>, i: nat)
    requires i <= |rs| && Walk(start, rs).Some?
    ensures Walk(start, rs[..i]).Some?
    decreases |rs| - i
  {
    if i < |rs| {
      assert rs[..|rs| - 1][..i] == rs[..i];
      WalkPrefix(start, rs[..|rs| - 1], i);
    } else {
      assert rs[..i] == rs;
    }
  }

  /** `toString()`: each route's far end is added after the station at its position, then the
      names are joined. */
  method ToString(t: Trail) returns (s: string)
    requires Printable(t)
    ensures s == TrailText(t)
  {
    if t == EMPTY {
      return "empty (0)";
    }
    var stations := StationsOf(t.start.value, t.routes);
    var names := NamesOf(stations);
    s := Text.Join(names, " - ") + " (" + Text.IntToString(t.length) + ")";
  }

  /** The first loop of `toString()`: the route at position `i` is looked up by `indexOf`, and
      the station across it from the `i`-th station is added. */
  method StationsOf(start: Station, routes: seq<Route>) returns (stations: seq<Station>)
    requires Walk(start, routes).Some? && Distinct(routes)
    ensures stations == StationsAlong(start, routes)
  {
    stations := [start];
    for i := 0 to |routes|
      invariant Walk(start, routes[..i]).Some?
      invariant stations == StationsAlong(start, routes[..i])
    {
      var route := routes[i];
      var at := IndexOf(routes, route);
      WalkPrefix(start, routes, i + 1);
      assert routes[..i + 1][..i] == routes[..i];
      stations := stations + [StationOpposite(route, stations[at])];
    }
    assert routes[..|routes|] == routes;
  }

  /** The second loop of `toString()`: the stations' names, in order. */
  method NamesOf(stations: seq<Station>) returns (names: seq<string>)
    ensures names == Names(stations)
  {
    names := [];
    for i := 0 to |stations|
      invariant names == Names(stations[..i])
    {
      names := names + [stations[i].name];
    }
    assert stations[..|stations|] == stations;
  }
}
