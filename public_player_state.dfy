/** What every player sees of a player (src/ch/epfl/tchu/game/PublicPlayerState.java): how many
    tickets and cards they hold and the routes they claimed, from which the remaining cars and
    the claim points are derived. */
module PublicPlayerStates {
  import opened Routes
  import Constants

  datatype PublicPlayerState = PublicPlayerState(ticketCount: int, cardCount: int, routes: seq<Route>)

  /** The constructor's checks: no negative count, and (as every route of the map) valid routes. */
  predicate Valid(s: PublicPlayerState)
  {
    s.ticketCount >= 0 && s.cardCount >= 0 && AllValid(s.routes)
  }

  /** The constructor: it refuses a negative ticket or card count and copies the routes. */
  function New(ticketCount: int, cardCount: int, routes: seq<Route>): (s: PublicPlayerState)
    requires ticketCount >= 0 && cardCount >= 0
    ensures AllValid(routes) ==> Valid(s)
    ensures s.ticketCount == ticketCount && s.cardCount == cardCount && s.routes == routes
  {
    PublicPlayerState(ticketCount, cardCount, routes)
  }

  /** The sum of the claim points of the routes. */
  function TotalClaimPoints(rs: seq<Route>): int
    requires AllValid(rs)
  {
    if rs == [] then 0 else TotalClaimPoints(rs[..|rs| - 1]) + ClaimPoints(rs[|rs| - 1])
  }

  /** `carCount()`: the cars left of the initial forty once every route's cars are placed. */
  function CarCount(s: PublicPlayerState): int
  {
    Constants.INITIAL_CAR_COUNT - TotalLength(s.routes)
  }

  /** `claimPoints()`: the points the claimed routes score. */
  function ClaimPointsOf(s: PublicPlayerState): int
    requires Valid(s)
  {
    TotalClaimPoints(s.routes)
  }

  /** `totalForCarCount`: the loop adding up the routes' lengths. */
  method TotalForCarCount(routes: seq<Route>) returns (total: int)
    ensures total == TotalLength(routes)
  {
    total := 0;
    for i := 0 to |routes|
      invariant total == TotalLength(routes[..i])
    {
      assert routes[..i + 1][..i] == routes[..i];
      total := total + routes[i].length;
    }
    assert routes[..|routes|] == routes;
  }

  /** `totalForClaimPoints`: the loop adding up the routes' claim points. */
  method TotalForClaimPoints(routes: seq<Route>) returns (total: int)
    requires AllValid(routes)
    ensures total == TotalClaimPoints(routes)
  {
    total := 0;
    for i := 0 to |routes|
      invariant total == TotalClaimPoints(routes[..i])
    {
      assert routes[..i + 1][..i] == routes[..i];
      total := total + ClaimPoints(routes[i]);
    }
    assert routes[..|routes|] == routes;
  }

  /** Both sums add up over a concatenation, so they do not depend on the order in which routes
      were claimed. */
  lemma {:induction false} TotalsAppend(a: seq<Route>, b: seq<Route>)
    requires AllValid(a) && AllValid(b)
    ensures AllValid(a + b)
    ensures TotalLength(a + b) == TotalLength(a) + TotalLength(b)
    ensures TotalClaimPoints(a + b) == TotalClaimPoints(a) + TotalClaimPoints(b)
    decreases |b|
  {
    if b != [] {
      var b' := b[..|b| - 1];
      assert (a + b)[..|a + b| - 1] == a + b';
      TotalsAppend(a, b');
    } else {
      assert a + b == a;
    }
  }

  /** A player with more routes has fewer cars left: every route costs at least one car and
      scores at least as many points as it has cars. */
  lemma {:induction false} TotalsBounds(rs: seq<Route>)
    requires AllValid(rs)
    ensures TotalClaimPoints(rs) >= TotalLength(rs) >= |rs|
    decreases |rs|
  {
    if rs != [] {
      TotalsBounds(rs[..|rs| - 1]);
    }
  }

  /** Without routes a player has all forty cars and no claim points. */
  lemma NoRoutes(ticketCount: int, cardCount: int)
    requires ticketCount >= 0 && cardCount >= 0
    ensures CarCount(New(ticketCount, cardCount, [])) == Constants.INITIAL_CAR_COUNT
    ensures ClaimPointsOf(New(ticketCount, cardCount, [])) == 0
  {
  }
}
