/** A player's whole state (src/ch/epfl/tchu/game/PlayerState.java): the tickets and cards they
    hold and the routes they claimed. Every `with…` returns a new state. */
module PlayerStates {
  import opened Stations
  import opened Cards
  import opened Routes
  import Tickets
  import Bags
  import Constants
  import PublicPlayerStates
  import StationPartitions

  datatype PlayerState = PlayerState(tickets: multiset<Tickets.Ticket>, cards: multiset<Card>,
                                     routes: seq<Route>)

  /** Tickets and routes are built by their constructors, whose checks they pass. */
  predicate Valid(s: PlayerState)
  {
    AllValid(s.routes) && forall t | t in s.tickets :: Tickets.Valid(t)
  }

  /** The public part: the ticket and card counts are the sizes of the two bags. */
  function Public(s: PlayerState): (p: PublicPlayerStates.PublicPlayerState)
    ensures p.ticketCount == |s.tickets| && p.cardCount == |s.cards| && p.routes == s.routes
    ensures Valid(s) ==> PublicPlayerStates.Valid(p)
  {
    PublicPlayerStates.New(|s.tickets|, |s.cards|, s.routes)
  }

  function CarCount(s: PlayerState): int
  {
    PublicPlayerStates.CarCount(Public(s))
  }

  function ClaimPointsOf(s: PlayerState): int
    requires Valid(s)
  {
    PublicPlayerStates.ClaimPointsOf(Public(s))
  }

  /** `initial(initialCards)`: four cards, no ticket and no route. */
  function Initial(initialCards: multiset<Card>): (s: PlayerState)
    requires |initialCards| == Constants.INITIAL_CARDS_COUNT
    ensures Valid(s) && s.tickets == multiset{} && s.cards == initialCards && s.routes == []
    ensures CarCount(s) == Constants.INITIAL_CAR_COUNT && ClaimPointsOf(s) == 0
  {
    PlayerState(multiset{}, initialCards, [])
  }

  /** `withAddedTickets(newTickets)`: the union of the two ticket bags; nothing else changes. */
  function WithAddedTickets(s: PlayerState, newTickets: multiset<Tickets.Ticket>): (r: PlayerState)
    ensures r.tickets == s.tickets + newTickets && r.cards == s.cards && r.routes == s.routes
    ensures Public(r).ticketCount == Public(s).ticketCount + |newTickets|
  {
    PlayerState(s.tickets + newTickets, s.cards, s.routes)
  }

  /** `withAddedCard(card)`: one more card; nothing else changes. */
  function WithAddedCard(s: PlayerState, card: Card): (r: PlayerState)
    ensures r.cards == s.cards + multiset{card} && r.tickets == s.tickets && r.routes == s.routes
    ensures Public(r).cardCount == Public(s).cardCount + 1
  {
    PlayerState(s.tickets, s.cards + multiset{card}, s.routes)
  }

  // ----- claiming a route -----

  /** The player has the cars for `route` and holds one of its claim candidates. */
  predicate CanClaim(s: PlayerState, route: Route)
    requires Routes.Valid(route)
  {
    CarCount(s) >= route.length &&
    exists i :: 0 <= i < |ClaimCandidates(route)| && ClaimCandidates(route)[i] <= s.cards
  }

  /** `canClaimRoute(route)`: the cars are checked first, then the candidates. */
  method CanClaimRoute(s: PlayerState, route: Route) returns (can: bool)
    requires Routes.Valid(route)
    ensures can <==> CanClaim(s, route)
  {
    var carCount := PublicPlayerStates.TotalForCarCount(s.routes);
    can := false;
    if Constants.INITIAL_CAR_COUNT - carCount >= route.length {
      var candidates := Routes.PossibleClaimCards(route);
      can := AnyHeld(candidates, s.cards);
    }
  }

  /** The loop of `canClaimRoute`, which stops at the first candidate the player holds. */
  method AnyHeld(candidates: seq<multiset<Card>>, cards: multiset<Card>) returns (can: bool)
    ensures can <==> exists i :: 0 <= i < |candidates| && candidates[i] <= cards
  {
    for i := 0 to |candidates|
      invariant forall k :: 0 <= k < i ==> !(candidates[k] <= cards)
    {
      if candidates[i] <= cards {
        return true;
      }
    }
    return false;
  }

  /** The candidates contained in `cards`, in their order. */
  function Contained(candidates: seq<multiset<Card>>, cards: multiset<Card>): seq<multiset<Card>>
  {
    if candidates == [] then []
    else
      var last := candidates[|candidates| - 1];
      Contained(candidates[..|candidates| - 1], cards) + (if last <= cards then [last] else [])
  }

  /** A bag is kept exactly when it is a candidate the player holds. */
  lemma {:induction false} ContainedMembers(candidates: seq<multiset<Card>>, cards: multiset<Card>)
    ensures forall b :: b in Contained(candidates, cards) <==> b in candidates && b <= cards
    ensures |Contained(candidates, cards)| <= |candidates|
    decreases |candidates|
  {
    if candidates != [] {
      var init := candidates[..|candidates| - 1];
      ContainedMembers(init, cards);
      assert candidates == init + [candidates[|candidates| - 1]];
    }
  }

  /** `possibleClaimCards(route)`: the route's candidates the player holds, in the route's order. */
  method PossibleClaimCards(s: PlayerState, route: Route) returns (options: seq<multiset<Card>>)
    requires Routes.Valid(route) && CarCount(s) >= route.length
    ensures options == Contained(ClaimCandidates(route), s.cards)
  {
    var candidates := Routes.PossibleClaimCards(route);
    options := Held(candidates, s.cards);
  }

  /** The loop of `possibleClaimCards`, keeping the candidates the player holds. */
  method Held(candidates: seq<multiset<Card>>, cards: multiset<Card>) returns (options: seq<multiset<Card>>)
    ensures options == Contained(candidates, cards)
  {
    options := [];
    for i := 0 to |candidates|
      invariant options == Contained(candidates[..i], cards)
    {
      assert candidates[..i + 1][..i] == candidates[..i];
      if candidates[i] <= cards {
        options := options + [candidates[i]];
      }
    }
    assert candidates[..|candidates|] == candidates;
  }

  /** Some candidate is held exactly when the filter keeps at least one. */
  lemma AnyHeldIffContained(candidates: seq<multiset<Card>>, cards: multiset<Card>)
    ensures (exists i :: 0 <= i < |candidates| && candidates[i] <= cards) <==>
              |Contained(candidates, cards)| > 0
  {
    ContainedMembers(candidates, cards);
    if |Contained(candidates, cards)| > 0 {
      assert Contained(candidates, cards)[0] in Contained(candidates, cards);
    }
    if exists i :: 0 <= i < |candidates| && candidates[i] <= cards {
      var i :| 0 <= i < |candidates| && candidates[i] <= cards;
      assert candidates[i] in Contained(candidates, cards);
    }
  }

  /** A player can claim a route exactly when it has the cars and `possibleClaimCards` offers
      at least one bag; every bag offered holds `length` cards the player has. */
  lemma CanClaimIffOptions(s: PlayerState, route: Route)
    requires Routes.Valid(route)
    ensures CanClaim(s, route) <==>
              CarCount(s) >= route.length && |Contained(ClaimCandidates(route), s.cards)| > 0
    ensures forall b :: b in Contained(ClaimCandidates(route), s.cards) ==>
              b <= s.cards && |b| == route.length
  {
    var c := ClaimCandidates(route);
    AnyHeldIffContained(c, s.cards);
    ContainedMembers(c, s.cards);
    forall b | b in Contained(c, s.cards) ensures b <= s.cards && |b| == route.length {
      CandidateMember(route, b);
    }
  }

  /** `withClaimedRoute(route, claimCards)`: the route is appended and the cards leave the hand;
      the tickets do not change. */
  function WithClaimedRoute(s: PlayerState, route: Route, claimCards: multiset<Card>): (r: PlayerState)
    ensures r.routes == s.routes + [route] && r.cards == s.cards - claimCards && r.tickets == s.tickets
    ensures CarCount(r) == CarCount(s) - route.length
    ensures claimCards <= s.cards ==> r.cards + claimCards == s.cards
    ensures Valid(s) && Routes.Valid(route) ==>
              Valid(r) && ClaimPointsOf(r) == ClaimPointsOf(s) + ClaimPoints(route)
  {
    var r := PlayerState(s.tickets, s.cards - claimCards, s.routes + [route]);
    assert r.routes[..|r.routes| - 1] == s.routes;
    r
  }

  // ----- additional tunnel cards -----

  /** The cards left once the initial claim cards are set aside that may pay for a tunnel:
      those of the kinds of the initial cards, and locomotives. */
  ghost function Usable(removed: multiset<Card>, initial: multiset<Card>): (u: multiset<Card>)
    ensures forall c :: u[c] == if c in initial || c == Locomotive then removed[c] else 0
    decreases |removed|
  {
    if removed == multiset{} then multiset{}
    else
      var c :| c in removed;
      Usable(removed - multiset{c}, initial) +
        (if c in initial || c == Locomotive then multiset{c} else multiset{})
  }

  /** A bag that may be added to pay for a tunnel: `n` usable cards the player still holds. */
  predicate IsAdditionalOption(s: PlayerState, initial: multiset<Card>, n: int, x: multiset<Card>)
  {
    x <= s.cards - initial && |x| == n && forall c :: c in x ==> c in initial || c == Locomotive
  }

  /** The card kinds, locomotives first, along which the options are enumerated. */
  method Kinds() returns (kinds: seq<Card>)
    ensures Bags.NoDuplicates(kinds) && |kinds| > 0 && kinds[0] == Locomotive
    ensures forall c: Card :: c in kinds
  {
    kinds := [Locomotive] + CARS;
    CardFacts();
    forall c: Card ensures c in kinds {
      if c != Locomotive {
        assert c in ALL[..8];
      }
    }
  }

  /** `possibleAdditionalCards(n, initialCards)`: every bag of `n` usable cards, each once, by
      ascending number of locomotives; none when fewer than `n` usable cards are left. */
  method PossibleAdditionalCards(s: PlayerState, n: int, initial: multiset<Card>)
    returns (options: seq<multiset<Card>>)
    requires 1 <= n <= Constants.ADDITIONAL_TUNNEL_CARDS
    requires |initial| > 0 && |set c | c in initial| <= 2
    ensures forall x :: x in options <==> IsAdditionalOption(s, initial, n, x)
    ensures Bags.NoDuplicates(options)
    ensures forall i, j :: 0 <= i <= j < |options| ==> options[i][Locomotive] <= options[j][Locomotive]
    ensures |options| == 0 <==> |Usable(s.cards - initial, initial)| < n
  {
    var usable := UsableCards(s.cards - initial, initial);
    var kinds := Kinds();
    options := [];
    if n <= |usable| {
      options := Bags.SubBags(usable, kinds, n);
    }
    OptionsFacts(s, initial, n, usable, kinds, options);
  }

  /** The builder loop of `possibleAdditionalCards` over the remaining cards in order. */
  method UsableCards(removed: multiset<Card>, initial: multiset<Card>) returns (usable: multiset<Card>)
    ensures usable == Usable(removed, initial)
  {
    var listed := SortedList(removed);
    usable := multiset{};
    for i := 0 to |listed|
      invariant UsableCounts(usable, multiset(listed[..i]), initial)
    {
      assert listed[..i + 1] == listed[..i] + [listed[i]];
      UsableStep(usable, multiset(listed[..i]), listed[i], initial);
      if listed[i] in initial || listed[i] == Locomotive {
        usable := usable + multiset{listed[i]};
      }
    }
    assert listed[..|listed|] == listed;
    UsableIs(usable, removed, initial);
  }

  /** `u` holds, of each kind, the cards of `removed` that may be used and nothing else. */
  ghost predicate UsableCounts(u: multiset<Card>, removed: multiset<Card>, initial: multiset<Card>)
  {
    forall c :: u[c] == if c in initial || c == Locomotive then removed[c] else 0
  }

  /** One more card left adds it to the usable cards when it may be used. */
  lemma UsableStep(u: multiset<Card>, removed: multiset<Card>, c: Card, initial: multiset<Card>)
    requires UsableCounts(u, removed, initial)
    ensures UsableCounts(u + if c in initial || c == Locomotive then multiset{c} else multiset{},
                         removed + multiset{c}, initial)
  {
  }

  lemma UsableIs(u: multiset<Card>, removed: multiset<Card>, initial: multiset<Card>)
    requires UsableCounts(u, removed, initial)
    ensures u == Usable(removed, initial)
  {
  }

  /** The options drawn from the usable cards are the sub-bags of them of size `n`. */
  lemma OptionsFacts(s: PlayerState, initial: multiset<Card>, n: nat, usable: multiset<Card>,
                     kinds: seq<Card>, options: seq<multiset<Card>>)
    requires usable == Usable(s.cards - initial, initial)
    requires Bags.NoDuplicates(kinds) && |kinds| > 0 && kinds[0] == Locomotive
    requires forall c: Card :: c in kinds
    requires options == if n <= |usable| then Bags.SubBags(usable, kinds, n) else []
    ensures forall x :: x in options <==> IsAdditionalOption(s, initial, n, x)
    ensures Bags.NoDuplicates(options)
    ensures forall i, j :: 0 <= i <= j < |options| ==> options[i][Locomotive] <= options[j][Locomotive]
    ensures |options| == 0 <==> |usable| < n
  {
    forall x ensures IsAdditionalOption(s, initial, n, x) <==> x <= usable && |x| == n {
      UsableOption(s, initial, n, usable, x);
    }
    if n <= |usable| {
      forall x ensures x in options <==> x <= usable && |x| == n {
        if x in options {
          Bags.SubBagsSound(usable, kinds, n, x);
        }
        if x <= usable && |x| == n {
          Bags.SubBagsComplete(usable, kinds, n, x);
        }
      }
      Bags.SubBagsDistinct(usable, kinds, n);
      Bags.SpreadOrdered(usable, kinds, n, 0);
      var x := Bags.SubBagExists(usable, n);
      assert x in options;
    } else {
      forall x | x <= usable ensures |x| <= |usable| {
        assert usable == x + (usable - x);
      }
    }
  }

  /** An option is exactly a bag of `n` usable cards. */
  lemma UsableOption(s: PlayerState, initial: multiset<Card>, n: nat, usable: multiset<Card>, x: multiset<Card>)
    requires usable == Usable(s.cards - initial, initial)
    ensures IsAdditionalOption(s, initial, n, x) <==> x <= usable && |x| == n
  {
    if IsAdditionalOption(s, initial, n, x) {
      WithinUsable(s.cards - initial, initial, x);
    }
    if x <= usable {
      UsableWithin(s.cards - initial, initial, x);
    }
  }

  /** Usable cards the player holds form a bag of usable cards. */
  lemma WithinUsable(rest: multiset<Card>, initial: multiset<Card>, x: multiset<Card>)
    requires x <= rest && forall c :: c in x ==> c in initial || c == Locomotive
    ensures x <= Usable(rest, initial)
  {
    var usable := Usable(rest, initial);
    forall c ensures x[c] <= usable[c] {
      if c in x {
        assert x[c] <= rest[c];
      }
    }
  }

  /** A bag of usable cards holds only cards the player has and may use. */
  lemma UsableWithin(rest: multiset<Card>, initial: multiset<Card>, x: multiset<Card>)
    requires x <= Usable(rest, initial)
    ensures x <= rest && forall c :: c in x ==> c in initial || c == Locomotive
  {
    var usable := Usable(rest, initial);
    forall c | c in x ensures c in initial || c == Locomotive {
      assert usable[c] > 0;
    }
    forall c ensures x[c] <= rest[c] {
      assert usable[c] <= rest[c];
    }
  }

  // ----- ticket points -----

  /** The `connect` calls made for the routes, in order. */
  function RouteEdges(routes: seq<Route>): seq<StationPartitions.Edge>
  {
    seq(|routes|, k requires 0 <= k < |routes| => (routes[k].station1.id, routes[k].station2.id))
  }

  /** Two stations are connected by the routes when the routes' `connect` calls join them. */
  function Reach(routes: seq<Route>): Connectivity
  {
    (a: Station, b: Station) => StationPartitions.Joined(RouteEdges(routes), a.id, b.id)
  }

  /** The sum, with multiplicity, of the tickets' points. */
  ghost function TicketSum(tickets: multiset<Tickets.Ticket>, connected: Connectivity): int
    requires forall t | t in tickets :: Tickets.Valid(t)
    decreases |tickets|
  {
    if tickets == multiset{} then 0
    else
      var t :| t in tickets;
      assert Tickets.Valid(t);
      Tickets.Points(t.trips, connected) + TicketSum(tickets - multiset{t}, connected)
  }

  /** The sum does not depend on which ticket is taken first. */
  lemma {:induction false} TicketSumAny(tickets: multiset<Tickets.Ticket>, connected: Connectivity, t: Tickets.Ticket)
    requires (forall u | u in tickets :: Tickets.Valid(u)) && t in tickets
    ensures TicketSum(tickets, connected) ==
              Tickets.Points(t.trips, connected) + TicketSum(tickets - multiset{t}, connected)
    decreases |tickets|
  {
    var u :| u in tickets && TicketSum(tickets, connected) ==
               Tickets.Points(u.trips, connected) + TicketSum(tickets - multiset{u}, connected);
    if u != t {
      var withoutU, withoutT := tickets - multiset{u}, tickets - multiset{t};
      assert withoutU - multiset{t} == withoutT - multiset{u};
      TicketSumAny(withoutU, connected, t);
      TicketSumAny(withoutT, connected, u);
    }
  }

  /** Points are counted with multiplicity: the sum over a union is the sum of the sums. */
  lemma {:induction false} TicketSumUnion(a: multiset<Tickets.Ticket>, b: multiset<Tickets.Ticket>, connected: Connectivity)
    requires forall u | u in a + b :: Tickets.Valid(u)
    ensures TicketSum(a + b, connected) == TicketSum(a, connected) + TicketSum(b, connected)
    decreases |b|
  {
    if b == multiset{} {
      assert a + b == a;
    } else {
      var t :| t in b;
      TicketSumAny(a + b, connected, t);
      TicketSumAny(b, connected, t);
      assert a + b - multiset{t} == a + (b - multiset{t});
      TicketSumUnion(a, b - multiset{t}, connected);
    }
  }

  /** Where more stations are connected, the tickets score at least as much. */
  lemma {:induction false} TicketSumMonotone(tickets: multiset<Tickets.Ticket>, c1: Connectivity, c2: Connectivity)
    requires forall u | u in tickets :: Tickets.Valid(u)
    requires forall a, b :: c1(a, b) ==> c2(a, b)
    ensures TicketSum(tickets, c1) <= TicketSum(tickets, c2)
    decreases |tickets|
  {
    if tickets != multiset{} {
      var t :| t in tickets;
      TicketSumAny(tickets, c1, t);
      TicketSumAny(tickets, c2, t);
      Tickets.PointsMonotone(t.trips, c1, c2);
      TicketSumMonotone(tickets - multiset{t}, c1, c2);
    }
  }

  /** `ticketPoints()`: the tickets' points, each against the stations the player's routes
      connect. */
  ghost function TicketPointsOf(s: PlayerState): int
    requires Valid(s)
  {
    TicketSum(s.tickets, Reach(s.routes))
  }

  /** The partition `ticketPoints` builds: a builder over ids up to the largest id of a route's
      station, one `connect` per route, then `build`. */
  method PartitionOf(routes: seq<Route>) returns (partition: StationPartitions.StationPartition)
    ensures forall a, b :: StationPartitions.Connected(partition, a, b) <==> Reach(routes)(a, b)
  {
    var idMax := 0;
    for i := 0 to |routes|
      invariant forall k :: 0 <= k < i ==> routes[k].station1.id <= idMax && routes[k].station2.id <= idMax
    {
      if routes[i].station1.id > idMax {
        idMax := routes[i].station1.id;
      }
      if routes[i].station2.id > idMax {
        idMax := routes[i].station2.id;
      }
    }
    var builder := new StationPartitions.Builder(idMax + 1);
    for i := 0 to |routes|
      invariant builder.Valid() && fresh(builder.a) && builder.a.Length == idMax + 1
      invariant builder.edges == RouteEdges(routes[..i])
    {
      builder.Connect(routes[i].station1, routes[i].station2);
      assert RouteEdges(routes[..i + 1]) == RouteEdges(routes[..i]) + [(routes[i].station1.id, routes[i].station2.id)];
    }
    assert routes[..|routes|] == routes;
    partition := builder.Build();
    forall a, b ensures StationPartitions.Connected(partition, a, b) <==> Reach(routes)(a, b) {
      StationPartitions.ConnectedJoined(partition, RouteEdges(routes), a, b);
    }
  }

  /** `ticketPoints()`: the sum over the tickets of their points against the partition. The
      tickets are taken in any order. */
  method TicketPoints(s: PlayerState) returns (points: int)
    requires Valid(s)
    ensures points == TicketPointsOf(s)
  {
    var partition := PartitionOf(s.routes);
    var connected := (a: Station, b: Station) => StationPartitions.Connected(partition, a, b);
    ghost var reach := Reach(s.routes);
    points := 0;
    var remaining := s.tickets;
    while remaining != multiset{}
      invariant remaining <= s.tickets
      invariant points + TicketSum(remaining, reach) == TicketSum(s.tickets, reach)
      decreases |remaining|
    {
      var t :| t in remaining;
      var p := Tickets.ComputePoints(t, connected);
      Tickets.PointsMonotone(t.trips, connected, reach);
      Tickets.PointsMonotone(t.trips, reach, connected);
      TicketSumAny(remaining, reach, t);
      points := points + p;
      remaining := remaining - multiset{t};
    }
  }

  /** `finalPoints()`: claim points plus ticket points. */
  method FinalPoints(s: PlayerState) returns (points: int)
    requires Valid(s)
    ensures points == ClaimPointsOf(s) + TicketPointsOf(s)
  {
    var claim := PublicPlayerStates.TotalForClaimPoints(s.routes);
    var tickets := TicketPoints(s);
    points := claim + tickets;
  }

  /** Claiming a route never lowers the ticket points: the new `connect` separates no stations. */
  lemma ClaimNeverLowersTicketPoints(s: PlayerState, route: Route, claimCards: multiset<Card>)
    requires Valid(s) && Routes.Valid(route)
    ensures TicketPointsOf(WithClaimedRoute(s, route, claimCards)) >= TicketPointsOf(s)
  {
    var r := WithClaimedRoute(s, route, claimCards);
    var e := (route.station1.id, route.station2.id);
    assert RouteEdges(r.routes) == RouteEdges(s.routes) + [e];
    forall a, b | Reach(s.routes)(a, b) ensures Reach(r.routes)(a, b) {
      StationPartitions.JoinedGrows(RouteEdges(s.routes), e, a.id, b.id);
    }
    TicketSumMonotone(s.tickets, Reach(s.routes), Reach(r.routes));
  }

  /** New tickets add their own points to the ticket points; a new card changes nothing. */
  lemma AddedTicketsPoints(s: PlayerState, newTickets: multiset<Tickets.Ticket>, card: Card)
    requires Valid(s) && forall t | t in newTickets :: Tickets.Valid(t)
    ensures Valid(WithAddedTickets(s, newTickets))
    ensures TicketPointsOf(WithAddedTickets(s, newTickets)) ==
              TicketPointsOf(s) + TicketSum(newTickets, Reach(s.routes))
    ensures TicketPointsOf(WithAddedCard(s, card)) == TicketPointsOf(s)
  {
    TicketSumUnion(s.tickets, newTickets, Reach(s.routes));
  }
}
