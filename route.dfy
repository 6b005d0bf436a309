/** A route between two stations (src/ch/epfl/tchu/game/Route.java): which card bags can claim
    it, what a tunnel costs in extra cards, and what it scores. */
module Routes {
  import opened Wrappers
  import opened Stations
  import Colors
  import opened Cards
  import Bags
  import Constants

  datatype Level = Overground | Underground

  /** `color` is `None` for a grey route, which any colour can claim. */
  datatype Route = Route(id: string, station1: Station, station2: Station, length: int,
                         level: Level, color: Option<Colors.Color>)

  /** The constructor's checks: two different stations and a length between the bounds. */
  predicate Valid(r: Route)
  {
    r.station1 != r.station2 && Constants.MIN_ROUTE_LENGTH <= r.length <= Constants.MAX_ROUTE_LENGTH
  }

  /** Every route of the list passes the constructor's checks. */
  predicate AllValid(routes: seq<Route>)
  {
    forall i :: 0 <= i < |routes| ==> Valid(routes[i])
  }

  /** The sum of the routes' lengths. */
  function TotalLength(rs: seq<Route>): int
  {
    if rs == [] then 0 else TotalLength(rs[..|rs| - 1]) + rs[|rs| - 1].length
  }

  /** `stations()`: the two ends, first station first. */
  function StationsOf(r: Route): (s: seq<Station>)
    ensures |s| == 2 && s[0] == r.station1 && s[1] == r.station2
  {
    [r.station1, r.station2]
  }

  /** `stationOpposite(station)`: the other end of the route. */
  function StationOpposite(r: Route, station: Station): (other: Station)
    requires station == r.station1 || station == r.station2
    ensures station == r.station1 ==> other == r.station2
    ensures station != r.station1 ==> other == r.station1
    ensures Valid(r) ==> other != station && (other == r.station1 || other == r.station2)
  {
    if station == r.station1 then r.station2 else r.station1
  }

  // ----- claim candidates -----

  /** A car card may pay for a route of colour `color`: any car when the route is grey. */
  predicate Matches(card: Card, color: Option<Colors.Color>)
  {
    color.None? || card.Color() == color
  }

  /** The cars of `cars` that may pay for a route of colour `color`, in order. */
  function MatchingCars(cars: seq<Card>, color: Option<Colors.Color>): (m: seq<Card>)
    ensures |m| <= |cars|
    ensures forall k :: 0 <= k < |m| ==> Matches(m[k], color)
    decreases |cars|
  {
    if cars == [] then []
    else if Matches(cars[0], color) then [cars[0]] + MatchingCars(cars[1..], color)
    else MatchingCars(cars[1..], color)
  }

  /** Every car matches a grey route: the whole list is kept. */
  lemma {:induction false} MatchingCarsGrey(cars: seq<Card>)
    ensures MatchingCars(cars, None) == cars
    decreases |cars|
  {
    if cars != [] {
      MatchingCarsGrey(cars[1..]);
    }
  }

  /** When exactly one car of the list has the route's colour, it alone is kept. */
  lemma {:induction false} MatchingCarsOne(cars: seq<Card>, color: Colors.Color, i: nat)
    requires i < |cars| && cars[i].Color() == Some(color)
    requires forall k :: 0 <= k < |cars| && k != i ==> cars[k].Color() != Some(color)
    ensures MatchingCars(cars, Some(color)) == [cars[i]]
    decreases |cars|
  {
    if i > 0 {
      MatchingCarsOne(cars[1..], color, i - 1);
    } else {
      MatchingCarsNone(cars[1..], color);
    }
  }

  lemma {:induction false} MatchingCarsNone(cars: seq<Card>, color: Colors.Color)
    requires forall k :: 0 <= k < |cars| ==> cars[k].Color() != Some(color)
    ensures MatchingCars(cars, Some(color)) == []
    decreases |cars|
  {
    if cars != [] {
      MatchingCarsNone(cars[1..], color);
    }
  }

  /** A grey route can be paid in any of the eight colours, a coloured one in its own only. */
  lemma MatchingCarsShape(color: Option<Colors.Color>)
    ensures color.None? ==> MatchingCars(CARS, color) == CARS
    ensures color.Some? ==> MatchingCars(CARS, color) == [Of(color.value)]
  {
    if color.None? {
      MatchingCarsGrey(CARS);
    } else {
      var i := Colors.Ordinal(color.value);
      CardFacts();
      Colors.AllColors();
      assert CARS[i].Color() == Some(color.value);
      forall k | 0 <= k < |CARS| && k != i ensures CARS[k].Color() != Some(color.value) {
        assert Colors.ALL[k] != Colors.ALL[i];
      }
      MatchingCarsOne(CARS, color.value, i);
      assert Of(color.value) == CARS[i];
    }
  }

  /** `length - i` cards of `card` and `i` locomotives. */
  function Mixed(card: Card, length: nat, i: nat): (b: multiset<Card>)
    requires i <= length
    ensures |b| == length
    ensures forall c :: c in b ==> c == card || c == Locomotive
  {
    Bags.RepeatCount(card, length - i);
    Bags.RepeatCount(Locomotive, i);
    Bags.Copies(card, length - i) + Bags.Copies(Locomotive, i)
  }

  /** One candidate per matching car, with `i` locomotives each. */
  function Row(cars: seq<Card>, length: nat, i: nat): (row: seq<multiset<Card>>)
    requires i <= length
    ensures |row| == |cars|
  {
    seq(|cars|, k requires 0 <= k < |cars| => Mixed(cars[k], length, i))
  }

  /** The rows for `0, 1, …, n - 1` locomotives, in that order. */
  function Rows(cars: seq<Card>, length: nat, n: nat): seq<multiset<Card>>
    requires n <= length
  {
    if n == 0 then [] else Rows(cars, length, n - 1) + Row(cars, length, n - 1)
  }

  /** `possibleClaimCards()`: for an overground route, `length` cards of each matching car; for
      a tunnel, every mix of matching cars and locomotives by ascending locomotive count, ending
      with `length` locomotives. */
  function ClaimCandidates(r: Route): seq<multiset<Card>>
    requires Valid(r)
  {
    CandidatesFrom(CARS, r)
  }

  /** The candidates built from the car list `cars`. */
  function CandidatesFrom(cars: seq<Card>, r: Route): seq<multiset<Card>>
    requires Valid(r)
  {
    var m := MatchingCars(cars, r.color);
    if r.level == Overground then Row(m, r.length, 0)
    else Rows(m, r.length, r.length) + [Bags.Copies(Locomotive, r.length)]
  }

  /** The rows hold `n` rows of `|cars|` bags. */
  lemma {:induction false} RowsLength(cars: seq<Card>, length: nat, n: nat)
    requires n <= length
    ensures |Rows(cars, length, n)| == n * |cars|
  {
    if n > 0 {
      RowsLength(cars, length, n - 1);
      assert n * |cars| == (n - 1) * |cars| + |cars|;
    }
  }

  /** Every element of the rows is one of the mixes. */
  lemma {:induction false} RowsMembers(cars: seq<Card>, length: nat, n: nat, b: multiset<Card>)
    requires n <= length && b in Rows(cars, length, n)
    ensures exists i, k :: 0 <= i < n && 0 <= k < |cars| && b == Mixed(cars[k], length, i)
  {
    if n > 0 {
      var rows := Rows(cars, length, n - 1);
      if b in rows {
        RowsMembers(cars, length, n - 1, b);
      } else {
        var k :| 0 <= k < |cars| && Row(cars, length, n - 1)[k] == b;
        assert b == Mixed(cars[k], length, n - 1);
      }
    }
  }

  /** Every candidate holds exactly `length` cards, all of them matching cars or locomotives;
      overground routes offer one candidate per matching colour and tunnels one per colour and
      locomotive count, plus the all-locomotive one. */
  lemma ClaimCandidatesShape(r: Route)
    requires Valid(r)
    ensures var m := MatchingCars(CARS, r.color);
            var c := ClaimCandidates(r);
            (r.level == Overground ==> |c| == |m|) &&
            (r.level == Underground ==> |c| == r.length * |m| + 1 &&
                                        c[|c| - 1] == Bags.Copies(Locomotive, r.length))
    ensures forall b :: b in ClaimCandidates(r) ==>
              |b| == r.length && forall card :: card in b ==> card == Locomotive || Matches(card, r.color)
  {
    var m := MatchingCars(CARS, r.color);
    RowsLength(m, r.length, r.length);
    forall b | b in ClaimCandidates(r)
      ensures |b| == r.length && forall card :: card in b ==> card == Locomotive || Matches(card, r.color)
    {
      CandidateMember(r, b);
    }
  }

  /** A candidate is a mix of one matching car with locomotives. */
  lemma CandidateMember(r: Route, b: multiset<Card>)
    requires Valid(r) && b in ClaimCandidates(r)
    ensures |b| == r.length && forall card :: card in b ==> card == Locomotive || Matches(card, r.color)
  {
    var m := MatchingCars(CARS, r.color);
    if r.level == Overground {
      var k :| 0 <= k < |m| && Row(m, r.length, 0)[k] == b;
      assert b == Mixed(m[k], r.length, 0);
    } else if b in Rows(m, r.length, r.length) {
      RowsMembers(m, r.length, r.length, b);
      var i, k :| 0 <= i < r.length && 0 <= k < |m| && b == Mixed(m[k], r.length, i);
    } else {
      assert b == Bags.Copies(Locomotive, r.length);
      Bags.RepeatCount(Locomotive, r.length);
    }
  }

  /** `possibleClaimCards()`, whose loops run over `CARS`. */
  method PossibleClaimCards(r: Route) returns (cards: seq<multiset<Card>>)
    requires Valid(r)
    ensures cards == ClaimCandidates(r)
  {
    cards := CandidatesLoop(CARS, r);
  }

  /** The loops of `possibleClaimCards` over a car list: the overground loop over the cars, or
      the tunnel's loop over locomotive counts and cars, then the all-locomotive bag. */
  method CandidatesLoop(cars: seq<Card>, r: Route) returns (cards: seq<multiset<Card>>)
    requires Valid(r)
    ensures cards == CandidatesFrom(cars, r)
  {
    if r.level == Overground {
      cards := RowLoop(cars, r.color, r.length, 0);
    } else {
      cards := [];
      for i := 0 to r.length
        invariant cards == Rows(MatchingCars(cars, r.color), r.length, i)
      {
        var row := RowLoop(cars, r.color, r.length, i);
        cards := cards + row;
      }
      cards := cards + [Bags.Copies(Locomotive, r.length)];
    }
  }

  /** The inner loop over the cars: one bag of `length - i` cards of each matching car and `i`
      locomotives (with no locomotive, `length` cards of that car). */
  method RowLoop(cars: seq<Card>, color: Option<Colors.Color>, length: nat, i: nat)
    returns (row: seq<multiset<Card>>)
    requires i <= length
    ensures row == Row(MatchingCars(cars, color), length, i)
  {
    row := [];
    for k := 0 to |cars|
      invariant row == Row(MatchingCars(cars[..k], color), length, i)
    {
      var card := cars[k];
      RowStep(cars, k, color, length, i);
      if Matches(card, color) {
        row := row + [if i == 0 then Bags.Copies(card, length) else Mixed(card, length, i)];
      }
    }
    assert cars[..|cars|] == cars;
  }

  /** One more car read from the list: its mix joins the row when it matches. */
  lemma RowStep(cars: seq<Card>, k: nat, color: Option<Colors.Color>, length: nat, i: nat)
    requires k < |cars| && i <= length
    ensures Row(MatchingCars(cars[..k + 1], color), length, i)
            == Row(MatchingCars(cars[..k], color), length, i)
               + (if Matches(cars[k], color) then [Mixed(cars[k], length, i)] else [])
    ensures Mixed(cars[k], length, 0) == Bags.Copies(cars[k], length)
  {
    assert cars[..k + 1] == cars[..k] + [cars[k]];
    MatchingCarsSnoc(cars[..k], cars[k], color);
    assert Bags.Copies(Locomotive, 0) == multiset{};
  }

  /** Matching along a list grows by the next car when it matches. */
  lemma {:induction false} MatchingCarsSnoc(cars: seq<Card>, card: Card, color: Option<Colors.Color>)
    ensures MatchingCars(cars + [card], color)
            == MatchingCars(cars, color) + (if Matches(card, color) then [card] else [])
    decreases |cars|
  {
    if cars == [] {
      assert MatchingCars([card], color) == (if Matches(card, color) then [card] else []) + MatchingCars([], color);
    } else {
      assert (cars + [card])[1..] == cars[1..] + [card];
      MatchingCarsSnoc(cars[1..], card, color);
    }
  }

  // ----- tunnel cost -----

  /** A drawn card costs one more card when it occurs in the claim cards or is a locomotive. */
  predicate Costs(claimCards: multiset<Card>, card: Card)
  {
    card in claimCards || card == Locomotive
  }

  /** How many cards of `drawn`, read in order, cost an extra card. */
  function CountCosting(claimCards: multiset<Card>, drawn: seq<Card>): (n: nat)
    ensures n <= |drawn|
  {
    if drawn == [] then 0
    else CountCosting(claimCards, drawn[..|drawn| - 1]) + (if Costs(claimCards, drawn[|drawn| - 1]) then 1 else 0)
  }

  /** The drawn cards of the bag `drawn` that cost an extra card, summed kind by kind along
      `order`. */
  function CountBag(claimCards: multiset<Card>, drawn: multiset<Card>, order: seq<Card>): nat
  {
    if order == [] then 0
    else (if Costs(claimCards, order[0]) then drawn[order[0]] else 0) + CountBag(claimCards, drawn, order[1..])
  }

  /** No kind of card is listed twice. */
  predicate Distinct(order: seq<Card>)
  {
    forall i, j :: 0 <= i < j < |order| ==> order[i] != order[j]
  }

  lemma {:induction false} CountBagEmpty(claimCards: multiset<Card>, order: seq<Card>)
    ensures CountBag(claimCards, multiset{}, order) == 0
  {
    if order != [] {
      CountBagEmpty(claimCards, order[1..]);
    }
  }

  /** One more drawn card adds one to the sum when it costs and its kind is listed. */
  lemma {:induction false} CountBagAdd(claimCards: multiset<Card>, drawn: multiset<Card>, x: Card, order: seq<Card>)
    requires Distinct(order)
    ensures CountBag(claimCards, drawn + multiset{x}, order)
            == CountBag(claimCards, drawn, order) + (if x in order && Costs(claimCards, x) then 1 else 0)
  {
    if order != [] {
      CountBagAdd(claimCards, drawn, x, order[1..]);
      if x == order[0] {
        forall k | 0 <= k < |order[1..]|
          ensures order[1..][k] != x
        {
          assert order[k + 1] != order[0];
        }
      }
    }
  }

  /** Counting a list card by card equals summing its bag kind by kind. */
  lemma {:induction false} CountCostingBag(claimCards: multiset<Card>, s: seq<Card>, order: seq<Card>)
    requires Distinct(order) && forall k :: 0 <= k < |s| ==> s[k] in order
    ensures CountCosting(claimCards, s) == CountBag(claimCards, multiset(s), order)
    decreases |s|
  {
    if s == [] {
      CountBagEmpty(claimCards, order);
    } else {
      var init := s[..|s| - 1];
      var x := s[|s| - 1];
      assert s == init + [x];
      CountCostingBag(claimCards, init, order);
      CountBagAdd(claimCards, multiset(init), x, order);
    }
  }

  /** `additionalClaimCardsCount`, as a function of the two bags: the drawn cards, counted with
      their multiplicity, that occur in the claim cards or are locomotives: with two red claim
      cards, drawing a red card, a locomotive and a blue card costs two more cards. */
  function AdditionalCount(claimCards: multiset<Card>, drawnCards: multiset<Card>): nat
  {
    CountBag(claimCards, drawnCards, ALL)
  }

  /** Any listing of the drawn cards, read in order, gives the count: the order in which the
      cards are examined does not matter, and the count never exceeds the number of cards. */
  lemma AdditionalCountAnyOrder(claimCards: multiset<Card>, drawn: seq<Card>)
    ensures AdditionalCount(claimCards, multiset(drawn)) == CountCosting(claimCards, drawn)
    ensures AdditionalCount(claimCards, multiset(drawn)) <= |drawn|
  {
    CardFacts();
    OrdinalsIncreasing();
    CountCostingBag(claimCards, drawn, ALL);
  }

  /** The loop of `additionalClaimCardsCount` over the drawn cards in sorted order. */
  method AdditionalClaimCardsCount(r: Route, claimCards: multiset<Card>, drawnCards: multiset<Card>)
    returns (n: nat)
    requires |drawnCards| == Constants.ADDITIONAL_TUNNEL_CARDS && r.level == Underground
    ensures n == AdditionalCount(claimCards, drawnCards)
    ensures 0 <= n <= 3
  {
    var drawn := SortedList(drawnCards);
    n := 0;
    for i := 0 to |drawn|
      invariant n == CountCosting(claimCards, drawn[..i])
    {
      assert drawn[..i + 1][..i] == drawn[..i];
      if drawn[i] in claimCards || drawn[i] == Locomotive {
        n := n + 1;
      }
    }
    assert drawn[..|drawn|] == drawn;
    AdditionalCountAnyOrder(claimCards, drawn);
  }

  // ----- points -----

  /** `claimPoints()`: the points a route of this length scores when claimed. */
  function ClaimPoints(r: Route): (p: int)
    requires Valid(r)
    ensures p >= r.length > 0
  {
    Constants.ROUTE_CLAIM_POINTS[r.length]
  }

  /** Longer routes score strictly more. */
  lemma ClaimPointsIncreasing(r1: Route, r2: Route)
    requires Valid(r1) && Valid(r2) && r1.length < r2.length
    ensures ClaimPoints(r1) < ClaimPoints(r2)
  {
  }
}
