/** The game's numeric rules. `Constants.java` is not part of this model; these are the values
    its fields hold in the game's rules, named as the Java code names them. */
module Constants {
  import opened Cards
  import Bags

  const MIN_ROUTE_LENGTH: int := 1
  const MAX_ROUTE_LENGTH: int := 6
  const INITIAL_CAR_COUNT: int := 40
  const INITIAL_CARDS_COUNT: nat := 4
  const FACE_UP_CARDS_COUNT: nat := 5
  const DECK_SLOT: int := -1
  const ADDITIONAL_TUNNEL_CARDS: nat := 3
  const INITIAL_TICKETS_COUNT: nat := 5
  const IN_GAME_TICKETS_COUNT: nat := 3
  const LONGEST_TRAIL_BONUS_POINTS: int := 10
  const CAR_CARDS_COUNT: nat := 12
  const LOCOMOTIVE_CARDS_COUNT: nat := 14

  /** `ROUTE_CLAIM_POINTS`, indexed by route length; index 0 holds `Integer.MIN_VALUE`. */
  const ROUTE_CLAIM_POINTS: seq<int> := [-2147483648, 1, 2, 4, 7, 10, 15]

  /** How many cards of kind `c` the game holds. */
  function CopiesOf(c: Card): nat
  {
    if c == Locomotive then LOCOMOTIVE_CARDS_COUNT else CAR_CARDS_COUNT
  }

  /** The game's cards of the kinds in `kinds`. */
  function CardsOf(kinds: seq<Card>): multiset<Card>
  {
    if kinds == [] then multiset{} else Bags.Copies(kinds[0], CopiesOf(kinds[0])) + CardsOf(kinds[1..])
  }

  /** `ALL_CARDS`: twelve cards of each colour and fourteen locomotives. */
  function AllCards(): multiset<Card>
  {
    CardsOf(Cards.ALL)
  }

  /** Twelve cards of each car of `cars`, then fourteen locomotives. */
  lemma {:induction false} CardsOfSize(cars: seq<Card>)
    requires Locomotive !in cars
    ensures |CardsOf(cars + [Locomotive])| == CAR_CARDS_COUNT * |cars| + LOCOMOTIVE_CARDS_COUNT
  {
    if cars == [] {
      assert cars + [Locomotive] == [Locomotive];
      assert [Locomotive][1..] == [];
    } else {
      CardsOfSize(cars[1..]);
      assert (cars + [Locomotive])[1..] == cars[1..] + [Locomotive];
    }
  }

  lemma AllCardsSize()
    ensures |AllCards()| == 110
  {
    CardsOfSize(Cards.CARS);
    assert Cards.ALL == Cards.CARS + [Locomotive];
  }

  /** A shuffle of all the cards lists 110 of them. */
  lemma ShuffleSize(order: seq<Card>)
    requires multiset(order) == AllCards()
    ensures |order| == 110
  {
    AllCardsSize();
    assert |order| == |multiset(order)|;
  }
}
