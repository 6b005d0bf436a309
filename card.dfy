/** The nine kinds of card: one car card per colour and the colourless locomotive
    (src/ch/epfl/tchu/game/Card.java). */
module Cards {
  import Colors
  import Bags
  import opened Wrappers

  datatype Card = Black | Violet | Blue | Green | Yellow | Orange | Red | White | Locomotive {

    /** `color()`: the colour of a car card; the locomotive has none (Java's null). */
    function Color(): Option<Colors.Color>
    {
      match this
      case Black => Some(Colors.Black)
      case Violet => Some(Colors.Violet)
      case Blue => Some(Colors.Blue)
      case Green => Some(Colors.Green)
      case Yellow => Some(Colors.Yellow)
      case Orange => Some(Colors.Orange)
      case Red => Some(Colors.Red)
      case White => Some(Colors.White)
      case Locomotive => None
    }
  }

  /** `Card.ALL`, in declaration order; enum comparison follows this order. */
  const ALL: seq<Card> := [Black, Violet, Blue, Green, Yellow, Orange, Red, White, Locomotive]

  /** `Card.COUNT`. */
  const COUNT: nat := |ALL|

  /** `Card.CARS`: every card but the locomotive. */
  const CARS: seq<Card> := [Black, Violet, Blue, Green, Yellow, Orange, Red, White]

  /** The position of a card in `ALL`, i.e. its enum ordinal. */
  function Ordinal(c: Card): (i: nat)
    ensures i < COUNT && ALL[i] == c
  {
    match c
    case Black => 0
    case Violet => 1
    case Blue => 2
    case Green => 3
    case Yellow => 4
    case Orange => 5
    case Red => 6
    case White => 7
    case Locomotive => 8
  }

  /** The first card of `cars` whose colour is `color`, as the lookup loop of `Card.of` finds it. */
  function FirstOfColor(cars: seq<Card>, color: Colors.Color): (r: Option<Card>)
    ensures r.Some? ==> r.value in cars && r.value.Color() == Some(color)
    ensures r.None? ==> forall k :: 0 <= k < |cars| ==> cars[k].Color() != Some(color)
  {
    if cars == [] then None
    else if cars[0].Color() == Some(color) then Some(cars[0])
    else FirstOfColor(cars[1..], color)
  }

  /** `Card.of(color)`: the car card of the given colour. */
  function Of(color: Colors.Color): (card: Card)
    ensures card in CARS && card.Color() == Some(color)
  {
    var r := FirstOfColor(CARS, color);
    assert r.Some? by {
      assert CARS[Colors.Ordinal(color)].Color() == Some(color);
    }
    r.value
  }

  /** The shape of the card enumeration. */
  lemma CardFacts()
    ensures COUNT == 9
    ensures forall c: Card :: c in ALL
    ensures forall c: Card :: c.Color().None? <==> c == Locomotive
    ensures CARS == ALL[..8]
    ensures forall i :: 0 <= i < 8 ==> CARS[i].Color() == Some(Colors.ALL[i])
  {
    forall c: Card ensures c in ALL {
      assert ALL[Ordinal(c)] == c;
    }
  }

  /** A card's ordinal is its index in `ALL`, so `ALL` is in increasing order. */
  lemma OrdinalsIncreasing()
    ensures forall i :: 0 <= i < COUNT ==> Ordinal(ALL[i]) == i
    ensures forall i, j :: 0 <= i < j < COUNT ==> Ordinal(ALL[i]) < Ordinal(ALL[j])
  {
    forall i | 0 <= i < COUNT ensures Ordinal(ALL[i]) == i {
    }
  }

  lemma CardsInAll(b: multiset<Card>)
    ensures forall c :: c in b ==> c in ALL
  {
    forall c | c in b ensures c in ALL {
      assert ALL[Ordinal(c)] == c;
    }
  }

  lemma SortedCardsContents(b: multiset<Card>)
    ensures multiset(Bags.ToList(b, ALL)) == b
  {
    CardsInAll(b);
    Bags.ToListContents(b, ALL);
  }

  lemma SortedCardsOrdered(b: multiset<Card>)
    ensures forall i, j :: 0 <= i <= j < |Bags.ToList(b, ALL)| ==>
              Ordinal(Bags.ToList(b, ALL)[i]) <= Ordinal(Bags.ToList(b, ALL)[j])
  {
    OrdinalsIncreasing();
    var rank := (c: Card) => Ordinal(c);
    assert forall i, j :: 0 <= i < j < |ALL| ==> rank(ALL[i]) < rank(ALL[j]);
    Bags.ToListSorted(b, ALL, rank);
  }

  /** `SortedBag<Card>.toList()`: the cards of a bag in enum order (`SortedCardsOrdered`). */
  function SortedCards(b: multiset<Card>): (s: seq<Card>)
    ensures multiset(s) == b && |s| == |b|
  {
    SortedCardsContents(b);
    assert |multiset(Bags.ToList(b, ALL))| == |Bags.ToList(b, ALL)|;
    Bags.ToList(b, ALL)
  }

  /** Iterating over a bag of cards: its cards in enum order. */
  method SortedList(b: multiset<Card>) returns (s: seq<Card>)
    ensures multiset(s) == b && |s| == |b|
    ensures forall i, j :: 0 <= i <= j < |s| ==> Ordinal(s[i]) <= Ordinal(s[j])
  {
    s := SortedCards(b);
    SortedCardsOrdered(b);
  }
}
