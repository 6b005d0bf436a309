/** The eight car colours (src/ch/epfl/tchu/game/Color.java). */
module Colors {

  datatype Color = Black | Violet | Blue | Green | Yellow | Orange | Red | White

  /** `Color.ALL`, in declaration order; a colour's index in it is its ordinal. */
  const ALL: seq<Color> := [Black, Violet, Blue, Green, Yellow, Orange, Red, White]

  /** `Color.COUNT`. */
  const COUNT: nat := |ALL|

  /** The position of a colour in `ALL`. */
  function Ordinal(c: Color): (i: nat)
    ensures i < COUNT && ALL[i] == c
  {
    match c
    case Black => 0
    case Violet => 1
    case Blue => 2
    case Green => 3
    case Yellow => 4
    case Orange => 5
    case Red => 6
    case White => 7
  }

  /** There are eight colours, each listed once, so an index identifies its colour. */
  lemma AllColors()
    ensures COUNT == 8
    ensures forall c: Color :: c in ALL
    ensures forall i, j :: 0 <= i < j < COUNT ==> ALL[i] != ALL[j]
  {
    forall c: Color ensures c in ALL {
      assert ALL[Ordinal(c)] == c;
    }
  }
}
