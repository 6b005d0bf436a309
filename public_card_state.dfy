/** What every player sees of the cards (src/ch/epfl/tchu/game/PublicCardState.java): the five
    face-up cards and the sizes of the deck and of the discard. */
module PublicCardStates {
  import opened Cards
  import Constants

  datatype PublicCardState = PublicCardState(faceUpCards: seq<Card>, deckSize: int, discardsSize: int)

  /** The constructor's checks: five face-up cards and no negative size. */
  predicate Valid(s: PublicCardState)
  {
    |s.faceUpCards| == Constants.FACE_UP_CARDS_COUNT && s.deckSize >= 0 && s.discardsSize >= 0
  }

  /** The constructor: it refuses anything but five face-up cards and non-negative sizes. */
  function New(faceUpCards: seq<Card>, deckSize: int, discardsSize: int): (s: PublicCardState)
    requires |faceUpCards| == Constants.FACE_UP_CARDS_COUNT
    requires deckSize >= 0 && discardsSize >= 0
    ensures Valid(s)
    ensures s.faceUpCards == faceUpCards && s.deckSize == deckSize && s.discardsSize == discardsSize
  {
    PublicCardState(faceUpCards, deckSize, discardsSize)
  }

  /** `faceUpCard(slot)`: the card in a slot between 0 and 4. */
  function FaceUpCard(s: PublicCardState, slot: int): (c: Card)
    requires Valid(s) && 0 <= slot < Constants.FACE_UP_CARDS_COUNT
    ensures c in s.faceUpCards
  {
    s.faceUpCards[slot]
  }

  function IsDeckEmpty(s: PublicCardState): bool
  {
    s.deckSize == 0
  }

  /** The constructor keeps what it is given, and the deck is empty exactly when its size is 0. */
  lemma Accessors(faceUpCards: seq<Card>, deckSize: int, discardsSize: int, slot: int)
    requires |faceUpCards| == Constants.FACE_UP_CARDS_COUNT && deckSize >= 0 && discardsSize >= 0
    requires 0 <= slot < Constants.FACE_UP_CARDS_COUNT
    ensures FaceUpCard(New(faceUpCards, deckSize, discardsSize), slot) == faceUpCards[slot]
    ensures IsDeckEmpty(New(faceUpCards, deckSize, discardsSize)) <==> deckSize == 0
  {
  }
}
