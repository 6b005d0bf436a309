/** The whole card state (src/ch/epfl/tchu/game/CardState.java): the face-up cards, the deck and
    the discard. Every transition returns a new state. */
module CardStates {
  import opened Cards
  import Constants
  import opened Decks
  import PublicCardStates

  datatype CardState = CardState(faceUpCards: seq<Card>, deck: Deck<Card>, discard: multiset<Card>)

  /** The public constructor's checks: five face-up cards. */
  predicate Valid(s: CardState)
  {
    |s.faceUpCards| == Constants.FACE_UP_CARDS_COUNT
  }

  /** The public part: the face-up cards and the two sizes. */
  function Public(s: CardState): (p: PublicCardStates.PublicCardState)
    requires Valid(s)
    ensures PublicCardStates.Valid(p)
    ensures PublicCardStates.IsDeckEmpty(p) <==> IsEmpty(s.deck)
  {
    PublicCardStates.New(s.faceUpCards, Size(s.deck), |s.discard|)
  }

  /** Every card the state holds: face up, in the deck or in the discard. */
  function Total(s: CardState): multiset<Card>
  {
    multiset(s.faceUpCards) + multiset(s.deck.cards) + s.discard
  }

  /** `of(deck)`: the top five cards, in sorted order, are laid face up; the rest is the deck and
      the discard is empty. */
  function Of(deck: Deck<Card>): (s: CardState)
    requires Size(deck) >= Constants.FACE_UP_CARDS_COUNT
    ensures Valid(s)
    ensures multiset(s.faceUpCards) == TopCards(deck, Constants.FACE_UP_CARDS_COUNT)
    ensures s.deck == WithoutTopCards(deck, Constants.FACE_UP_CARDS_COUNT)
    ensures s.discard == multiset{}
    ensures Total(s) == multiset(deck.cards)
  {
    CardState(SortedCards(TopCards(deck, Constants.FACE_UP_CARDS_COUNT)),
              WithoutTopCards(deck, Constants.FACE_UP_CARDS_COUNT), multiset{})
  }

  /** The face-up cards of a new card state are in enum order. */
  lemma OfSorted(deck: Deck<Card>)
    requires Size(deck) >= Constants.FACE_UP_CARDS_COUNT
    ensures forall i, j :: 0 <= i <= j < |Of(deck).faceUpCards| ==>
              Ordinal(Of(deck).faceUpCards[i]) <= Ordinal(Of(deck).faceUpCards[j])
  {
    SortedCardsOrdered(TopCards(deck, Constants.FACE_UP_CARDS_COUNT));
  }

  /** `withDrawnFaceUpCard(slot)`: the top deck card replaces the card in `slot`, which leaves the
      state (to the player's hand); the other slots and the discard do not change. */
  function WithDrawnFaceUpCard(s: CardState, slot: int): (r: CardState)
    requires Valid(s) && !IsEmpty(s.deck)
    requires 0 <= slot < Constants.FACE_UP_CARDS_COUNT
    ensures Valid(r)
    ensures r.faceUpCards[slot] == TopCard(s.deck)
    ensures forall i :: 0 <= i < |r.faceUpCards| && i != slot ==> r.faceUpCards[i] == s.faceUpCards[i]
    ensures Size(r.deck) == Size(s.deck) - 1 && r.discard == s.discard
    ensures Total(r) + multiset{s.faceUpCards[slot]} == Total(s)
  {
    TopAndRest(s.deck);
    var faceUp := s.faceUpCards[slot := TopCard(s.deck)];
    assert multiset(faceUp) + multiset{s.faceUpCards[slot]} == multiset(s.faceUpCards) + multiset{TopCard(s.deck)};
    CardState(faceUp, WithoutTopCard(s.deck), s.discard)
  }

  /** `withDeckRecreatedFromDiscards(rng)`: with an empty deck, the discard shuffled becomes the
      deck and the discard is emptied; `shuffled` stands for the order the shuffle produced. */
  function WithDeckRecreatedFromDiscards(s: CardState, shuffled: seq<Card>): (r: CardState)
    requires IsEmpty(s.deck) && multiset(shuffled) == s.discard
    ensures r.faceUpCards == s.faceUpCards && r.discard == multiset{}
    ensures multiset(r.deck.cards) == s.discard
    ensures Total(r) == Total(s)
  {
    assert s.deck.cards == [];
    CardState(s.faceUpCards, Decks.Of(s.discard, shuffled), multiset{})
  }

  /** `withMoreDiscardedCards(additional)`: the bag joins the discard; nothing else changes. */
  function WithMoreDiscardedCards(s: CardState, additional: multiset<Card>): (r: CardState)
    ensures r.faceUpCards == s.faceUpCards && r.deck == s.deck
    ensures r.discard == s.discard + additional
    ensures Total(r) == Total(s) + additional
  {
    CardState(s.faceUpCards, s.deck, s.discard + additional)
  }

  /** `topDeckCard()`: the card on top of a non-empty deck. */
  function TopDeckCard(s: CardState): (c: Card)
    requires !IsEmpty(s.deck)
    ensures c in s.deck.cards && c in Total(s)
  {
    TopCard(s.deck)
  }

  /** `withoutTopDeckCard()`: the top deck card leaves the state (to a player or to the tunnel
      draw); the face-up cards and the discard do not change. */
  function WithoutTopDeckCard(s: CardState): (r: CardState)
    requires !IsEmpty(s.deck)
    ensures r.faceUpCards == s.faceUpCards && r.discard == s.discard
    ensures Size(r.deck) == Size(s.deck) - 1
    ensures Total(r) + multiset{TopDeckCard(s)} == Total(s)
  {
    TopAndRest(s.deck);
    CardState(s.faceUpCards, WithoutTopCard(s.deck), s.discard)
  }
}
