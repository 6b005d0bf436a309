/** A deck of cards or tickets (src/ch/epfl/tchu/game/Deck.java): an immutable list whose first
    element is the top. Every operation returns a new deck. */
module Decks {
  import Constants

  datatype Deck<C> = Deck(cards: seq<C>)

  /** `of(cards, rng)`: the bag's elements in shuffled order. The shuffle is not modelled: the
      order `shuffled` stands for what `Collections.shuffle` produced, any listing of the bag. */
  function Of<C>(cards: multiset<C>, shuffled: seq<C>): (d: Deck<C>)
    requires multiset(shuffled) == cards
    ensures multiset(d.cards) == cards && Size(d) == |cards|
  {
    Deck(shuffled)
  }

  function Size<C>(d: Deck<C>): nat
  {
    |d.cards|
  }

  function IsEmpty<C>(d: Deck<C>): bool
  {
    |d.cards| == 0
  }

  /** `topCard()`: the first card; the deck must not be empty. */
  function TopCard<C>(d: Deck<C>): (c: C)
    requires !IsEmpty(d)
    ensures c in d.cards
  {
    d.cards[0]
  }

  /** `topCards(count)`: the first `count` cards, as a bag; `count` may be 0 (it must exceed
      `DECK_SLOT`, which is -1) and at most the size. */
  function TopCards<C>(d: Deck<C>, count: int): (b: multiset<C>)
    requires Constants.DECK_SLOT < count <= Size(d)
    ensures |b| == count && b <= multiset(d.cards)
  {
    var rest := d.cards[count..];
    assert d.cards == d.cards[..count] + rest;
    multiset(d.cards[..count])
  }

  /** `withoutTopCards(count)`: the deck below the first `count` cards. */
  function WithoutTopCards<C>(d: Deck<C>, count: int): (r: Deck<C>)
    requires Constants.DECK_SLOT < count <= Size(d)
    ensures Size(r) == Size(d) - count
    ensures TopCards(d, count) + multiset(r.cards) == multiset(d.cards)
  {
    assert d.cards == d.cards[..count] + d.cards[count..];
    Deck(d.cards[count..])
  }

  /** `withoutTopCard()`: `withoutTopCards(1)`; the deck must not be empty. */
  function WithoutTopCard<C>(d: Deck<C>): (r: Deck<C>)
    requires !IsEmpty(d)
    ensures Size(r) == Size(d) - 1
  {
    WithoutTopCards(d, 1)
  }

  /** A deck is empty exactly when its size is 0; a shuffled bag is empty when the bag is. */
  lemma EmptyIffSizeZero<C>(d: Deck<C>, cards: multiset<C>, shuffled: seq<C>)
    requires multiset(shuffled) == cards
    ensures IsEmpty(d) <==> Size(d) == 0
    ensures IsEmpty(Of(cards, shuffled)) <==> cards == multiset{}
  {
    if cards == multiset{} {
      assert |Of(cards, shuffled).cards| == |cards|;
    }
  }

  /** The top card followed by the rest is the whole deck; as bags, the top card is `topCards(1)`. */
  lemma TopAndRest<C>(d: Deck<C>)
    requires !IsEmpty(d)
    ensures d.cards == [TopCard(d)] + WithoutTopCard(d).cards
    ensures TopCards(d, 1) == multiset{TopCard(d)}
    ensures multiset(d.cards) == multiset{TopCard(d)} + multiset(WithoutTopCard(d).cards)
  {
    assert d.cards[..1] == [d.cards[0]];
    assert d.cards == d.cards[..1] + d.cards[1..];
  }

  /** Taking `m` cards and then `n` more takes the first `m + n` cards. */
  lemma WithoutTopCardsTwice<C>(d: Deck<C>, m: nat, n: nat)
    requires m + n <= Size(d)
    ensures WithoutTopCards(WithoutTopCards(d, m), n) == WithoutTopCards(d, m + n)
    ensures TopCards(d, m + n) == TopCards(d, m) + TopCards(WithoutTopCards(d, m), n)
  {
    assert d.cards[m..][n..] == d.cards[m + n..];
    assert d.cards[..m + n] == d.cards[..m] + d.cards[m..][..n];
  }
}
