/** The whole state of a game (src/ch/epfl/tchu/game/GameState.java): the ticket deck, the card
    state, whose turn it is, both players' states and the player who began the last turn, if any.
    Every transition returns a new state. */
module GameStates {
  import opened Wrappers
  import opened PlayerIds
  import opened Cards
  import opened Decks
  import opened Routes
  import Constants
  import Tickets
  import CardStates
  import PlayerStates
  import PublicGameStates

  datatype GameState = GameState(tickets: Deck<Tickets.Ticket>,
                                 cardState: CardStates.CardState,
                                 currentPlayerId: PlayerId,
                                 playerState: map<PlayerId, PlayerStates.PlayerState>,
                                 lastPlayer: Option<PlayerId>)

  /** A state for each of the two players, five face-up cards, and only well-formed tickets and
      routes (the Java constructors of `Ticket` and `Route` refuse any other). */
  predicate Valid(g: GameState)
  {
    |g.playerState| == PlayerIds.COUNT && (forall p: PlayerId :: p in g.playerState) &&
    CardStates.Valid(g.cardState) &&
    (forall p: PlayerId :: PlayerStates.Valid(g.playerState[p])) &&
    (forall t | t in g.tickets.cards :: Tickets.Valid(t))
  }

  /** Every card of the game: in the card state or in a player's hand. */
  function Total(g: GameState): multiset<Card>
    requires forall p: PlayerId :: p in g.playerState
  {
    CardStates.Total(g.cardState) + g.playerState[Player1].cards + g.playerState[Player2].cards
  }

  /** The cards a player can still draw: the deck and the discard together. */
  function Drawable(g: GameState): nat
  {
    Size(g.cardState.deck) + |g.cardState.discard|
  }

  /** Replacing the current player's state and the card state conserves the game's cards when
      the two replacements together hold what the old ones held. */
  lemma TotalMoved(g: GameState, cs: CardStates.CardState, ps: PlayerStates.PlayerState)
    requires forall p: PlayerId :: p in g.playerState
    requires CardStates.Total(cs) + ps.cards ==
             CardStates.Total(g.cardState) + g.playerState[g.currentPlayerId].cards
    ensures Total(g.(cardState := cs, playerState := g.playerState[g.currentPlayerId := ps])) == Total(g)
  {
    var r := g.(cardState := cs, playerState := g.playerState[g.currentPlayerId := ps]);
    var other := g.playerState[g.currentPlayerId.Next()].cards;
    var before := CardStates.Total(g.cardState) + g.playerState[g.currentPlayerId].cards;
    if g.currentPlayerId == Player1 {
      assert Total(g) == before + other;
    } else {
      assert Total(g) == before + other;
      assert Total(r) == CardStates.Total(cs) + ps.cards + other;
    }
  }

  /** The public part (the superclass `PublicGameState`): the size of the ticket deck, the public
      card state and each player's public state. */
  function Public(g: GameState): (s: PublicGameStates.PublicGameState)
    requires Valid(g)
    ensures PublicGameStates.Valid(s)
    ensures s.ticketsCount == Size(g.tickets) && s.cardState == CardStates.Public(g.cardState)
    ensures s.currentPlayerId == g.currentPlayerId && s.lastPlayer == g.lastPlayer
    ensures forall p: PlayerId :: p in s.playerState && s.playerState[p] == PlayerStates.Public(g.playerState[p])
    ensures PublicGameStates.CanDrawTickets(s) <==> !IsEmpty(g.tickets)
    ensures PublicGameStates.CanDrawCards(s) <==> Drawable(g) >= Constants.FACE_UP_CARDS_COUNT
  {
    var pub := map[Player1 := PlayerStates.Public(g.playerState[Player1]),
                   Player2 := PlayerStates.Public(g.playerState[Player2])];
    assert |pub.Keys| == 2 by {
      assert pub.Keys == {Player1} + {Player2};
    }
    PublicGameStates.New(Size(g.tickets), CardStates.Public(g.cardState), g.currentPlayerId, pub, g.lastPlayer)
  }

  /** `initial(tickets, rng)`: the shuffled card deck (`cardOrder`) deals four cards to each player
      in `ALL` order and lays out the rest with `CardState.of`; the shuffled tickets
      (`ticketOrder`) form the ticket deck; `first`, the random draw, plays first and nobody has
      begun the last turn. */
  function Initial(tickets: multiset<Tickets.Ticket>, cardOrder: seq<Card>, ticketOrder: seq<Tickets.Ticket>,
                   first: PlayerId): (g: GameState)
    requires multiset(cardOrder) == Constants.AllCards()
    requires multiset(ticketOrder) == tickets && forall t | t in tickets :: Tickets.Valid(t)
    ensures Valid(g)
    ensures multiset(g.tickets.cards) == tickets
    ensures g.currentPlayerId == first && g.lastPlayer == None
    ensures |cardOrder| == 110
    ensures g.playerState[Player1] == PlayerStates.Initial(Hand(cardOrder, 0))
    ensures g.playerState[Player2] == PlayerStates.Initial(Hand(cardOrder, 1))
    ensures g.cardState == CardStates.Of(Stock(cardOrder))
    ensures Total(g) == multiset(cardOrder)
  {
    Constants.ShuffleSize(cardOrder);
    Deal(Decks.Of(tickets, ticketOrder), cardOrder, first)
  }

  /** The `k`-th hand dealt from the card order: the four cards below the `k` hands before it. */
  function Hand(cardOrder: seq<Card>, k: nat): (hand: multiset<Card>)
    requires |cardOrder| >= Constants.INITIAL_CARDS_COUNT * (k + 1)
    ensures |hand| == Constants.INITIAL_CARDS_COUNT
  {
    TopCards(WithoutTopCards(Deck(cardOrder), Constants.INITIAL_CARDS_COUNT * k), Constants.INITIAL_CARDS_COUNT)
  }

  /** What remains of the card order once both hands are dealt. */
  function Stock(cardOrder: seq<Card>): (d: Deck<Card>)
    requires |cardOrder| >= 2 * Constants.INITIAL_CARDS_COUNT
    ensures Size(d) == |cardOrder| - 2 * Constants.INITIAL_CARDS_COUNT
  {
    WithoutTopCards(Deck(cardOrder), 2 * Constants.INITIAL_CARDS_COUNT)
  }

  /** The deal of `initial`, for any card order with enough cards: every card of `cardOrder` ends
      up in a hand or in the card state. */
  function Deal(ticketDeck: Deck<Tickets.Ticket>, cardOrder: seq<Card>, first: PlayerId): (g: GameState)
    requires |cardOrder| >= 2 * Constants.INITIAL_CARDS_COUNT + Constants.FACE_UP_CARDS_COUNT
    requires forall t | t in ticketDeck.cards :: Tickets.Valid(t)
    ensures Valid(g) && g.tickets == ticketDeck
    ensures g.currentPlayerId == first && g.lastPlayer == None
    ensures g.playerState[Player1] == PlayerStates.Initial(Hand(cardOrder, 0))
    ensures g.playerState[Player2] == PlayerStates.Initial(Hand(cardOrder, 1))
    ensures g.cardState == CardStates.Of(Stock(cardOrder))
    ensures Total(g) == multiset(cardOrder)
  {
    var cs := CardStates.Of(Stock(cardOrder));
    DealTotal(cardOrder);
    Seated(ticketDeck, cs, first, PlayerStates.Initial(Hand(cardOrder, 0)), PlayerStates.Initial(Hand(cardOrder, 1)))
  }

  /** The two hands dealt and the card state laid out from the rest hold the whole deck. */
  lemma DealTotal(cardOrder: seq<Card>)
    requires |cardOrder| >= 2 * Constants.INITIAL_CARDS_COUNT + Constants.FACE_UP_CARDS_COUNT
    ensures CardStates.Total(CardStates.Of(Stock(cardOrder))) + Hand(cardOrder, 0) + Hand(cardOrder, 1) ==
            multiset(cardOrder)
  {
    var d := Deck(cardOrder);
    assert WithoutTopCards(d, 0) == d;
    WithoutTopCardsTwice(d, Constants.INITIAL_CARDS_COUNT, Constants.INITIAL_CARDS_COUNT);
  }

  /** A state seating two valid player states beside a valid card state, before anybody has begun
      the last turn. */
  function Seated(ticketDeck: Deck<Tickets.Ticket>, cs: CardStates.CardState, first: PlayerId,
                  ps1: PlayerStates.PlayerState, ps2: PlayerStates.PlayerState): (g: GameState)
    requires CardStates.Valid(cs) && PlayerStates.Valid(ps1) && PlayerStates.Valid(ps2)
    requires forall t | t in ticketDeck.cards :: Tickets.Valid(t)
    ensures Valid(g) && g.tickets == ticketDeck && g.cardState == cs
    ensures g.currentPlayerId == first && g.lastPlayer == None
    ensures g.playerState[Player1] == ps1 && g.playerState[Player2] == ps2
    ensures Total(g) == CardStates.Total(cs) + ps1.cards + ps2.cards
  {
    var players := map[Player1 := ps1, Player2 := ps2];
    assert players.Keys == {Player1} + {Player2};
    assert forall p: PlayerId :: p in players && PlayerStates.Valid(players[p]) by {
      forall p: PlayerId ensures p in players && PlayerStates.Valid(players[p]) {
        assert p == Player1 || p == Player2;
      }
    }
    GameState(ticketDeck, cs, first, players, None)
  }

  /** `playerState(playerId)`. */
  function PlayerStateOf(g: GameState, p: PlayerId): PlayerStates.PlayerState
    requires Valid(g)
  {
    g.playerState[p]
  }

  /** `currentPlayerState()`: the state of the player whose turn it is; its public part is what the
      public state shows for that player. */
  function CurrentPlayerState(g: GameState): (ps: PlayerStates.PlayerState)
    requires Valid(g)
    ensures ps == PlayerStateOf(g, g.currentPlayerId)
    ensures PlayerStates.Public(ps) == PublicGameStates.CurrentPlayerState(Public(g))
  {
    g.playerState[g.currentPlayerId]
  }

  /** `topTickets(count)`: the top `count` tickets, `0 <= count <= ticketsCount()`. */
  function TopTickets(g: GameState, count: int): (b: multiset<Tickets.Ticket>)
    requires 0 <= count <= Size(g.tickets)
    ensures |b| == count && b <= multiset(g.tickets.cards)
  {
    TopCards(g.tickets, count)
  }

  /** `withoutTopTickets(count)`: the ticket deck loses its top `count` tickets, which are exactly
      `topTickets(count)`; nothing else changes. */
  function WithoutTopTickets(g: GameState, count: int): (r: GameState)
    requires Valid(g) && 0 <= count <= Size(g.tickets)
    ensures Valid(r)
    ensures Size(r.tickets) == Size(g.tickets) - count
    ensures TopTickets(g, count) + multiset(r.tickets.cards) == multiset(g.tickets.cards)
    ensures r.cardState == g.cardState && r.playerState == g.playerState
    ensures r.currentPlayerId == g.currentPlayerId && r.lastPlayer == g.lastPlayer
  {
    var rest := WithoutTopCards(g.tickets, count);
    assert forall t | t in rest.cards :: t in g.tickets.cards by {
      assert g.tickets.cards == g.tickets.cards[..count] + rest.cards;
    }
    g.(tickets := rest)
  }

  /** `topCard()`: the top card of a non-empty deck. */
  function TopCard(g: GameState): (c: Card)
    requires !IsEmpty(g.cardState.deck)
    ensures c in g.cardState.deck.cards
  {
    CardStates.TopDeckCard(g.cardState)
  }

  /** `withoutTopCard()`: the top card leaves the game's cards (the tunnel draw never discards it);
      the players do not change. */
  function WithoutTopCard(g: GameState): (r: GameState)
    requires Valid(g) && !IsEmpty(g.cardState.deck)
    ensures Valid(r)
    ensures r.cardState == CardStates.WithoutTopDeckCard(g.cardState)
    ensures r.tickets == g.tickets && r.playerState == g.playerState
    ensures r.currentPlayerId == g.currentPlayerId && r.lastPlayer == g.lastPlayer
    ensures Total(r) + multiset{TopCard(g)} == Total(g)
    ensures Drawable(r) == Drawable(g) - 1
  {
    g.(cardState := CardStates.WithoutTopDeckCard(g.cardState))
  }

  /** `withMoreDiscardedCards(discardedCards)`: the bag joins the discard; nothing else changes. */
  function WithMoreDiscardedCards(g: GameState, discarded: multiset<Card>): (r: GameState)
    requires Valid(g)
    ensures Valid(r)
    ensures r.cardState == CardStates.WithMoreDiscardedCards(g.cardState, discarded)
    ensures r.tickets == g.tickets && r.playerState == g.playerState
    ensures r.currentPlayerId == g.currentPlayerId && r.lastPlayer == g.lastPlayer
    ensures Total(r) == Total(g) + discarded
    ensures Drawable(r) == Drawable(g) + |discarded|
  {
    g.(cardState := CardStates.WithMoreDiscardedCards(g.cardState, discarded))
  }

  /** `withCardsDeckRecreatedIfNeeded(rng)`: with an empty deck, the discard (shuffled into the
      order `shuffled`) becomes the deck; otherwise the state is returned unchanged. Either way no
      card is gained or lost, and the deck is empty afterwards only if there was nothing to draw. */
  function WithCardsDeckRecreatedIfNeeded(g: GameState, shuffled: seq<Card>): (r: GameState)
    requires Valid(g) && multiset(shuffled) == g.cardState.discard
    ensures Valid(r)
    ensures !IsEmpty(g.cardState.deck) ==> r == g
    ensures IsEmpty(g.cardState.deck) ==>
              r.cardState == CardStates.WithDeckRecreatedFromDiscards(g.cardState, shuffled)
    ensures r.tickets == g.tickets && r.playerState == g.playerState
    ensures r.currentPlayerId == g.currentPlayerId && r.lastPlayer == g.lastPlayer
    ensures Total(r) == Total(g) && Drawable(r) == Drawable(g)
    ensures IsEmpty(r.cardState.deck) <==> Drawable(g) == 0
  {
    if IsEmpty(g.cardState.deck) then
      var cs := CardStates.WithDeckRecreatedFromDiscards(g.cardState, shuffled);
      assert |cs.deck.cards| == |multiset(cs.deck.cards)|;
      g.(cardState := cs)
    else
      g
  }

  /** `withInitiallyChosenTickets(playerId, chosenTickets)`: a player who holds no ticket yet
      receives the chosen tickets; the other player and everything else are unchanged. */
  function WithInitiallyChosenTickets(g: GameState, p: PlayerId, chosen: multiset<Tickets.Ticket>): (r: GameState)
    requires Valid(g) && g.playerState[p].tickets == multiset{}
    ensures (forall t | t in chosen :: Tickets.Valid(t)) ==> Valid(r)
    ensures r.playerState == g.playerState[p := PlayerStates.WithAddedTickets(g.playerState[p], chosen)]
    ensures r.playerState[p].tickets == chosen && r.playerState[p.Next()] == g.playerState[p.Next()]
    ensures r.tickets == g.tickets && r.cardState == g.cardState
    ensures r.currentPlayerId == g.currentPlayerId && r.lastPlayer == g.lastPlayer
    ensures Total(r) == Total(g)
  {
    g.(playerState := g.playerState[p := PlayerStates.WithAddedTickets(g.playerState[p], chosen)])
  }

  /** `withChosenAdditionalTickets(drawnTickets, chosenTickets)`: the current player keeps the
      chosen tickets, which must be among the drawn ones, and the ticket deck always loses
      `IN_GAME_TICKETS_COUNT` tickets, whatever was drawn; the other player is unchanged. */
  function WithChosenAdditionalTickets(g: GameState, drawn: multiset<Tickets.Ticket>,
                                       chosen: multiset<Tickets.Ticket>): (r: GameState)
    requires Valid(g) && chosen <= drawn
    requires Constants.IN_GAME_TICKETS_COUNT <= Size(g.tickets)
    ensures (forall t | t in chosen :: Tickets.Valid(t)) ==> Valid(r)
    ensures r.playerState == g.playerState[g.currentPlayerId :=
              PlayerStates.WithAddedTickets(g.playerState[g.currentPlayerId], chosen)]
    ensures r.playerState[g.currentPlayerId.Next()] == g.playerState[g.currentPlayerId.Next()]
    ensures r.tickets == WithoutTopCards(g.tickets, Constants.IN_GAME_TICKETS_COUNT)
    ensures Size(r.tickets) == Size(g.tickets) - Constants.IN_GAME_TICKETS_COUNT
    ensures r.cardState == g.cardState
    ensures r.currentPlayerId == g.currentPlayerId && r.lastPlayer == g.lastPlayer
    ensures Total(r) == Total(g)
  {
    var cur := g.currentPlayerId;
    var rest := WithoutTopCards(g.tickets, Constants.IN_GAME_TICKETS_COUNT);
    assert forall t | t in rest.cards :: t in g.tickets.cards by {
      assert g.tickets.cards == g.tickets.cards[..Constants.IN_GAME_TICKETS_COUNT] + rest.cards;
    }
    GameState(rest, g.cardState, cur,
              g.playerState[cur := PlayerStates.WithAddedTickets(g.playerState[cur], chosen)], g.lastPlayer)
  }

  /** `withDrawnFaceUpCard(slot)`: the face-up card in `slot` goes to the current player's hand
      and the top deck card takes its place; no card is gained or lost. */
  function WithDrawnFaceUpCard(g: GameState, slot: int): (r: GameState)
    requires Valid(g) && !IsEmpty(g.cardState.deck)
    requires 0 <= slot < Constants.FACE_UP_CARDS_COUNT
    ensures Valid(r)
    ensures r.playerState == g.playerState[g.currentPlayerId :=
              PlayerStates.WithAddedCard(g.playerState[g.currentPlayerId], g.cardState.faceUpCards[slot])]
    ensures r.cardState == CardStates.WithDrawnFaceUpCard(g.cardState, slot)
    ensures r.tickets == g.tickets
    ensures r.currentPlayerId == g.currentPlayerId && r.lastPlayer == g.lastPlayer
    ensures Total(r) == Total(g)
    ensures Drawable(r) == Drawable(g) - 1
  {
    var cur := g.currentPlayerId;
    var ps := PlayerStates.WithAddedCard(g.playerState[cur], g.cardState.faceUpCards[slot]);
    var cs := CardStates.WithDrawnFaceUpCard(g.cardState, slot);
    TotalMoved(g, cs, ps);
    g.(cardState := cs, playerState := g.playerState[cur := ps])
  }

  /** `withBlindlyDrawnCard()`: the top deck card goes to the current player's hand; no card is
      gained or lost. */
  function WithBlindlyDrawnCard(g: GameState): (r: GameState)
    requires Valid(g) && !IsEmpty(g.cardState.deck)
    ensures Valid(r)
    ensures r.playerState == g.playerState[g.currentPlayerId :=
              PlayerStates.WithAddedCard(g.playerState[g.currentPlayerId], TopCard(g))]
    ensures r.cardState == CardStates.WithoutTopDeckCard(g.cardState)
    ensures r.tickets == g.tickets
    ensures r.currentPlayerId == g.currentPlayerId && r.lastPlayer == g.lastPlayer
    ensures Total(r) == Total(g)
    ensures Drawable(r) == Drawable(g) - 1
  {
    var cur := g.currentPlayerId;
    var ps := PlayerStates.WithAddedCard(g.playerState[cur], TopCard(g));
    var cs := CardStates.WithoutTopDeckCard(g.cardState);
    TotalMoved(g, cs, ps);
    g.(cardState := cs, playerState := g.playerState[cur := ps])
  }

  /** `withClaimedRoute(route, cards)`: the current player takes the route and pays the cards,
      which join the discard; the other player is unchanged. The cards are conserved when the
      player holds them all. */
  function WithClaimedRoute(g: GameState, route: Route, cards: multiset<Card>): (r: GameState)
    requires Valid(g) && Routes.Valid(route)
    ensures Valid(r)
    ensures r.playerState == g.playerState[g.currentPlayerId :=
              PlayerStates.WithClaimedRoute(g.playerState[g.currentPlayerId], route, cards)]
    ensures r.playerState[g.currentPlayerId.Next()] == g.playerState[g.currentPlayerId.Next()]
    ensures r.cardState == CardStates.WithMoreDiscardedCards(g.cardState, cards)
    ensures r.tickets == g.tickets
    ensures r.currentPlayerId == g.currentPlayerId && r.lastPlayer == g.lastPlayer
    ensures cards <= g.playerState[g.currentPlayerId].cards ==> Total(r) == Total(g)
    ensures Drawable(r) == Drawable(g) + |cards|
  {
    var cur := g.currentPlayerId;
    var ps := PlayerStates.WithClaimedRoute(g.playerState[cur], route, cards);
    var cs := CardStates.WithMoreDiscardedCards(g.cardState, cards);
    var r := g.(cardState := cs, playerState := g.playerState[cur := ps]);
    if cards <= g.playerState[cur].cards then
      TotalMoved(g, cs, ps);
      r
    else
      r
  }

  /** `lastTurnBegins()`: the current player has at most two cars left and nobody has begun the
      last turn yet. */
  predicate LastTurnBegins(g: GameState)
    requires Valid(g)
  {
    PlayerStates.CarCount(g.playerState[g.currentPlayerId]) <= 2 && g.lastPlayer == None
  }

  /** `forNextTurn()`: the turn passes to the other player; the current player becomes the last
      player exactly when the last turn begins, and a last player once set stays. */
  function ForNextTurn(g: GameState): (r: GameState)
    requires Valid(g)
    ensures Valid(r)
    ensures r.currentPlayerId == g.currentPlayerId.Next()
    ensures r.lastPlayer == if LastTurnBegins(g) then Some(g.currentPlayerId) else g.lastPlayer
    ensures g.lastPlayer.Some? ==> r.lastPlayer == g.lastPlayer
    ensures r.lastPlayer.Some? <==> (g.lastPlayer.Some? || LastTurnBegins(g))
    ensures r.tickets == g.tickets && r.cardState == g.cardState && r.playerState == g.playerState
  {
    var last := if LastTurnBegins(g) then Some(g.currentPlayerId) else g.lastPlayer;
    g.(currentPlayerId := g.currentPlayerId.Next(), lastPlayer := last)
  }

  /** A draw-cards turn is always possible when `canDrawCards()` holds: recreating the deck if
      needed leaves a card to draw, and after one draw there is still one for the second. */
  lemma TwoDrawsPossible(g: GameState, shuffled: seq<Card>)
    requires Valid(g) && multiset(shuffled) == g.cardState.discard
    requires PublicGameStates.CanDrawCards(Public(g))
    ensures !IsEmpty(WithCardsDeckRecreatedIfNeeded(g, shuffled).cardState.deck)
    ensures Drawable(WithCardsDeckRecreatedIfNeeded(g, shuffled)) - 1 >= 1
  {
  }

  /** `lastTurnBegins()` holds at most once in a game: it needs an unset last player, and the
      next-turn step that follows it sets the current player as the last player for good. */
  lemma LastTurnBeginsOnce(g: GameState)
    requires Valid(g)
    ensures g.lastPlayer.Some? ==> !LastTurnBegins(g)
    ensures LastTurnBegins(g) ==> ForNextTurn(g).lastPlayer == Some(g.currentPlayerId)
    ensures LastTurnBegins(g) ==> !LastTurnBegins(ForNextTurn(g))
  {
  }

  /** `canDrawTickets()` on the public state holds exactly when a ticket can be taken from the
      real ticket deck. */
  lemma TicketsDrawable(g: GameState)
    requires Valid(g)
    ensures PublicGameStates.CanDrawTickets(Public(g)) ==>
              |TopTickets(g, 1)| == 1 && TopTickets(g, 1) <= multiset(g.tickets.cards)
    ensures !PublicGameStates.CanDrawTickets(Public(g)) ==> g.tickets.cards == []
  {
  }

  /** `canDrawCards()` on the public state holds exactly when the real deck and discard hold at
      least five cards between them. */
  lemma CardsDrawable(g: GameState)
    requires Valid(g)
    ensures PublicGameStates.CanDrawCards(Public(g)) <==>
              |multiset(g.cardState.deck.cards) + g.cardState.discard| >= Constants.FACE_UP_CARDS_COUNT
  {
  }

  /** `playerState(playerId)` on the public state is the public part of that player's full state. */
  lemma PublicPlayerStateOf(g: GameState, p: PlayerId)
    requires Valid(g)
    ensures PublicGameStates.Valid(Public(g))
    ensures PublicGameStates.PlayerStateOf(Public(g), p) == PlayerStates.Public(PlayerStateOf(g, p))
  {
  }
}
