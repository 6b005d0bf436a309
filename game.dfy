/** The turn engine (src/ch/epfl/tchu/game/Game.java): the set-up, the turns of the three kinds,
    the two extra turns that end the game, and the scoring. The random generator is replaced by
    nondeterministic choices; the messages sent with `receiveInfo`, which only inform the
    players, are not part of this model. Where the Java code throws
    (a failed precondition check), the model stops with an error. */
module Games {
  import opened Wrappers
  import opened PlayerIds
  import opened Cards
  import Decks
  import Routes
  import opened GameStates
  import Constants
  import CardStates
  import Bags
  import Tickets
  import PlayerStates
  import PublicGameStates
  import Players
  import Trails

  // ----- randomness -----

  /** `Collections.shuffle`: some order of the bag's elements. */
  method Shuffle<T>(b: multiset<T>) returns (s: seq<T>)
    ensures multiset(s) == b
  {
    ghost var some := Bags.Listing(b);
    s :| multiset(s) == b;
  }

  /** `withCardsDeckRecreatedIfNeeded(rng)` with a fresh shuffle of the discard; `shuffled` is
      the order the shuffle gave it. */
  method Recreate(g: GameState) returns (r: GameState, shuffled: seq<Card>)
    requires Valid(g)
    ensures multiset(shuffled) == g.cardState.discard && r == WithCardsDeckRecreatedIfNeeded(g, shuffled)
    ensures Valid(r) && Total(r) == Total(g) && Drawable(r) == Drawable(g)
    ensures Decks.IsEmpty(r.cardState.deck) <==> Drawable(g) == 0
    ensures !Decks.IsEmpty(g.cardState.deck) ==> r == g
    ensures r.tickets == g.tickets && r.playerState == g.playerState
    ensures r.currentPlayerId == g.currentPlayerId && r.lastPlayer == g.lastPlayer
  {
    shuffled := Shuffle(g.cardState.discard);
    r := WithCardsDeckRecreatedIfNeeded(g, shuffled);
  }

  // ----- the three kinds of turn -----

  /** The players other than the current one keep their state. */
  predicate OthersKept(g: GameState, r: GameState)
    requires Valid(g) && Valid(r)
  {
    r.playerState[g.currentPlayerId.Next()] == g.playerState[g.currentPlayerId.Next()]
  }

  /** A turn changes neither whose turn it is nor the last player, and never gives cars back. */
  predicate TurnFrame(g: GameState, r: GameState)
    requires Valid(g) && Valid(r)
  {
    r.currentPlayerId == g.currentPlayerId && r.lastPlayer == g.lastPlayer && OthersKept(g, r) &&
    PlayerStates.CarCount(r.playerState[g.currentPlayerId]) <= PlayerStates.CarCount(g.playerState[g.currentPlayerId])
  }

  /** `DRAW_TICKETS`: the player keeps some of the three top tickets; the three leave the deck.
      With fewer than three tickets `topTickets` throws. */
  method DrawTicketsTurn(g: GameState, player: Players.Player)
    returns (r: Result<GameState>, ghost kept: multiset<Tickets.Ticket>)
    requires Valid(g)
    ensures r.Ok? <==> Constants.IN_GAME_TICKETS_COUNT <= Decks.Size(g.tickets)
    ensures r.Ok? ==> Valid(r.value) && TurnFrame(g, r.value)
    ensures r.Ok? ==> Moved(g, TicketsDrawn(kept), r.value)
    ensures r.Ok? ==> Total(r.value) == Total(g) && r.value.cardState == g.cardState
    ensures r.Ok? ==> Decks.Size(r.value.tickets) == Decks.Size(g.tickets) - Constants.IN_GAME_TICKETS_COUNT
    ensures r.Ok? ==>
              g.playerState[g.currentPlayerId].tickets <= r.value.playerState[g.currentPlayerId].tickets <=
              g.playerState[g.currentPlayerId].tickets + TopTickets(g, Constants.IN_GAME_TICKETS_COUNT)
  {
    kept := multiset{};
    if Decks.Size(g.tickets) < Constants.IN_GAME_TICKETS_COUNT {
      return Err("not enough tickets"), kept;
    }
    var drawn := TopTickets(g, Constants.IN_GAME_TICKETS_COUNT);
    var chosen := player.ChooseTickets(drawn);
    kept := chosen;
    r := Ok(WithChosenAdditionalTickets(g, drawn, chosen));
  }

  /** The current player's hand grows by `extra`; nothing else of any player changes. */
  function WithHandGrown(g: GameState, extra: multiset<Card>): map<PlayerId, PlayerStates.PlayerState>
    requires Valid(g)
  {
    var ps := g.playerState[g.currentPlayerId];
    g.playerState[g.currentPlayerId := ps.(cards := ps.cards + extra)]
  }

  /** `h` is `g` after the current player drew the `n` cards of `drawn`: the cards moved from the
      deck, the discard or the face-up slots into the hand, and nothing else changed. */
  predicate Drew(g: GameState, h: GameState, drawn: multiset<Card>, n: int)
    requires Valid(g)
  {
    Valid(h) && |drawn| == n && h.playerState == WithHandGrown(g, drawn) &&
    Total(h) == Total(g) && Drawable(h) == Drawable(g) - n && h.tickets == g.tickets &&
    h.currentPlayerId == g.currentPlayerId && h.lastPlayer == g.lastPlayer
  }

  /** Two draws in a row are one draw of both bags. */
  lemma DrewTwice(g: GameState, h: GameState, k: GameState, drawn: multiset<Card>, more: multiset<Card>, n: int, m: int)
    requires Valid(g) && Drew(g, h, drawn, n) && Drew(h, k, more, m)
    ensures Drew(g, k, drawn + more, n + m)
  {
    var ps := g.playerState[g.currentPlayerId];
    assert ps.(cards := ps.cards + drawn).(cards := ps.cards + drawn + more) ==
           ps.(cards := ps.cards + (drawn + more));
  }

  /** Drawing nothing changes nothing. */
  lemma DrewNothing(g: GameState)
    requires Valid(g)
    ensures Drew(g, g, multiset{}, 0)
  {
    var ps := g.playerState[g.currentPlayerId];
    assert ps.(cards := ps.cards + multiset{}) == ps;
  }

  /** Taking one card from a state whose deck is not empty: the face-up card of `slot`, whose
      place the top deck card takes, or, for `DECK_SLOT`, the top deck card itself. The card goes
      to the current player's hand. */
  function Take(h: GameState, slot: int): (r: (GameState, Card))
    requires Valid(h) && !Decks.IsEmpty(h.cardState.deck)
    requires slot == Constants.DECK_SLOT || 0 <= slot < Constants.FACE_UP_CARDS_COUNT
    ensures Drew(h, r.0, multiset{r.1}, 1)
    ensures slot == Constants.DECK_SLOT ==>
              r.1 == TopCard(h) && r.0.cardState == CardStates.WithoutTopDeckCard(h.cardState)
    ensures slot != Constants.DECK_SLOT ==>
              r.1 == h.cardState.faceUpCards[slot] && r.0.cardState == CardStates.WithDrawnFaceUpCard(h.cardState, slot)
  {
    if slot == Constants.DECK_SLOT then (WithBlindlyDrawnCard(h), TopCard(h))
    else (WithDrawnFaceUpCard(h, slot), h.cardState.faceUpCards[slot])
  }

  /** One card draw of a `DRAW_CARDS` turn, once the deck has been recreated if needed: the
      player names a slot and takes its card. A draw from an empty deck throws (in `topCard` or
      in the refill of the slot). */
  method DrawOne(g: GameState, player: Players.Player) returns (r: Result<(GameState, Card)>, slot: int)
    requires Valid(g)
    ensures slot == Constants.DECK_SLOT || 0 <= slot < Constants.FACE_UP_CARDS_COUNT
    ensures r.Ok? <==> !Decks.IsEmpty(g.cardState.deck)
    ensures r.Ok? ==> r.value == Take(g, slot)
  {
    slot := player.DrawSlot();
    if Decks.IsEmpty(g.cardState.deck) {
      return Err("empty deck"), slot;
    }
    var card := if slot == Constants.DECK_SLOT then TopCard(g) else g.cardState.faceUpCards[slot];
    var next := if slot == Constants.DECK_SLOT then WithBlindlyDrawnCard(g) else WithDrawnFaceUpCard(g, slot);
    r := Ok((next, card));
  }

  /** One draw of a `DRAW_CARDS` turn as the player and the shuffle made it: the order the
      discard takes if the deck must first be recreated, and the slot named. */
  datatype Draw = Draw(shuffled: seq<Card>, slot: int)

  /** The draw `d` from `g`: the deck is recreated from the discard in the shuffle's order if it
      is empty, then the card of the slot is taken. Nothing, when the shuffle does not order the
      discard, the slot does not exist or no card is left to draw. */
  function DrawFrom(g: GameState, d: Draw): (r: Option<(GameState, Card)>)
    requires Valid(g)
    ensures r.Some? <==>
              multiset(d.shuffled) == g.cardState.discard && Drawable(g) >= 1 &&
              (d.slot == Constants.DECK_SLOT || 0 <= d.slot < Constants.FACE_UP_CARDS_COUNT)
  {
    if multiset(d.shuffled) == g.cardState.discard && Drawable(g) >= 1 &&
       (d.slot == Constants.DECK_SLOT || 0 <= d.slot < Constants.FACE_UP_CARDS_COUNT) then
      Some(Take(WithCardsDeckRecreatedIfNeeded(g, d.shuffled), d.slot))
    else None
  }

  /** The state and the cards after one more draw `d`, when the draws before could be made. */
  function Extend(before: Option<(GameState, multiset<Card>)>, d: Draw): Option<(GameState, multiset<Card>)>
  {
    if before.None? || !Valid(before.value.0) then None
    else
      var step := DrawFrom(before.value.0, d);
      if step.None? then None else Some((step.value.0, before.value.1 + multiset{step.value.1}))
  }

  /** A draw that can be made moves one card to the current player. */
  lemma DrawFromDrew(g: GameState, d: Draw)
    requires Valid(g)
    ensures DrawFrom(g, d).Some? ==> Drew(g, DrawFrom(g, d).value.0, multiset{DrawFrom(g, d).value.1}, 1)
  {
  }

  /** One more draw after `n` draws from `g` makes `n + 1` draws. */
  lemma ExtendDrew(g: GameState, before: Option<(GameState, multiset<Card>)>, d: Draw, n: int)
    requires Valid(g) && (before.Some? ==> Drew(g, before.value.0, before.value.1, n))
    ensures Extend(before, d).Some? ==> Drew(g, Extend(before, d).value.0, Extend(before, d).value.1, n + 1)
  {
    if Extend(before, d).Some? {
      DrawFromDrew(before.value.0, d);
      var step := DrawFrom(before.value.0, d).value;
      DrewTwice(g, before.value.0, step.0, before.value.1, multiset{step.1}, n, 1);
    }
  }

  /** The state and the cards after the draws `ds` from `g`, one after the other (see
      `DrawFrom`); nothing when one of them cannot be made. */
  function AfterDraws(g: GameState, ds: seq<Draw>): Option<(GameState, multiset<Card>)>
    decreases |ds|
  {
    if |ds| == 0 then Some((g, multiset{}))
    else Extend(AfterDraws(g, ds[..|ds| - 1]), ds[|ds| - 1])
  }

  /** Draws that can be made move exactly as many cards to the current player's hand, and
      nothing else changes. */
  lemma {:induction false} AfterDrawsDrew(g: GameState, ds: seq<Draw>)
    requires Valid(g)
    ensures AfterDraws(g, ds).Some? ==> Drew(g, AfterDraws(g, ds).value.0, AfterDraws(g, ds).value.1, |ds|)
    decreases |ds|
  {
    if |ds| == 0 {
      DrewNothing(g);
    } else {
      AfterDrawsDrew(g, ds[..|ds| - 1]);
      ExtendDrew(g, AfterDraws(g, ds[..|ds| - 1]), ds[|ds| - 1], |ds| - 1);
    }
  }

  /** One more draw extends the draws. */
  lemma {:induction false} AfterDrawsStep(g: GameState, ds: seq<Draw>, d: Draw)
    requires Valid(g)
    ensures AfterDraws(g, ds + [d]) == Extend(AfterDraws(g, ds), d)
  {
    var ds' := ds + [d];
    assert ds'[..|ds'| - 1] == ds && ds'[|ds'| - 1] == d;
  }

  /** A draw that can be made after the draws `ds` extends them by its state and its card. */
  lemma DrawMade(g: GameState, ds: seq<Draw>, h: GameState, drawn: multiset<Card>, d: Draw, taken: (GameState, Card))
    requires Valid(g) && AfterDraws(g, ds) == Some((h, drawn)) && Valid(h) && DrawFrom(h, d) == Some(taken)
    ensures AfterDraws(g, ds + [d]) == Some((taken.0, drawn + multiset{taken.1}))
  {
    AfterDrawsStep(g, ds, d);
  }

  /** A draw whose deck, once recreated, is not empty takes the card of its slot. */
  lemma DrawFromTake(h: GameState, d: Draw, taken: (GameState, Card))
    requires Valid(h) && multiset(d.shuffled) == h.cardState.discard
    requires d.slot == Constants.DECK_SLOT || 0 <= d.slot < Constants.FACE_UP_CARDS_COUNT
    requires !Decks.IsEmpty(WithCardsDeckRecreatedIfNeeded(h, d.shuffled).cardState.deck)
    requires taken == Take(WithCardsDeckRecreatedIfNeeded(h, d.shuffled), d.slot)
    ensures DrawFrom(h, d) == Some(taken)
  {
  }

  /** What the players learn between the two draws of a `DRAW_CARDS` turn that started in `g`:
      the state `told`, one card after `g`, with a card on the deck. */
  ghost predicate Told(g: GameState, told: GameState, players: map<PlayerId, Players.Player>)
    reads players.Values
  {
    ToldState(g, told) && forall p: PlayerId :: p in players && players[p].publicState == Public(told)
  }

  /** The state the players learn between the two draws: one card drawn, a card on the deck. */
  predicate ToldState(g: GameState, told: GameState)
  {
    Valid(g) && Valid(told) && Total(told) == Total(g) && Drawable(told) == Drawable(g) - 1 &&
    !Decks.IsEmpty(told.cardState.deck)
  }

  /** `DRAW_CARDS`: two draws, each after recreating the deck if needed, from a face-up slot or
      from the deck. The turn throws exactly when the deck and the discard together hold fewer
      than two cards. `draws` are the two draws as made, and the result holds the state and the
      two cards they lead to. Between the two draws, once the deck has been recreated, the
      players learn the state: `told` is that state, one card after the start, with a card on
      the deck. */
  method DrawCardsTurn(g: GameState, players: map<PlayerId, Players.Player>)
    returns (r: Result<(GameState, multiset<Card>)>, ghost draws: seq<Draw>, ghost told: GameState)
    requires Valid(g) && forall p: PlayerId :: p in players
    modifies players.Values
    ensures r.Ok? <==> Drawable(g) >= 2
    ensures r.Ok? ==> |draws| == 2 && AfterDraws(g, draws) == Some(r.value)
    ensures r.Ok? ==> Told(g, told, players)
  {
    var h := g;
    var drawn: multiset<Card> := multiset{};
    draws, told := [], g;
    for i := 0 to 2
      invariant |draws| == i && AfterDraws(g, draws) == Some((h, drawn))
      invariant Valid(h) && Total(h) == Total(g) && Drawable(h) == Drawable(g) - i
      invariant i == 2 ==> ToldState(g, told)
      invariant i == 2 ==> forall p: PlayerId :: p in players && players[p].publicState == Public(told)
    {
      var k, shuffled := Recreate(h);
      if i == 1 {
        AllUpdateState(k, players);
        told := k;
      }
      var one;
      ghost var d;
      one, d := DrawNext(g, draws, h, drawn, k, shuffled, players[g.currentPlayerId]);
      if one.Err? {
        return Err(one.reason), draws, told;
      }
      draws := draws + [d];
      h, drawn := one.value.0, drawn + multiset{one.value.1};
    }
    r := Ok((h, drawn));
  }

  /** One draw of a `DRAW_CARDS` turn, after the draws `draws` from `g` led to `h` and the deck
      was recreated if needed in the order `shuffled`, giving `k`: the player takes the card of
      the slot it names. The draw made is `d`. */
  method DrawNext(g: GameState, ghost draws: seq<Draw>, h: GameState, ghost drawn: multiset<Card>,
                  k: GameState, shuffled: seq<Card>, player: Players.Player)
    returns (one: Result<(GameState, Card)>, ghost d: Draw)
    requires Valid(g) && AfterDraws(g, draws) == Some((h, drawn))
    requires Valid(h) && Total(h) == Total(g)
    requires multiset(shuffled) == h.cardState.discard && k == WithCardsDeckRecreatedIfNeeded(h, shuffled)
    ensures one.Ok? <==> Drawable(h) >= 1
    ensures one.Ok? ==> AfterDraws(g, draws + [d]) == Some((one.value.0, drawn + multiset{one.value.1}))
    ensures one.Ok? ==> Valid(one.value.0) && Total(one.value.0) == Total(g) && Drawable(one.value.0) == Drawable(h) - 1
  {
    var slot;
    one, slot := DrawOne(k, player);
    d := Draw(shuffled, slot);
    DrawCardFacts(g, draws, h, drawn, k, d, one);
  }

  /** What one draw of a `DRAW_CARDS` turn leads to, from the recreated state `k`. */
  lemma DrawCardFacts(g: GameState, draws: seq<Draw>, h: GameState, drawn: multiset<Card>, k: GameState,
                      d: Draw, one: Result<(GameState, Card)>)
    requires Valid(g) && AfterDraws(g, draws) == Some((h, drawn))
    requires Valid(h) && Total(h) == Total(g)
    requires multiset(d.shuffled) == h.cardState.discard && k == WithCardsDeckRecreatedIfNeeded(h, d.shuffled)
    requires d.slot == Constants.DECK_SLOT || 0 <= d.slot < Constants.FACE_UP_CARDS_COUNT
    requires one.Ok? <==> !Decks.IsEmpty(k.cardState.deck)
    requires one.Ok? ==> one.value == Take(k, d.slot)
    ensures one.Ok? <==> Drawable(h) >= 1
    ensures one.Ok? ==> AfterDraws(g, draws + [d]) == Some((one.value.0, drawn + multiset{one.value.1}))
    ensures one.Ok? ==> Valid(one.value.0) && Total(one.value.0) == Total(g) && Drawable(one.value.0) == Drawable(h) - 1
  {
    if one.Ok? {
      DrawFromTake(h, d, one.value);
      DrawMade(g, draws, h, drawn, d, one.value);
    }
  }

  /** Uncovering the top deck card for a tunnel, the deck being recreated first from the
      discard in the order `shuffled` if it is empty: the card leaves the game, and the face-up
      cards and the players do not change. */
  function Uncover(h: GameState, shuffled: seq<Card>): (r: (GameState, Card))
    requires Valid(h) && multiset(shuffled) == h.cardState.discard && Drawable(h) >= 1
    ensures Valid(r.0) && Total(r.0) + multiset{r.1} == Total(h) && Drawable(r.0) == Drawable(h) - 1
    ensures r.0.cardState.faceUpCards == h.cardState.faceUpCards
    ensures r.0.playerState == h.playerState && r.0.tickets == h.tickets
    ensures r.0.currentPlayerId == h.currentPlayerId && r.0.lastPlayer == h.lastPlayer
  {
    var k := WithCardsDeckRecreatedIfNeeded(h, shuffled);
    (WithoutTopCard(k), TopCard(k))
  }

  /** The state and the cards after uncovering a card once for each shuffle of `shuffles`, in
      order (see `Uncover`). Nothing, when a shuffle does not order the discard or no card is
      left. */
  function Uncovered(g: GameState, shuffles: seq<seq<Card>>): (r: Option<(GameState, multiset<Card>)>)
    requires Valid(g)
    ensures r.Some? ==> Valid(r.value.0) && |r.value.1| == |shuffles| && Total(r.value.0) + r.value.1 == Total(g)
    ensures r.Some? ==> Drawable(r.value.0) == Drawable(g) - |shuffles|
    ensures r.Some? ==> r.value.0.cardState.faceUpCards == g.cardState.faceUpCards
    ensures r.Some? ==> r.value.0.playerState == g.playerState && r.value.0.tickets == g.tickets
    ensures r.Some? ==> r.value.0.currentPlayerId == g.currentPlayerId && r.value.0.lastPlayer == g.lastPlayer
    decreases |shuffles|
  {
    if |shuffles| == 0 then Some((g, multiset{}))
    else
      var before := Uncovered(g, shuffles[..|shuffles| - 1]);
      if before.None? then None
      else
        var h, shuffled := before.value.0, shuffles[|shuffles| - 1];
        if multiset(shuffled) == h.cardState.discard && Drawable(h) >= 1 then
          var step := Uncover(h, shuffled);
          MultisetShuffle(Total(step.0), multiset{step.1}, before.value.1);
          Some((step.0, before.value.1 + multiset{step.1}))
        else None
  }

  /** One more uncovered card extends the uncovering. */
  lemma {:induction false} UncoveredStep(g: GameState, shuffles: seq<seq<Card>>, h: GameState, drawn: multiset<Card>, shuffled: seq<Card>)
    requires Valid(g) && Uncovered(g, shuffles) == Some((h, drawn))
    requires multiset(shuffled) == h.cardState.discard && Drawable(h) >= 1
    ensures Uncovered(g, shuffles + [shuffled]) == Some((Uncover(h, shuffled).0, drawn + multiset{Uncover(h, shuffled).1}))
  {
    var shuffles' := shuffles + [shuffled];
    assert shuffles'[..|shuffles'| - 1] == shuffles && shuffles'[|shuffles'| - 1] == shuffled;
  }

  /** The three cards drawn from the top of the deck for a tunnel, recreating the deck before each
      draw if needed; `shuffles` are the orders the shuffles gave. The cards leave the game: they
      are never discarded. */
  method TunnelDraw(g: GameState) returns (r: Result<(GameState, multiset<Card>)>, shuffles: seq<seq<Card>>)
    requires Valid(g)
    ensures r.Ok? <==> Drawable(g) >= Constants.ADDITIONAL_TUNNEL_CARDS
    ensures r.Ok? ==> |shuffles| == Constants.ADDITIONAL_TUNNEL_CARDS && Uncovered(g, shuffles) == Some(r.value)
  {
    var h := g;
    var drawn: multiset<Card> := multiset{};
    shuffles := [];
    for i := 0 to Constants.ADDITIONAL_TUNNEL_CARDS
      invariant |shuffles| == i && Uncovered(g, shuffles) == Some((h, drawn))
    {
      var k, shuffled := Recreate(h);
      if Decks.IsEmpty(k.cardState.deck) {
        return Err("empty deck"), shuffles;
      }
      var card := TopCard(k);
      assert (WithoutTopCard(k), card) == Uncover(h, shuffled);
      UncoveredStep(g, shuffles, h, drawn, shuffled);
      shuffles, h, drawn := shuffles + [shuffled], WithoutTopCard(k), drawn + multiset{card};
    }
    r := Ok((h, drawn));
  }

  /** What a claim-route turn did: the new state, the orders the shuffles gave (one before the
      claim, then one before each tunnel card), the tunnel cards drawn (none for an overground
      route) and the cards paid, if the route was claimed. */
  datatype Claim = Claim(state: GameState, shuffles: seq<seq<Card>>, tunnelCards: multiset<Card>,
                         paid: Option<multiset<Card>>)

  /** The price of a tunnel whose three drawn cards call for `n` more cards, for a player in
      state `ps`. When none are called for, the initial cards. Otherwise the initial cards must
      be a non-empty bag of at most two kinds, and the player either pays the initial cards plus
      one of the options of `possibleAdditionalCards`, or gives up (it must when there is no
      option). */
  predicate TunnelPaid(ps: PlayerStates.PlayerState, initial: multiset<Card>, n: nat, paid: Option<multiset<Card>>)
  {
    (n == 0 ==> paid == Some(initial)) &&
    (n >= 1 ==>
       |initial| > 0 && |set c | c in initial| <= 2 &&
       (paid.Some? ==> initial <= paid.value && PlayerStates.IsAdditionalOption(ps, initial, n, paid.value - initial)))
  }

  /** `h` is a claim-route turn from `g`. The deck was first recreated if needed (the first
      shuffle). An overground route is then paid with the initial cards. For a tunnel, three
      cards are uncovered (the other shuffles) and the player pays the price `TunnelPaid` sets
      for the count they call for, or nothing. The route is claimed with the cards paid, if
      any, and the initial cards are discarded once more. */
  predicate Settled(g: GameState, route: Routes.Route, initial: multiset<Card>, c: Claim)
    requires Valid(g) && Routes.Valid(route)
  {
    var underground := route.level == Routes.Underground;
    |c.shuffles| == (if underground then 1 + Constants.ADDITIONAL_TUNNEL_CARDS else 1) &&
    multiset(c.shuffles[0]) == g.cardState.discard &&
    var h := WithCardsDeckRecreatedIfNeeded(g, c.shuffles[0]);
    if !underground then
      c.tunnelCards == multiset{} && c.paid == Some(initial) && c.state == Pay(h, route, c.paid, initial)
    else
      Uncovered(h, c.shuffles[1..]).Some? &&
      var (k, drawn) := Uncovered(h, c.shuffles[1..]).value;
      c.tunnelCards == drawn &&
      TunnelPaid(g.playerState[g.currentPlayerId], initial, Routes.AdditionalCount(initial, drawn), c.paid) &&
      c.state == Pay(k, route, c.paid, initial)
  }

  /** What a settled claim leaves: the tickets, the turn and the last player are unchanged; the
      current player took the route and paid for it, or kept their state; and, when the player
      held the initial cards, the cards in play grew by the initial cards (discarded twice) and
      lost the tunnel cards (never discarded). */
  lemma SettledFacts(g: GameState, route: Routes.Route, initial: multiset<Card>, c: Claim)
    requires Valid(g) && Routes.Valid(route) && Settled(g, route, initial, c)
    ensures Valid(c.state) && c.state.tickets == g.tickets
    ensures c.state.currentPlayerId == g.currentPlayerId && c.state.lastPlayer == g.lastPlayer
    ensures |c.tunnelCards| == if route.level == Routes.Underground then Constants.ADDITIONAL_TUNNEL_CARDS else 0
    ensures c.paid.Some? ==>
              initial <= c.paid.value &&
              c.state.playerState == g.playerState[g.currentPlayerId :=
                PlayerStates.WithClaimedRoute(g.playerState[g.currentPlayerId], route, c.paid.value)]
    ensures c.paid.None? ==> c.state.playerState == g.playerState
    ensures initial <= g.playerState[g.currentPlayerId].cards ==> Total(c.state) + c.tunnelCards == Total(g) + initial
  {
    var h := WithCardsDeckRecreatedIfNeeded(g, c.shuffles[0]);
    if route.level == Routes.Underground {
      var k := Uncovered(h, c.shuffles[1..]).value.0;
      PaidHeld(g.playerState[g.currentPlayerId], initial, Routes.AdditionalCount(initial, c.tunnelCards), c.paid);
      PayCards(g, k, route, initial, c.tunnelCards, c.paid);
    } else {
      PayCards(g, h, route, initial, multiset{}, c.paid);
    }
  }

  /** A player who holds the initial cards holds all the cards of a tunnel price. */
  lemma PaidHeld(ps: PlayerStates.PlayerState, initial: multiset<Card>, n: nat, paid: Option<multiset<Card>>)
    requires TunnelPaid(ps, initial, n, paid)
    ensures paid.Some? ==> initial <= paid.value
    ensures paid.Some? && initial <= ps.cards ==> paid.value <= ps.cards
  {
    if paid.Some? && n >= 1 {
      assert paid.value == initial + (paid.value - initial);
    }
  }

  /** The cards part of a settled claim. */
  lemma PayCards(g: GameState, h: GameState, route: Routes.Route, initial: multiset<Card>,
                 tunnelCards: multiset<Card>, paid: Option<multiset<Card>>)
    requires Valid(g) && Valid(h) && Routes.Valid(route)
    requires h.playerState == g.playerState && h.currentPlayerId == g.currentPlayerId
    requires Total(h) + tunnelCards == Total(g)
    requires paid.Some? && initial <= g.playerState[g.currentPlayerId].cards ==>
               paid.value <= g.playerState[g.currentPlayerId].cards
    ensures initial <= g.playerState[g.currentPlayerId].cards ==>
              Total(Pay(h, route, paid, initial)) + tunnelCards == Total(g) + initial
  {
    if initial <= g.playerState[g.currentPlayerId].cards {
      var before, after := Total(h), Total(Pay(h, route, paid, initial));
      assert after == before + initial;
      MultisetShuffle(before, initial, tunnelCards);
    }
  }

  /** A claim-route turn keeps the turn frame: the other player is untouched and the current
      player's cars can only go down. */
  lemma SettledFrame(g: GameState, route: Routes.Route, initial: multiset<Card>, c: Claim)
    requires Valid(g) && Routes.Valid(route) && Settled(g, route, initial, c)
    ensures Valid(c.state) && TurnFrame(g, c.state)
  {
    SettledFacts(g, route, initial, c);
  }

  /** `CLAIM_ROUTE`, after the player named the route and its initial cards. An overground route
      is claimed with the initial cards. For a tunnel, three cards are drawn; when they require
      more cards, the player picks one of the options or gives up (no options counts as giving
      up), and otherwise the tunnel is claimed with the initial cards. Whatever happened, the
      initial cards are then discarded once more. */
  method ClaimRouteTurn(g: GameState, player: Players.Player, route: Routes.Route, initial: multiset<Card>)
    returns (r: Result<Claim>)
    requires Valid(g) && Routes.Valid(route)
    ensures route.level == Routes.Overground ==> r.Ok?
    ensures route.level == Routes.Underground && Drawable(g) < Constants.ADDITIONAL_TUNNEL_CARDS ==> r.Err?
    ensures (route.level == Routes.Underground && Drawable(g) >= Constants.ADDITIONAL_TUNNEL_CARDS &&
             |initial| > 0 && |set c | c in initial| <= 2) ==> r.Ok?
    ensures r.Ok? ==> Settled(g, route, initial, r.value)
  {
    var h, shuffled := Recreate(g);
    var shuffles := [shuffled];
    var tunnelCards: multiset<Card> := multiset{};
    var paid: Option<multiset<Card>> := Some(initial);
    if route.level == Routes.Underground {
      var tunnel, more := TunnelClaim(h, player, route, initial);
      if tunnel.Err? {
        return Err(tunnel.reason);
      }
      assert (shuffles + more)[1..] == more;
      h, shuffles, tunnelCards, paid := tunnel.value.0, shuffles + more, tunnel.value.1, tunnel.value.2;
    }
    r := Ok(Claim(Pay(h, route, paid, initial), shuffles, tunnelCards, paid));
  }

  /** The tunnel part of a claim: three cards are drawn; when they call for more cards, the
      player picks one of the options or gives up, and otherwise the initial cards are paid.
      Asking for options needs initial cards of at most two kinds, which is checked. */
  method TunnelClaim(h: GameState, player: Players.Player, route: Routes.Route, initial: multiset<Card>)
    returns (r: Result<(GameState, multiset<Card>, Option<multiset<Card>>)>, shuffles: seq<seq<Card>>)
    requires Valid(h) && Routes.Valid(route) && route.level == Routes.Underground
    ensures Drawable(h) < Constants.ADDITIONAL_TUNNEL_CARDS ==> r.Err?
    ensures (Drawable(h) >= Constants.ADDITIONAL_TUNNEL_CARDS && |initial| > 0 && |set c | c in initial| <= 2) ==> r.Ok?
    ensures r.Ok? ==> |shuffles| == Constants.ADDITIONAL_TUNNEL_CARDS && Uncovered(h, shuffles) == Some((r.value.0, r.value.1))
    ensures r.Ok? ==>
              TunnelPaid(h.playerState[h.currentPlayerId], initial, Routes.AdditionalCount(initial, r.value.1), r.value.2)
  {
    var drawn;
    drawn, shuffles := TunnelDraw(h);
    if drawn.Err? {
      return Err(drawn.reason), shuffles;
    }
    var next := drawn.value.0;
    var count := Routes.AdditionalClaimCardsCount(route, initial, drawn.value.1);
    var paid := Some(initial);
    if count >= 1 {
      if !(|initial| > 0 && |set c | c in initial| <= 2) {
        return Err("invalid initial claim cards"), shuffles;
      }
      paid := AdditionalPayment(next, player, count, initial);
    }
    r := Ok((next, drawn.value.1, paid));
  }

  /** The tunnel's extra cards: the options the player can pay, the player's pick among them, and
      the cards paid in all, or nothing when the player gives up or there is no option. */
  method AdditionalPayment(h: GameState, player: Players.Player, count: int, initial: multiset<Card>)
    returns (paid: Option<multiset<Card>>)
    requires Valid(h) && 1 <= count <= Constants.ADDITIONAL_TUNNEL_CARDS
    requires |initial| > 0 && |set c | c in initial| <= 2
    ensures TunnelPaid(h.playerState[h.currentPlayerId], initial, count, paid)
    ensures |PlayerStates.Usable(h.playerState[h.currentPlayerId].cards - initial, initial)| < count ==> paid.None?
  {
    var options := PlayerStates.PossibleAdditionalCards(h.playerState[h.currentPlayerId], count, initial);
    var chosen: multiset<Card> := multiset{};
    if |options| > 0 {
      chosen := player.ChooseAdditionalCards(options);
    }
    if chosen == multiset{} {
      paid := None;
    } else {
      assert (initial + chosen) - initial == chosen;
      paid := Some(initial + chosen);
    }
  }

  /** The end of a claim-route turn: the route is claimed with the paid cards, if any, and the
      initial cards go to the discard. */
  function Pay(h: GameState, route: Routes.Route, paid: Option<multiset<Card>>, initial: multiset<Card>): (r: GameState)
    requires Valid(h) && Routes.Valid(route)
    ensures Valid(r) && r.tickets == h.tickets
    ensures r.currentPlayerId == h.currentPlayerId && r.lastPlayer == h.lastPlayer
    ensures paid.Some? ==> r.playerState == h.playerState[h.currentPlayerId :=
              PlayerStates.WithClaimedRoute(h.playerState[h.currentPlayerId], route, paid.value)]
    ensures paid.None? ==> r.playerState == h.playerState
    ensures paid.Some? && paid.value <= h.playerState[h.currentPlayerId].cards ==> Total(r) == Total(h) + initial
    ensures paid.None? ==> Total(r) == Total(h) + initial
  {
    var claimed := if paid.Some? then WithClaimedRoute(h, route, paid.value) else h;
    WithMoreDiscardedCards(claimed, initial)
  }

  /** Adding two bags in either order gives the same bag. */
  lemma MultisetShuffle(a: multiset<Card>, b: multiset<Card>, c: multiset<Card>)
    ensures a + b + c == a + c + b
  {
  }

  /** `allUpdateState`: every player learns the public state and its own state. When both
      entries hold the same object, the second call overwrites the first. */
  method AllUpdateState(g: GameState, players: map<PlayerId, Players.Player>)
    requires Valid(g) && forall p: PlayerId :: p in players
    modifies players.Values
    ensures forall p: PlayerId :: players[p].publicState == Public(g)
    ensures players[Player2].ownState == g.playerState[Player2]
    ensures players[Player1] != players[Player2] ==> players[Player1].ownState == g.playerState[Player1]
    ensures forall p: PlayerId :: players[p].ownId == old(players[p].ownId)
    ensures forall p: PlayerId :: players[p].playerNames == old(players[p].playerNames)
    ensures forall p: PlayerId :: players[p].offeredTickets == old(players[p].offeredTickets)
  {
    var s := Public(g);
    players[Player1].UpdateState(s, g.playerState[Player1]);
    players[Player2].UpdateState(s, g.playerState[Player2]);
    forall p: PlayerId
      ensures players[p].publicState == s && players[p].ownId == old(players[p].ownId)
      ensures players[p].playerNames == old(players[p].playerNames)
      ensures players[p].offeredTickets == old(players[p].offeredTickets)
    {
      assert p == Player1 || p == Player2;
    }
  }

  /** A turn of one of the three kinds, with what the player chose. */
  datatype Move =
    | TicketsDrawn(kept: multiset<Tickets.Ticket>)
    | CardsDrawn(draws: seq<Draw>)
    | RouteClaimed(route: Routes.Route, initial: multiset<Card>, claim: Claim)

  /** `h` is `g` after the current player made the move `m`: kept some of the three top tickets,
      made two card draws, or made a claim on a route. */
  predicate Moved(g: GameState, m: Move, h: GameState)
  {
    Valid(g) && Valid(h) &&
    match m
    case TicketsDrawn(kept) =>
      Constants.IN_GAME_TICKETS_COUNT <= Decks.Size(g.tickets) &&
      kept <= TopTickets(g, Constants.IN_GAME_TICKETS_COUNT) &&
      h == WithChosenAdditionalTickets(g, TopTickets(g, Constants.IN_GAME_TICKETS_COUNT), kept)
    case CardsDrawn(draws) => |draws| == 2 && AfterDraws(g, draws).Some? && h == AfterDraws(g, draws).value.0
    case RouteClaimed(route, initial, claim) =>
      Routes.Valid(route) && claim.state == h && Settled(g, route, initial, claim)
  }

  /** Two draws that can be made are a move. */
  lemma DrawsMoved(g: GameState, draws: seq<Draw>, h: GameState, drawn: multiset<Card>)
    requires Valid(g) && |draws| == 2 && AfterDraws(g, draws) == Some((h, drawn))
    ensures Moved(g, CardsDrawn(draws), h)
  {
  }

  /** A settled claim is a move. */
  lemma ClaimMoved(g: GameState, route: Routes.Route, initial: multiset<Card>, claim: Claim)
    requires Valid(g) && Routes.Valid(route) && Settled(g, route, initial, claim)
    ensures Moved(g, RouteClaimed(route, initial, claim), claim.state)
  {
    SettledFacts(g, route, initial, claim);
  }

  /** Every move keeps the turn frame. */
  lemma MovedFrame(g: GameState, m: Move, h: GameState)
    requires Moved(g, m, h)
    ensures TurnFrame(g, h)
  {
    match m
    case TicketsDrawn(kept) =>
    case CardsDrawn(draws) =>
      AfterDrawsDrew(g, draws);
      var drawn := AfterDraws(g, draws).value;
      DrewFrame(g, drawn.0, drawn.1, |draws|);
    case RouteClaimed(route, initial, claim) => SettledFrame(g, route, initial, claim);
  }

  /** Drawing cards keeps the turn frame. */
  lemma DrewFrame(g: GameState, h: GameState, drawn: multiset<Card>, n: int)
    requires Valid(g) && Drew(g, h, drawn, n)
    ensures TurnFrame(g, h)
  {
    var ps := g.playerState[g.currentPlayerId];
    assert PlayerStates.CarCount(ps.(cards := ps.cards + drawn)) == PlayerStates.CarCount(ps);
  }

  /** `playRound`: the players learn the state, then the current player picks a kind of turn and
      plays it; `move` is the turn played, which keeps the turn frame (`MovedFrame`). */
  method PlayRound(g: GameState, players: map<PlayerId, Players.Player>)
    returns (r: Result<GameState>, ghost move: Move)
    requires Valid(g) && forall p: PlayerId :: p in players
    modifies players.Values
    ensures r.Ok? ==> Moved(g, move, r.value)
  {
    AllUpdateState(g, players);
    var player := players[g.currentPlayerId];
    var kind := player.NextTurn();
    match kind {
      case DrawTickets =>
        ghost var kept;
        r, kept := DrawTicketsTurn(g, player);
        move := TicketsDrawn(kept);
      case DrawCards =>
        var drawn;
        ghost var draws, told;
        drawn, draws, told := DrawCardsTurn(g, players);
        move := CardsDrawn(draws);
        if drawn.Err? {
          return Err(drawn.reason), move;
        }
        DrawsMoved(g, draws, drawn.value.0, drawn.value.1);
        r := Ok(drawn.value.0);
      case ClaimRoute =>
        var route := player.ClaimedRoute();
        var initial := player.InitialClaimCards();
        var claim := ClaimRouteTurn(g, player, route, initial);
        if claim.Err? {
          return Err(claim.reason), RouteClaimed(route, initial, Claim(g, [], multiset{}, None));
        }
        move := RouteClaimed(route, initial, claim.value);
        ClaimMoved(g, route, initial, claim.value);
        r := Ok(claim.value.state);
    }
  }

  // ----- scoring -----

  /** The player whose longest trail is strictly longer, or none on a tie. */
  function LongestPlayer(length1: int, length2: int): (p: Option<PlayerId>)
    ensures p == Some(Player1) <==> length1 > length2
    ensures p == Some(Player2) <==> length1 < length2
    ensures p == None <==> length1 == length2
  {
    if length1 > length2 then Some(Player1)
    else if length1 < length2 then Some(Player2)
    else None
  }

  /** The longest-trail bonus of a player: it goes to the player with the longer trail, or to
      both on a tie. */
  function Bonus(longest: Option<PlayerId>, p: PlayerId): (b: int)
    ensures b == Constants.LONGEST_TRAIL_BONUS_POINTS || b == 0
  {
    if longest == None || longest == Some(p) then Constants.LONGEST_TRAIL_BONUS_POINTS else 0
  }

  /** A player gets the bonus exactly when no other trail is strictly longer; someone always
      gets it. */
  lemma BonusForLongest(length1: int, length2: int)
    ensures Bonus(LongestPlayer(length1, length2), Player1) > 0 <==> length1 >= length2
    ensures Bonus(LongestPlayer(length1, length2), Player2) > 0 <==> length2 >= length1
    ensures Bonus(LongestPlayer(length1, length2), Player1) + Bonus(LongestPlayer(length1, length2), Player2) > 0
  {
  }

  /** How the game ends. */
  datatype Verdict = Won(winner: PlayerId, winnerPoints: int, loserPoints: int) | Drawn(points: int)

  /** The higher total wins; equal totals are a draw. */
  function Decide(points1: int, points2: int): (v: Verdict)
    ensures v.Won? && v.winner == Player1 <==> points1 > points2
    ensures v.Won? && v.winner == Player2 <==> points1 < points2
    ensures v.Drawn? <==> points1 == points2
    ensures v.Won? ==> v.winnerPoints > v.loserPoints
  {
    if points1 > points2 then Won(Player1, points1, points2)
    else if points1 < points2 then Won(Player2, points2, points1)
    else Drawn(points1)
  }

  /** The result of `play`: the final state, both longest trails, both totals and the verdict;
      or a failed check; or a game still running when the model's round bound ran out. */
  datatype Outcome =
    | Ended(final: GameState, longest1: Trails.Trail, longest2: Trails.Trail,
            points1: int, points2: int, verdict: Verdict)
    | Failed(reason: string)
    | Unfinished(state: GameState)

  /** An ended game's figures are those of its final state: each player's longest trail, the
      claim and ticket points plus the bonus, and the verdict on the two totals. */
  ghost predicate Scored(o: Outcome)
    requires o.Ended? && Valid(o.final)
  {
    var g := o.final;
    o.longest1 == Trails.LongestTrail(g.playerState[Player1].routes) &&
    o.longest2 == Trails.LongestTrail(g.playerState[Player2].routes) &&
    o.points1 == PlayerStates.ClaimPointsOf(g.playerState[Player1]) + PlayerStates.TicketPointsOf(g.playerState[Player1]) +
                 Bonus(LongestPlayer(o.longest1.length, o.longest2.length), Player1) &&
    o.points2 == PlayerStates.ClaimPointsOf(g.playerState[Player2]) + PlayerStates.TicketPointsOf(g.playerState[Player2]) +
                 Bonus(LongestPlayer(o.longest1.length, o.longest2.length), Player2) &&
    o.verdict == Decide(o.points1, o.points2)
  }

  /** Both players' longest trails, totals and the verdict, from the final state. */
  method Score(g: GameState) returns (outcome: Outcome)
    requires Valid(g)
    ensures outcome.Ended? && outcome.final == g
    ensures Scored(outcome)
  {
    var longest1 := Trails.Longest(g.playerState[Player1].routes);
    var longest2 := Trails.Longest(g.playerState[Player2].routes);
    var longest := LongestPlayer(longest1.length, longest2.length);
    var final1 := PlayerStates.FinalPoints(g.playerState[Player1]);
    var final2 := PlayerStates.FinalPoints(g.playerState[Player2]);
    var points1 := final1 + Bonus(longest, Player1);
    var points2 := final2 + Bonus(longest, Player2);
    outcome := Ended(g, longest1, longest2, points1, points2, Decide(points1, points2));
  }

  // ----- the whole game -----

  /** `play`: the set-up, the rounds until the last turns are over, and the scoring. `fuel` bounds
      the number of rounds; a game still running when it runs out is returned unfinished. The
      nondeterministic shuffles and first player stand for the random generator. */
  method Play(players: map<PlayerId, Players.Player>, names: map<PlayerId, string>,
              tickets: multiset<Tickets.Ticket>, fuel: nat)
    returns (outcome: Outcome, rounds: nat, ghost lastPhase: nat, ghost trace: seq<GameState>, ghost turns: seq<Turn>,
             ghost start: GameState)
    requires forall t | t in tickets :: Tickets.Valid(t)
    modifies players.Values
    ensures |players| != PlayerIds.COUNT || |names| != PlayerIds.COUNT ==> outcome.Failed?
    ensures |players| == PlayerIds.COUNT && |names| == PlayerIds.COUNT ==> Initialised(start, tickets)
    ensures |players| == PlayerIds.COUNT && |names| == PlayerIds.COUNT &&
            PlayerIds.COUNT * Constants.INITIAL_TICKETS_COUNT <= |tickets| ==>
              |trace| >= 1 && Valid(start) && Valid(trace[0]) && Dealt(start, trace[0])
    ensures |players| == PlayerIds.COUNT && |names| == PlayerIds.COUNT &&
            PlayerIds.COUNT * Constants.INITIAL_TICKETS_COUNT <= |tickets| &&
            Player1 in players && Player2 in players && players[Player1] != players[Player2] ==>
              |trace| >= 1 && Valid(start) && Valid(trace[0]) && Dealt(start, trace[0]) &&
              trace[0].playerState[Player1].tickets <= TopTickets(start, Constants.INITIAL_TICKETS_COUNT)
    ensures |tickets| < PlayerIds.COUNT * Constants.INITIAL_TICKETS_COUNT ==> outcome.Failed?
    ensures outcome.Unfinished? ==> rounds == fuel && Valid(outcome.state)
    ensures outcome.Ended? ==> Valid(outcome.final) && Scored(outcome)
    ensures outcome.Ended? ==> Ending(outcome.final)
    ensures outcome.Ended? ==>
              |trace| == rounds + 1 && trace[rounds] == outcome.final && trace[0].lastPlayer == None &&
              Alternate(trace) && Turns(trace, turns) && LastRounds(trace, lastPhase) && rounds == lastPhase + 3
  {
    lastPhase, rounds, trace, turns := 0, 0, [], [];
    if |players| != PlayerIds.COUNT || |names| != PlayerIds.COUNT {
      start := GameState(Decks.Deck([]), CardStates.CardState([], Decks.Deck([]), multiset{}), Player1, map[], None);
      return Failed("two players and two names are needed"), rounds, lastPhase, trace, turns, start;
    }
    PublicGameStates.BothPlayers(players);
    var set_up;
    set_up, start := SetUp(players, names, tickets);
    if set_up.Err? {
      return Failed(set_up.reason), rounds, lastPhase, trace, turns, start;
    }
    outcome, rounds, lastPhase, trace, turns := Rounds(set_up.value, players, fuel);
  }

  /** The game is over: a player began the last turns with at most two cars left, and the other
      player is to move, the last player having played its own last turn. */
  predicate Ending(g: GameState)
    requires Valid(g)
  {
    g.lastPlayer.Some? && PlayerStates.CarCount(g.playerState[g.lastPlayer.value]) <= 2 &&
    g.currentPlayerId == g.lastPlayer.value.Next()
  }

  /** The start of `play`: the players learn who they are, the initial state `start` is drawn,
      each player is offered five tickets, learns the state, and keeps some of the offered
      tickets. The first player keeps some of the first five tickets, unless both entries hold
      the same object. */
  method SetUp(players: map<PlayerId, Players.Player>, names: map<PlayerId, string>,
               tickets: multiset<Tickets.Ticket>) returns (r: Result<GameState>, ghost start: GameState)
    requires forall p: PlayerId :: p in players
    requires forall t | t in tickets :: Tickets.Valid(t)
    modifies players.Values
    ensures Initialised(start, tickets)
    ensures r.Ok? <==> PlayerIds.COUNT * Constants.INITIAL_TICKETS_COUNT <= |tickets|
    ensures r.Ok? ==> Valid(r.value) && r.value.lastPlayer == None && Dealt(start, r.value)
    ensures r.Ok? && players[Player1] != players[Player2] ==>
              Valid(r.value) && Dealt(start, r.value) &&
              r.value.playerState[Player1].tickets <= TopTickets(start, Constants.INITIAL_TICKETS_COUNT)
  {
    players[Player1].InitPlayers(Player1, names);
    players[Player2].InitPlayers(Player2, names);
    var g := Start(tickets);
    start := g;
    var dealt := DealInitialTickets(g, players);
    if dealt.Err? {
      return Err(dealt.reason), start;
    }
    AllUpdateState(dealt.value, players);
    var kept := KeepInitialTickets(dealt.value, players);
    KeptDealt(start, dealt.value, kept);
    r := Ok(kept);
  }

  /** Keeping some of the offered tickets after the ten top tickets were dealt completes the
      dealing of the set-up. */
  lemma KeptDealt(start: GameState, dealt: GameState, r: GameState)
    requires Valid(start) && PlayerIds.COUNT * Constants.INITIAL_TICKETS_COUNT <= Decks.Size(start.tickets)
    requires dealt == WithoutTopTickets(WithoutTopTickets(start, Constants.INITIAL_TICKETS_COUNT), Constants.INITIAL_TICKETS_COUNT)
    requires Valid(r) && r.tickets == dealt.tickets && r.cardState == dealt.cardState
    requires r.currentPlayerId == dealt.currentPlayerId && r.lastPlayer == dealt.lastPlayer
    requires r.playerState[Player1] == PlayerStates.WithAddedTickets(dealt.playerState[Player1], r.playerState[Player1].tickets)
    requires r.playerState[Player2] == PlayerStates.WithAddedTickets(dealt.playerState[Player2], r.playerState[Player2].tickets)
    requires r.playerState[Player2].tickets <=
             TopTickets(WithoutTopTickets(start, Constants.INITIAL_TICKETS_COUNT), Constants.INITIAL_TICKETS_COUNT)
    ensures Dealt(start, r)
  {
    forall p: PlayerId
      ensures r.playerState[p] == PlayerStates.WithAddedTickets(start.playerState[p], r.playerState[p].tickets)
    {
      assert p == Player1 || p == Player2;
    }
  }

  /** The rounds of `play`: round after round until the two turns after the one that began the
      last turns are played (or a check fails, or `fuel` rounds are played), then the scoring,
      after which the players learn the final state. `trace` holds the state before the first
      round and after each round, `turns` the turns between them; the last turns began in round
      `lastPhase + 1`. */
  method Rounds(start: GameState, players: map<PlayerId, Players.Player>, fuel: nat)
    returns (outcome: Outcome, rounds: nat, ghost lastPhase: nat, ghost trace: seq<GameState>, ghost turns: seq<Turn>)
    requires Valid(start) && start.lastPlayer == None && forall p: PlayerId :: p in players
    modifies players.Values
    ensures |trace| == rounds + 1 && trace[0] == start && Alternate(trace) && Turns(trace, turns)
    ensures outcome.Unfinished? ==> rounds == fuel && Valid(outcome.state) && trace[rounds] == outcome.state
    ensures outcome.Ended? ==> Valid(outcome.final) && Scored(outcome) && Ending(outcome.final)
    ensures outcome.Ended? ==> trace[rounds] == outcome.final && LastRounds(trace, lastPhase)
    ensures outcome.Ended? ==> rounds == lastPhase + 3
  {
    var mid, counter;
    mid, counter, rounds, lastPhase, trace, turns := Midgame(start, players, fuel);
    HistoryFacts(trace, turns, start, counter, lastPhase);
    if mid.Err? {
      return Failed(mid.reason), rounds, lastPhase, trace, turns;
    }
    var g := mid.value;
    if counter <= 2 {
      return Unfinished(g), rounds, lastPhase, trace, turns;
    }
    PhaseEnding(g, rounds, lastPhase);
    outcome := Score(g);
    AllUpdateState(g, players);
  }

  /** The loop of `play`: rounds are played while `counter`, the number of rounds played since
      the last turns began, is at most two, and fewer than `fuel` rounds were played. It stops
      early when a check fails. */
  method Midgame(start: GameState, players: map<PlayerId, Players.Player>, fuel: nat)
    returns (r: Result<GameState>, counter: nat, rounds: nat, ghost lastPhase: nat,
             ghost trace: seq<GameState>, ghost turns: seq<Turn>)
    requires Valid(start) && start.lastPlayer == None && forall p: PlayerId :: p in players
    modifies players.Values
    ensures |trace| == rounds + 1 && History(trace, turns, start, counter, lastPhase)
    ensures r.Ok? ==> Valid(r.value) && trace[rounds] == r.value && Phase(r.value, counter, rounds, lastPhase)
    ensures r.Ok? ==> counter == 3 || (counter <= 2 && rounds == fuel)
  {
    var g := start;
    rounds, lastPhase, trace, turns := 0, 0, [start], [];
    counter := 0;
    while counter <= 2 && rounds < fuel
      invariant Valid(g) && rounds <= fuel && Phase(g, counter, rounds, lastPhase)
      invariant |trace| == rounds + 1 && trace[rounds] == g && History(trace, turns, start, counter, lastPhase)
      decreases fuel - rounds
    {
      var next, counter';
      ghost var lastPhase', turn;
      next, counter', lastPhase', turn := Advance(g, players, counter, rounds, lastPhase, trace, turns, start);
      if next.Err? {
        return Err(next.reason), counter, rounds, lastPhase, trace, turns;
      }
      trace, turns := trace + [next.value], turns + [turn];
      g, counter, lastPhase := next.value, counter', lastPhase';
      rounds := rounds + 1;
    }
    r := Ok(g);
  }

  /** Three rounds after the last turns began, the player who began them has played the last of
      them with at most two cars left, and the other player is to move. */
  lemma PhaseEnding(g: GameState, rounds: nat, lastPhase: nat)
    requires Valid(g) && Phase(g, 3, rounds, lastPhase)
    ensures Ending(g) && rounds == lastPhase + 3
  {
  }

  /** Where the loop of `play` stands after `rounds` rounds: `counter` counts the rounds played
      since the last turns began, in the round after the one numbered `lastPhase`; the player who
      began them had at most two cars left and still has; the turn alternates from the other
      player. */
  predicate Phase(g: GameState, counter: nat, rounds: nat, lastPhase: nat)
    requires Valid(g)
  {
    (counter == 0 <==> g.lastPlayer.None?) && counter <= 3 &&
    (counter > 0 ==> rounds == lastPhase + counter) &&
    (g.lastPlayer.Some? ==>
       PlayerStates.CarCount(g.playerState[g.lastPlayer.value]) <= 2 &&
       g.currentPlayerId == if counter % 2 == 1 then g.lastPlayer.value.Next() else g.lastPlayer.value)
  }

  /** Along the states of a game, each round hands the turn to the other player. */
  ghost predicate Alternate(trace: seq<GameState>)
  {
    forall i, j | 0 <= i < j < |trace| && j == i + 1 :: trace[j].currentPlayerId == trace[i].currentPlayerId.Next()
  }

  /** A turn of the loop of `play`: the move the current player made and the state it led to,
      before the next-turn step. */
  datatype Turn = Turn(move: Move, played: GameState)

  /** `n` follows `g` by the turn `t`, which the current player of `g` really made, and the
      next-turn step. */
  predicate Turned(g: GameState, t: Turn, n: GameState)
  {
    Moved(g, t.move, t.played) && n == ForNextTurn(t.played)
  }

  /** Along the states of a game, state `k + 1` follows state `k` by turn `k`. */
  predicate Turns(trace: seq<GameState>, turns: seq<Turn>)
  {
    |trace| == |turns| + 1 &&
    forall k | 0 <= k < |turns| :: Turned(trace[k], turns[k], trace[k + 1])
  }

  /** No last player up to the state numbered `lastPhase`; from the next state on, the last
      player is the one who moved in the round that followed it. */
  ghost predicate LastRounds(trace: seq<GameState>, lastPhase: nat)
  {
    lastPhase < |trace| &&
    (forall i | 0 <= i <= lastPhase :: trace[i].lastPlayer == None) &&
    (forall i | lastPhase < i < |trace| :: trace[i].lastPlayer == Some(trace[lastPhase].currentPlayerId))
  }

  /** The states seen so far by the loop of `play`, from `start`: each follows the one before by
      a turn; while `counter` is zero no last player was set; otherwise the last turns began
      `counter` rounds ago. */
  ghost predicate History(trace: seq<GameState>, turns: seq<Turn>, start: GameState, counter: nat, lastPhase: nat)
  {
    |trace| >= 1 && trace[0] == start && Alternate(trace) && Turns(trace, turns) && LastPlayers(trace, counter, lastPhase)
  }

  /** A turn from the last state extends the turns of a game. */
  lemma TurnsAppend(trace: seq<GameState>, turns: seq<Turn>, t: Turn, n: GameState)
    requires |trace| >= 1 && Turns(trace, turns) && Turned(trace[|trace| - 1], t, n)
    ensures Turns(trace + [n], turns + [t])
  {
    var trace', turns' := trace + [n], turns + [t];
    assert forall k {:trigger turns'[k]} | 0 <= k < |turns| ::
             trace'[k] == trace[k] && turns'[k] == turns[k] && trace'[k + 1] == trace[k + 1];
    assert trace'[|turns|] == trace[|trace| - 1] && turns'[|turns|] == t && trace'[|turns| + 1] == n;
  }

  /** What `History` gives the end of the loop of `play`. */
  lemma HistoryFacts(trace: seq<GameState>, turns: seq<Turn>, start: GameState, counter: nat, lastPhase: nat)
    requires History(trace, turns, start, counter, lastPhase)
    ensures trace[0] == start && Alternate(trace) && Turns(trace, turns)
    ensures counter == 3 ==> LastRounds(trace, lastPhase) && |trace| == lastPhase + 4
  {
  }

  /** The part of `History` about the last player. */
  ghost predicate LastPlayers(trace: seq<GameState>, counter: nat, lastPhase: nat)
  {
    (counter == 0 ==> forall i | 0 <= i < |trace| :: trace[i].lastPlayer == None) &&
    (counter > 0 ==> |trace| == lastPhase + counter + 1 && LastRounds(trace, lastPhase))
  }

  /** One more round keeps the history: the state after it is a turn from the last state, and
      the counter and `lastPhase` move as `Advance` moves them. */
  lemma HistoryStep(trace: seq<GameState>, turns: seq<Turn>, start: GameState, counter: nat, lastPhase: nat,
                    t: Turn, n: GameState, counter': nat, lastPhase': nat)
    requires History(trace, turns, start, counter, lastPhase)
    requires Turns([trace[|trace| - 1], n], [t])
    requires n.currentPlayerId == trace[|trace| - 1].currentPlayerId.Next()
    requires counter' == if n.lastPlayer.Some? then counter + 1 else 0
    requires lastPhase' == if counter == 0 then |trace| - 1 else lastPhase
    ensures History(trace + [n], turns + [t], start, counter', lastPhase')
  {
    var g := trace[|trace| - 1];
    assert Turned([g, n][0], [t][0], [g, n][1]);
    MovedFrame(g, t.move, t.played);
    AlternateAppend(trace, n);
    TurnsAppend(trace, turns, t, n);
    LastPlayersAppend(trace, counter, lastPhase, t.played, counter', lastPhase');
  }

  /** One turn as a game of two states. */
  lemma TurnsOne(g: GameState, t: Turn, n: GameState)
    requires Turned(g, t, n)
    ensures Turns([g, n], [t])
  {
    assert [g, n][0] == g && [g, n][1] == n && [t][0] == t;
  }

  /** A state where the other player moves extends the alternation. */
  lemma AlternateAppend(trace: seq<GameState>, n: GameState)
    requires |trace| >= 1 && Alternate(trace)
    requires n.currentPlayerId == trace[|trace| - 1].currentPlayerId.Next()
    ensures Alternate(trace + [n])
  {
    var t := trace + [n];
    forall i, j | 0 <= i < j < |t| && j == i + 1
      ensures t[j].currentPlayerId == t[i].currentPlayerId.Next()
    {
      if j < |trace| {
        assert t[i] == trace[i] && t[j] == trace[j];
      } else {
        assert t[i] == trace[|trace| - 1] && t[j] == n;
      }
    }
  }

  /** The last player after one more round follows the rule of `forNextTurn`. */
  lemma LastPlayersAppend(trace: seq<GameState>, counter: nat, lastPhase: nat,
                          played: GameState, counter': nat, lastPhase': nat)
    requires |trace| >= 1 && LastPlayers(trace, counter, lastPhase)
    requires Valid(trace[|trace| - 1]) && Valid(played) && TurnFrame(trace[|trace| - 1], played)
    requires counter' == if ForNextTurn(played).lastPlayer.Some? then counter + 1 else 0
    requires lastPhase' == if counter == 0 then |trace| - 1 else lastPhase
    ensures LastPlayers(trace + [ForNextTurn(played)], counter', lastPhase')
  {
    var g := trace[|trace| - 1];
    if counter > 0 {
      assert g.lastPlayer == Some(trace[lastPhase].currentPlayerId);
    }
  }

  /** One round of the loop of `play`: the current player plays, and the turn passes on. The
      round counts towards the end when the last turns begin with it or had begun; the count
      goes back to zero only while no last player is set. */
  method Advance(g: GameState, players: map<PlayerId, Players.Player>, counter: nat, rounds: nat, ghost lastPhase: nat,
                 ghost trace: seq<GameState>, ghost turns: seq<Turn>, ghost start: GameState)
    returns (r: Result<GameState>, counter': nat, ghost lastPhase': nat, ghost turn: Turn)
    requires Valid(g) && forall p: PlayerId :: p in players
    requires Phase(g, counter, rounds, lastPhase) && counter <= 2
    requires |trace| == rounds + 1 && trace[rounds] == g && History(trace, turns, start, counter, lastPhase)
    modifies players.Values
    ensures r.Ok? ==> Valid(r.value) && Phase(r.value, counter', rounds + 1, lastPhase')
    ensures r.Ok? ==> Turns([g, r.value], [turn])
    ensures r.Ok? ==> r.value.currentPlayerId == g.currentPlayerId.Next()
    ensures r.Ok? ==> counter' == if r.value.lastPlayer.Some? then counter + 1 else 0
    ensures lastPhase' == if counter == 0 then rounds else lastPhase
    ensures r.Ok? ==> History(trace + [r.value], turns + [turn], start, counter', lastPhase')
  {
    counter', lastPhase', turn := counter, if counter == 0 then rounds else lastPhase, Turn(CardsDrawn([]), g);
    var result;
    ghost var move;
    result, move := PlayRound(g, players);
    if result.Err? {
      return Err(result.reason), counter', lastPhase', turn;
    }
    var h := result.value;
    MovedFrame(g, move, h);
    turn := Turn(move, h);
    if LastTurnBegins(h) || h.lastPlayer.Some? {
      counter' := counter + 1;
    }
    PhaseStep(g, h, counter, rounds, lastPhase, counter');
    TurnsOne(g, turn, ForNextTurn(h));
    HistoryStep(trace, turns, start, counter, lastPhase, turn, ForNextTurn(h), counter', lastPhase');
    r := Ok(ForNextTurn(h));
  }

  /** The counting of `Advance` keeps `Phase`: after a turn that keeps the turn frame and the
      next-turn step, the counter has gone up exactly when a last player is set. */
  lemma PhaseStep(g: GameState, h: GameState, counter: nat, rounds: nat, lastPhase: nat, counter': nat)
    requires Valid(g) && Valid(h) && TurnFrame(g, h)
    requires Phase(g, counter, rounds, lastPhase) && counter <= 2
    requires counter' == if LastTurnBegins(h) || h.lastPlayer.Some? then counter + 1 else counter
    ensures Phase(ForNextTurn(h), counter', rounds + 1, if counter == 0 then rounds else lastPhase)
    ensures counter' == if ForNextTurn(h).lastPlayer.Some? then counter + 1 else 0
    ensures ForNextTurn(h).currentPlayerId == g.currentPlayerId.Next()
  {
  }

  /** A state `GameState.initial` can return for `tickets`: the tickets form the deck, the 110
      cards are all in play, no player holds a ticket and nobody has begun the last turn. */
  predicate Initialised(g: GameState, tickets: multiset<Tickets.Ticket>)
  {
    Valid(g) && multiset(g.tickets.cards) == tickets && g.lastPlayer == None &&
    g.playerState[Player1].tickets == multiset{} && g.playerState[Player2].tickets == multiset{} &&
    Total(g) == Constants.AllCards()
  }

  /** `r` is `start` once the set-up has dealt the initial tickets: the ten top tickets left the
      deck, each player's state gained only the tickets it kept, the second player kept some of
      the five tickets after the first five, and the cards, the turn and the last player are
      unchanged. */
  ghost predicate Dealt(start: GameState, r: GameState)
    requires Valid(start) && Valid(r)
  {
    PlayerIds.COUNT * Constants.INITIAL_TICKETS_COUNT <= Decks.Size(start.tickets) &&
    var second := WithoutTopTickets(start, Constants.INITIAL_TICKETS_COUNT);
    r.tickets == WithoutTopTickets(second, Constants.INITIAL_TICKETS_COUNT).tickets &&
    r.cardState == start.cardState && r.currentPlayerId == start.currentPlayerId && r.lastPlayer == start.lastPlayer &&
    (forall p: PlayerId :: r.playerState[p] == PlayerStates.WithAddedTickets(start.playerState[p], r.playerState[p].tickets)) &&
    r.playerState[Player2].tickets <= TopTickets(second, Constants.INITIAL_TICKETS_COUNT)
  }

  /** `GameState.initial(tickets, rng)` with a fresh shuffle of the cards and the tickets and any
      first player. */
  method Start(tickets: multiset<Tickets.Ticket>) returns (g: GameState)
    requires forall t | t in tickets :: Tickets.Valid(t)
    ensures Initialised(g, tickets)
  {
    var cardOrder := Shuffle(Constants.AllCards());
    var ticketOrder := Shuffle(tickets);
    var first :| first in PlayerIds.ALL;
    g := Initial(tickets, cardOrder, ticketOrder, first);
  }

  /** Each player in turn is offered the five top tickets, which leave the deck; `topTickets`
      throws when fewer are left. The second player is offered the five after the first five;
      the first player keeps the offer of the first five unless both entries hold the same
      object, which then receives both offers in turn. */
  method DealInitialTickets(g: GameState, players: map<PlayerId, Players.Player>) returns (r: Result<GameState>)
    requires Valid(g) && forall p: PlayerId :: p in players
    modifies players.Values
    ensures r.Ok? <==> PlayerIds.COUNT * Constants.INITIAL_TICKETS_COUNT <= Decks.Size(g.tickets)
    ensures r.Ok? ==>
              Decks.Size(g.tickets) >= PlayerIds.COUNT * Constants.INITIAL_TICKETS_COUNT &&
              r.value == WithoutTopTickets(WithoutTopTickets(g, Constants.INITIAL_TICKETS_COUNT), Constants.INITIAL_TICKETS_COUNT)
    ensures r.Ok? ==>
              players[Player2].offeredTickets ==
              TopTickets(WithoutTopTickets(g, Constants.INITIAL_TICKETS_COUNT), Constants.INITIAL_TICKETS_COUNT)
    ensures r.Ok? && players[Player1] != players[Player2] ==>
              players[Player1].offeredTickets == TopTickets(g, Constants.INITIAL_TICKETS_COUNT)
  {
    AllPlayers();
    var h := g;
    for k := 0 to |PlayerIds.ALL|
      invariant k == 0 ==> h == g
      invariant k == 1 ==>
                  Decks.Size(g.tickets) >= Constants.INITIAL_TICKETS_COUNT &&
                  h == WithoutTopTickets(g, Constants.INITIAL_TICKETS_COUNT) &&
                  players[Player1].offeredTickets == TopTickets(g, Constants.INITIAL_TICKETS_COUNT)
      invariant k == 2 ==>
                  Decks.Size(g.tickets) >= PlayerIds.COUNT * Constants.INITIAL_TICKETS_COUNT &&
                  h == WithoutTopTickets(WithoutTopTickets(g, Constants.INITIAL_TICKETS_COUNT), Constants.INITIAL_TICKETS_COUNT) &&
                  players[Player2].offeredTickets ==
                  TopTickets(WithoutTopTickets(g, Constants.INITIAL_TICKETS_COUNT), Constants.INITIAL_TICKETS_COUNT) &&
                  (players[Player1] != players[Player2] ==>
                     players[Player1].offeredTickets == TopTickets(g, Constants.INITIAL_TICKETS_COUNT))
    {
      if Decks.Size(h.tickets) < Constants.INITIAL_TICKETS_COUNT {
        return Err("not enough tickets");
      }
      players[PlayerIds.ALL[k]].SetInitialTicketChoice(TopTickets(h, Constants.INITIAL_TICKETS_COUNT));
      h := WithoutTopTickets(h, Constants.INITIAL_TICKETS_COUNT);
    }
    r := Ok(h);
  }

  /** Each player in turn keeps some of the tickets offered to them. */
  method KeepInitialTickets(g: GameState, players: map<PlayerId, Players.Player>) returns (r: GameState)
    requires Valid(g) && forall p: PlayerId :: p in players
    requires g.playerState[Player1].tickets == multiset{} && g.playerState[Player2].tickets == multiset{}
    ensures Valid(r) && r.lastPlayer == g.lastPlayer && r.currentPlayerId == g.currentPlayerId
    ensures r.tickets == g.tickets && r.cardState == g.cardState
    ensures r.playerState[Player1] == PlayerStates.WithAddedTickets(g.playerState[Player1], r.playerState[Player1].tickets)
    ensures r.playerState[Player2] == PlayerStates.WithAddedTickets(g.playerState[Player2], r.playerState[Player2].tickets)
    ensures r.playerState[Player1].tickets <= players[Player1].offeredTickets
    ensures r.playerState[Player2].tickets <= players[Player2].offeredTickets
  {
    var chosen1 := players[Player1].ChooseInitialTickets();
    var h := WithInitiallyChosenTickets(g, Player1, chosen1);
    var chosen2 := players[Player2].ChooseInitialTickets();
    r := WithInitiallyChosenTickets(h, Player2, chosen2);
  }
}
