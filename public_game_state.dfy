/** What every player sees of a game (src/ch/epfl/tchu/game/PublicGameState.java): the size of
    the ticket deck, the public card state, whose turn it is, each player's public state and the
    player who began the last turn, if any. */
module PublicGameStates {
  import opened Wrappers
  import opened PlayerIds
  import opened Routes
  import Constants
  import PublicCardStates
  import PublicPlayerStates

  datatype PublicGameState = PublicGameState(ticketsCount: int,
                                             cardState: PublicCardStates.PublicCardState,
                                             currentPlayerId: PlayerId,
                                             playerState: map<PlayerId, PublicPlayerStates.PublicPlayerState>,
                                             lastPlayer: Option<PlayerId>)

  /** The constructor's check: no negative ticket count and a state for each of the two players. */
  predicate Valid(s: PublicGameState)
  {
    s.ticketsCount >= 0 && |s.playerState| == PlayerIds.COUNT
  }

  /** The constructor; `lastPlayer` may be absent (`null`). */
  function New(ticketsCount: int, cardState: PublicCardStates.PublicCardState, currentPlayerId: PlayerId,
               playerState: map<PlayerId, PublicPlayerStates.PublicPlayerState>,
               lastPlayer: Option<PlayerId>): (s: PublicGameState)
    requires ticketsCount >= 0 && |playerState| == PlayerIds.COUNT
    ensures Valid(s) && forall p: PlayerId :: p in s.playerState
    ensures s.ticketsCount == ticketsCount && s.cardState == cardState && s.currentPlayerId == currentPlayerId
    ensures s.playerState == playerState && s.lastPlayer == lastPlayer
  {
    BothPlayers(playerState);
    PublicGameState(ticketsCount, cardState, currentPlayerId, playerState, lastPlayer)
  }

  /** A map with two entries keyed by players has an entry for each player. */
  lemma BothPlayers<V>(m: map<PlayerId, V>)
    requires |m| == PlayerIds.COUNT
    ensures forall p: PlayerId :: p in m
  {
    AllPlayers();
    if Player1 !in m || Player2 !in m {
      var other := if Player1 !in m then Player2 else Player1;
      forall p | p in m.Keys ensures p == other {
        assert p == Player1 || p == Player2;
      }
      AtMostOneKey(m, other);
      assert false;
    }
    forall p: PlayerId ensures p in m {
      assert p == Player1 || p == Player2;
    }
  }

  /** A map whose keys are all `other` has at most one entry. */
  lemma AtMostOneKey<V>(m: map<PlayerId, V>, other: PlayerId)
    requires forall p :: p in m.Keys ==> p == other
    ensures |m| <= 1
  {
    if other in m.Keys {
      assert m.Keys == {other};
    } else {
      assert m.Keys == {};
    }
  }

  /** `canDrawTickets()`: some ticket is left. */
  predicate CanDrawTickets(s: PublicGameState)
  {
    s.ticketsCount != 0
  }

  /** `canDrawCards()`: deck and discard together hold at least five cards. */
  predicate CanDrawCards(s: PublicGameState)
  {
    s.cardState.deckSize + s.cardState.discardsSize >= Constants.FACE_UP_CARDS_COUNT
  }

  /** `playerState(playerId)`. */
  function PlayerStateOf(s: PublicGameState, p: PlayerId): PublicPlayerStates.PublicPlayerState
    requires Valid(s)
  {
    BothPlayers(s.playerState);
    s.playerState[p]
  }

  /** `currentPlayerState()`: the state of the player whose turn it is. */
  function CurrentPlayerState(s: PublicGameState): (ps: PublicPlayerStates.PublicPlayerState)
    requires Valid(s)
    ensures ps == PlayerStateOf(s, s.currentPlayerId)
  {
    BothPlayers(s.playerState);
    s.playerState[s.currentPlayerId]
  }

  /** `claimedRoutes()`: the routes of every player, player after player. The source iterates an
      immutable map copy, whose order is unspecified; the model takes the players in `ALL` order
      and promises only the routes as a bag. */
  method ClaimedRoutes(s: PublicGameState) returns (claimed: seq<Route>)
    requires Valid(s)
    ensures multiset(claimed) ==
              multiset(PlayerStateOf(s, Player1).routes) + multiset(PlayerStateOf(s, Player2).routes)
  {
    BothPlayers(s.playerState);
    AllPlayers();
    claimed := [];
    for k := 0 to |PlayerIds.ALL|
      invariant multiset(claimed) == RoutesOfFirst(s, k)
    {
      var routes := s.playerState[PlayerIds.ALL[k]].routes;
      for i := 0 to |routes|
        invariant multiset(claimed) == RoutesOfFirst(s, k) + multiset(routes[..i])
      {
        assert routes[..i + 1] == routes[..i] + [routes[i]];
        claimed := claimed + [routes[i]];
      }
      assert routes[..|routes|] == routes;
    }
  }

  /** The routes, as a bag, of the first `k` players of `ALL`. */
  function RoutesOfFirst(s: PublicGameState, k: nat): multiset<Route>
    requires Valid(s) && k <= 2
  {
    BothPlayers(s.playerState);
    (if k >= 1 then multiset(s.playerState[Player1].routes) else multiset{}) +
    (if k >= 2 then multiset(s.playerState[Player2].routes) else multiset{})
  }
}
