/** The player collaborator (src/ch/epfl/tchu/game/Player.java). The interface is implemented
    by a graphical player or by a proxy to a remote one; here a player is an oracle: each answer
    is any value within the range the interface documents. The messages of `receiveInfo` are not
    part of this model. */
module Players {
  import opened PlayerIds
  import opened Cards
  import opened Routes
  import Constants
  import Tickets
  import PlayerStates
  import PublicGameStates
  import Stations
  import Wrappers

  /** `Player.TurnKind`. */
  datatype TurnKind = DrawTickets | DrawCards | ClaimRoute

  /** `TurnKind.ALL`, in declaration order; its indices are the kinds' wire encoding. */
  const TURN_KINDS: seq<TurnKind> := [DrawTickets, DrawCards, ClaimRoute]

  /** The position of a kind in `TURN_KINDS`. */
  function KindIndex(k: TurnKind): (i: nat)
    ensures i < |TURN_KINDS| && TURN_KINDS[i] == k
  {
    match k
    case DrawTickets => 0
    case DrawCards => 1
    case ClaimRoute => 2
  }

  /** `TURN_KINDS` lists the three kinds once each: the index of a kind identifies it. */
  lemma TurnKindsDistinct(i: nat, j: nat)
    requires i < |TURN_KINDS| && j < |TURN_KINDS| && TURN_KINDS[i] == TURN_KINDS[j]
    ensures i == j
  {
  }

  class Player {
    /** What the game has told this player: its identity, the players' names, the tickets dealt to
        it and the latest states. */
    var ownId: PlayerId
    var playerNames: map<PlayerId, string>
    var offeredTickets: multiset<Tickets.Ticket>
    var publicState: PublicGameStates.PublicGameState
    var ownState: PlayerStates.PlayerState

    constructor (id: PlayerId, state: PublicGameStates.PublicGameState, own: PlayerStates.PlayerState)
      ensures ownId == id && playerNames == map[] && offeredTickets == multiset{}
      ensures publicState == state && ownState == own
    {
      ownId := id;
      playerNames := map[];
      offeredTickets := multiset{};
      publicState := state;
      ownState := own;
    }

    /** `initPlayers(ownId, playerNames)`: the player learns who it is and everybody's name. */
    method InitPlayers(id: PlayerId, names: map<PlayerId, string>)
      modifies this
      ensures ownId == id && playerNames == names
      ensures offeredTickets == old(offeredTickets)
      ensures publicState == old(publicState) && ownState == old(ownState)
    {
      ownId := id;
      playerNames := names;
    }

    /** `updateState(newState, ownState)`: the player learns the public state and its own. */
    method UpdateState(newState: PublicGameStates.PublicGameState, own: PlayerStates.PlayerState)
      modifies this
      ensures publicState == newState && ownState == own
      ensures ownId == old(ownId) && playerNames == old(playerNames)
      ensures offeredTickets == old(offeredTickets)
    {
      publicState := newState;
      ownState := own;
    }

    /** `setInitialTicketChoice(tickets)`: the tickets dealt to the player at the start. */
    method SetInitialTicketChoice(tickets: multiset<Tickets.Ticket>)
      modifies this
      ensures offeredTickets == tickets
      ensures ownId == old(ownId) && playerNames == old(playerNames)
      ensures publicState == old(publicState) && ownState == old(ownState)
    {
      offeredTickets := tickets;
    }

    /** `chooseInitialTickets()`: the player keeps some of the tickets it was dealt. Every
        `Ticket` passed the constructor's checks. */
    method ChooseInitialTickets() returns (chosen: multiset<Tickets.Ticket>)
      ensures chosen <= offeredTickets
      ensures forall t | t in chosen :: Tickets.Valid(t)
    {
      chosen :| chosen <= offeredTickets && forall t | t in chosen :: Tickets.Valid(t);
    }

    /** `nextTurn()`: the kind of action the player takes this turn. */
    method NextTurn() returns (kind: TurnKind)
      ensures kind in TURN_KINDS
    {
      kind :| kind in TURN_KINDS;
    }

    /** `chooseTickets(options)`: the player keeps some of the tickets drawn during the game. */
    method ChooseTickets(options: multiset<Tickets.Ticket>) returns (chosen: multiset<Tickets.Ticket>)
      ensures chosen <= options
    {
      chosen :| chosen <= options;
    }

    /** `drawSlot()`: a face-up slot, from 0 to 4, or `DECK_SLOT` for the deck. */
    method DrawSlot() returns (slot: int)
      ensures slot == Constants.DECK_SLOT || 0 <= slot < Constants.FACE_UP_CARDS_COUNT
    {
      slot :| slot == Constants.DECK_SLOT || 0 <= slot < Constants.FACE_UP_CARDS_COUNT;
    }

    /** `claimedRoute()`: the route the player tries to claim. Every `Route` passed the
        constructor's checks. */
    method ClaimedRoute() returns (route: Route)
      ensures Routes.Valid(route)
    {
      var some := Route("", Stations.Station(0, ""), Stations.Station(1, ""), Constants.MIN_ROUTE_LENGTH,
                        Overground, Wrappers.None);
      assert Routes.Valid(some);
      route :| Routes.Valid(route);
    }

    /** `initialClaimCards()`: the cards the player first lays down for the route; the interface
        promises nothing about them. */
    method InitialClaimCards() returns (cards: multiset<Card>)
    {
      cards :| true;
    }

    /** `chooseAdditionalCards(options)`: one of the options, or the empty bag, which means the
        player gives up the tunnel. */
    method ChooseAdditionalCards(options: seq<multiset<Card>>) returns (chosen: multiset<Card>)
      ensures chosen in options || chosen == multiset{}
    {
      chosen :| chosen in options || chosen == multiset{};
    }
  }
}
