# tCHu rules engine and wire codec, in Dafny

tCHu is a two-player railway game played on a map of Switzerland, in the style of "Ticket to Ride".
This project models the game's rules engine (the `ch.epfl.tchu.game` package) and the text codec
that carries game states between a server and its clients (`ch.epfl.tchu.net.Serde` and
`ch.epfl.tchu.net.Serdes`). Each Java source file becomes one Dafny module:

- **Values.** Cards, colours, player identities, stations, trips, tickets, routes, decks and the
  card, player and game states (public and private) are immutable in Java. Here they are
  datatypes, and their operations are functions. A `SortedBag` is a `multiset`; its sorted view
  lists the elements in the order of a canonical enumeration (`Card.ALL` for cards).
- **Validity checks.** A `Preconditions.checkArgument` in a constructor or an operation becomes a
  `Valid` predicate or a `requires`. When the caller can ask whether the check fails, the model
  returns a `Result` instead (`Tickets.New`).
- **Loops.** Operations that compute with loops are methods, each proved against a specification
  function. Examples: `Route.possibleClaimCards`, `Route.additionalClaimCardsCount`,
  `PlayerState.possibleAdditionalCards`, `PlayerState.ticketPoints`, `Trip.all`,
  `Ticket.computeText`, `Trail.longest` and `Trail.toString`.
- **Station partition.** The builder of `StationPartition` is a class over an `array` of parent
  links. `Connect` links the roots; `Build` compresses every link to its root. Both are proved
  against the reflexive-transitive closure of the connected pairs.
- **Players.** `Player` is a class. Its fields record what it was told (`initPlayers`,
  `updateState`, `setInitialTicketChoice`). Each question it is asked is answered by any value in
  the range the interface documents.
- **Game.** `Game.play` is an imperative driver:
  - the set-up: names, the initial state and the initial tickets;
  - turns of the three kinds (drawing tickets, drawing cards, claiming a route or a tunnel);
  - the extra round that begins once a player has two cars or fewer;
  - the final score, with the longest-trail bonus and the verdict.

  Random shuffles and the random first player are nondeterministic choices (`:|`). The pure state
  transitions take the shuffled order as an argument.
- **Codec.** A `Serde` is a pair of functions. `Serde.of`, `oneOf`, `listOf` and `bagOf` are
  combinators with round-trip lemmas. Every `Serdes` codec up to `serPublicGameState` is proved to
  round-trip on exactly the values it can write.

Where Java compares routes or stations by reference, the model compares values; the map's
objects are unique, so the two agree.

Two behaviours of the source are modelled as written:

- When a route is claimed, `Game.playRound` discards the initial claim cards twice: once inside
  `GameState.withClaimedRoute` and once more at the end of the turn. The three tunnel cards that
  were drawn are never put in the discard. `Games.SettledFacts` states the resulting card count.
- `CardState.of` lays out the five face-up cards in sorted order, because it goes through a
  `SortedBag`. `CardStates.OfSorted` states this.

## Model

| member | source | states |
|---|---|---|
| Colors.Ordinal | src/ch/epfl/tchu/game/Color.java:23 | every colour sits at its own index of `ALL` |
| Colors.AllColors | src/ch/epfl/tchu/game/Color.java:23-27 | `COUNT` is 8, `ALL` lists every colour, and no colour twice |
| Cards.Ordinal | src/ch/epfl/tchu/game/Card.java:31-36 | every card sits at its own index of `ALL` |
| Cards.Of | src/ch/epfl/tchu/game/Card.java:48-53 | `of(color)` is a car card (in `CARS`) of that colour |
| Cards.FirstOfColor | src/ch/epfl/tchu/game/Card.java:48-53 | the loop over `CARS` returns a card of the colour, or null only when no car card has it |
| Cards.CardFacts | src/ch/epfl/tchu/game/Card.java:31-41 | nine cards; only the locomotive has no colour; `CARS` is `ALL` minus the locomotive, colour for colour in `Color.ALL` order |
| Cards.OrdinalsIncreasing | src/ch/epfl/tchu/game/Card.java:31-36 | the enum order is the order of `ALL` |
| Cards.SortedList | src/ch/epfl/tchu/game/CardState.java:39 | the sorted view of a bag of cards holds exactly the bag's cards, in enum order |
| PlayerIds.Next | src/ch/epfl/tchu/game/PlayerId.java:27-29 | `next()` is the other player: player 2 for player 1 and player 1 for player 2 |
| PlayerIds.AllPlayers | src/ch/epfl/tchu/game/PlayerId.java:18-22 | `COUNT` is 2 and `ALL` lists both players |
| PlayerIds.NextInvolution | src/ch/epfl/tchu/game/PlayerId.java:27-29 | `next()` applied twice gives the player back |
| Trips.Points | src/ch/epfl/tchu/game/Trip.java:84-87 | a trip is worth its points when its stations are connected and their negation otherwise |
| Trips.AllTripsShape | src/ch/epfl/tchu/game/Trip.java:42-53 | the trips from every start to every end, in row-major order, `|from| * |to|` of them |
| Trips.All | src/ch/epfl/tchu/game/Trip.java:42-53 | the nested loops build exactly that list, and every trip passes the constructor's checks |
| Tickets.New | src/ch/epfl/tchu/game/Ticket.java:25-31 | the constructor succeeds exactly when the trip list is non-empty and every trip leaves the same station |
| Tickets.Single | src/ch/epfl/tchu/game/Ticket.java:39-41 | a valid ticket of a single trip between the two stations for the points |
| Tickets.Destinations | src/ch/epfl/tchu/game/Ticket.java:52-55 | the `TreeSet` of destination labels: sorted without repeats, holding every trip's label |
| Tickets.SortedDistinct | src/ch/epfl/tchu/game/Ticket.java:52-55 | in the destination set, earlier labels are strictly smaller |
| Tickets.TextShape | src/ch/epfl/tchu/game/Ticket.java:47-65 | the text is "from - label" for one destination, and "from - {a, b, ...}" for several |
| Tickets.ComputeText | src/ch/epfl/tchu/game/Ticket.java:47-65 | the loop builds that text |
| Tickets.CompareTo | src/ch/epfl/tchu/game/Ticket.java:82-84 | tickets compare equal exactly when their texts are equal |
| Tickets.CompareToAntisymmetric | src/ch/epfl/tchu/game/Ticket.java:82-84 | swapping the tickets negates the comparison |
| Tickets.Points | src/ch/epfl/tchu/game/Ticket.java:91-97 | a ticket is worth the largest value among its trips' values |
| Tickets.ComputePoints | src/ch/epfl/tchu/game/Ticket.java:91-97 | the loop keeping the running maximum computes that value |
| Tickets.PointsMonotone | src/ch/epfl/tchu/game/Ticket.java:91-97 | connecting more stations never lowers a ticket's value |
| Text.IntRoundTrip | src/ch/epfl/tchu/net/Serdes.java:22 | `Integer.parseInt` reads back every integer that `toString` writes |
| Text.SplitJoin | src/ch/epfl/tchu/net/Serde.java:76-90 | splitting a join on its delimiter gives the parts back when no part holds the delimiter |
| Text.Compare | src/ch/epfl/tchu/game/Ticket.java:82-84 | `String.compareTo` is zero exactly on equal strings |
| Text.CompareAntisymmetric | src/ch/epfl/tchu/game/Ticket.java:82-84 | swapping the strings negates the comparison |
| Text.LessTransitive | src/ch/epfl/tchu/game/Ticket.java:52 | the string order the `TreeSet` uses is transitive |
| Decks.Of | src/ch/epfl/tchu/game/Deck.java:34-38 | a shuffled deck holds exactly the given cards |
| Decks.TopCard | src/ch/epfl/tchu/game/Deck.java:57-60 | the top card of a non-empty deck is one of its cards |
| Decks.TopCards | src/ch/epfl/tchu/game/Deck.java:74-77 | the top `count` cards form a bag of `count` cards taken from the deck |
| Decks.WithoutTopCards | src/ch/epfl/tchu/game/Deck.java:83-86 | removing the top `count` cards shrinks the deck by `count`, and top plus rest is the whole deck |
| Decks.WithoutTopCard | src/ch/epfl/tchu/game/Deck.java:65-68 | removing the top card shrinks the deck by one |
| Decks.EmptyIffSizeZero | src/ch/epfl/tchu/game/Deck.java:43-52 | a deck is empty exactly when its size is 0, and a shuffled deck exactly when its bag is empty |
| Decks.TopAndRest | src/ch/epfl/tchu/game/Deck.java:57-68 | a deck is its top card followed by the deck without it |
| Decks.WithoutTopCardsTwice | src/ch/epfl/tchu/game/Deck.java:74-86 | removing `m` then `n` top cards is removing `m + n`, and the cards removed add up |
| PublicCardStates.New | src/ch/epfl/tchu/game/PublicCardState.java:28-34 | the constructor accepts five face-up cards and non-negative sizes, and keeps them |
| PublicCardStates.FaceUpCard | src/ch/epfl/tchu/game/PublicCardState.java:57-59 | the card in a slot is one of the face-up cards |
| PublicCardStates.Accessors | src/ch/epfl/tchu/game/PublicCardState.java:57-75 | `faceUpCard(slot)` reads the slot, and `isDeckEmpty` holds exactly when the deck size is 0 |
| CardStates.Public | src/ch/epfl/tchu/game/CardState.java:27-31 | the public part carries the deck's size and the discard's size; its deck is empty exactly when the real deck is |
| CardStates.Of | src/ch/epfl/tchu/game/CardState.java:37-40 | the top five cards go face up, the rest stays in the deck and the discard is empty; no card is lost |
| CardStates.OfSorted | src/ch/epfl/tchu/game/CardState.java:39 | the face-up cards come out in enum order |
| CardStates.WithDrawnFaceUpCard | src/ch/epfl/tchu/game/CardState.java:46-51 | the top deck card replaces the drawn slot and no other slot changes; the drawn card leaves the cards in play |
| CardStates.WithDeckRecreatedFromDiscards | src/ch/epfl/tchu/game/CardState.java:57-60 | the shuffled discard becomes the deck and the discard is emptied; no card is lost |
| CardStates.WithMoreDiscardedCards | src/ch/epfl/tchu/game/CardState.java:66-68 | the discard grows by the given cards and nothing else changes |
| CardStates.TopDeckCard | src/ch/epfl/tchu/game/CardState.java:73-76 | the top card of a non-empty deck is one of the deck's cards, and so one of the state's cards |
| CardStates.WithoutTopDeckCard | src/ch/epfl/tchu/game/CardState.java:81-84 | the deck loses its top card and nothing else changes |
| PublicPlayerStates.New | src/ch/epfl/tchu/game/PublicPlayerState.java:29-37 | the constructor keeps its counts and routes |
| PublicPlayerStates.TotalForCarCount | src/ch/epfl/tchu/game/PublicPlayerState.java:39-45 | the loop sums the routes' lengths |
| PublicPlayerStates.TotalForClaimPoints | src/ch/epfl/tchu/game/PublicPlayerState.java:47-53 | the loop sums the routes' claim points |
| PublicPlayerStates.TotalsAppend | src/ch/epfl/tchu/game/PublicPlayerState.java:39-53 | both totals add up over concatenated route lists |
| PublicPlayerStates.TotalsBounds | src/ch/epfl/tchu/game/PublicPlayerState.java:39-53 | claim points are at least the total length, which is at least the route count |
| PublicPlayerStates.NoRoutes | src/ch/epfl/tchu/game/PublicPlayerState.java:84-94 | with no routes a player has 40 cars and 0 claim points |
| PublicGameStates.New | src/ch/epfl/tchu/game/PublicGameState.java:31-38 | the constructor accepts a non-negative ticket count and a state for each of the two players, and keeps them |
| PublicGameStates.BothPlayers | src/ch/epfl/tchu/game/PublicGameState.java:33 | a map with two player keys holds both players |
| PublicGameStates.CurrentPlayerState | src/ch/epfl/tchu/game/PublicGameState.java:93-95 | the current player's state is the map's entry for the current player |
| PublicGameStates.ClaimedRoutes | src/ch/epfl/tchu/game/PublicGameState.java:101-109 | the claimed routes are both players' routes together |
| Routes.StationsOf | src/ch/epfl/tchu/game/Route.java:93-95 | `stations()` lists station 1 then station 2 |
| Routes.StationOpposite | src/ch/epfl/tchu/game/Route.java:101-105 | the opposite of one end is the other end, never the station itself |
| Routes.MatchingCarsShape | src/ch/epfl/tchu/game/Route.java:110-126 | a grey route accepts every car colour, and a coloured route only its own |
| Routes.ClaimCandidatesShape | src/ch/epfl/tchu/game/Route.java:110-126 | an overground route has one candidate per usable colour. A tunnel has `length` per colour plus the all-locomotive bag. Every candidate has `length` cards of the route's colour or locomotives |
| Routes.PossibleClaimCards | src/ch/epfl/tchu/game/Route.java:110-126 | the nested loops build exactly the candidate list, in the source's order |
| Routes.RowLoop | src/ch/epfl/tchu/game/Route.java:113-121 | the inner loop over car colours builds one row of candidates |
| Routes.AdditionalClaimCardsCount | src/ch/epfl/tchu/game/Route.java:133-141 | counts the drawn cards that are locomotives or in the claim cards, between 0 and 3 |
| Routes.AdditionalCountAnyOrder | src/ch/epfl/tchu/game/Route.java:133-141 | the count depends only on the bag of drawn cards, not on their order |
| Routes.ClaimPoints | src/ch/epfl/tchu/game/Route.java:146-148 | a route is worth at least its length |
| Routes.ClaimPointsIncreasing | src/ch/epfl/tchu/game/Route.java:146-148 | a longer route is worth strictly more |
| StationPartitions.Builder.constructor | src/ch/epfl/tchu/game/StationPartition.java:35-42 | every station is its own representative and no pair is connected yet |
| StationPartitions.Builder.Representative | src/ch/epfl/tchu/game/StationPartition.java:44-49 | following the links ends at the root of the station's tree |
| StationPartitions.Builder.Connect | src/ch/epfl/tchu/game/StationPartition.java:57-60 | the two stations get one root; stations joined before stay joined |
| StationPartitions.Builder.Build | src/ch/epfl/tchu/game/StationPartition.java:66-71 | every link is replaced by its root, and two stations share a link exactly when a chain of connected pairs joins them |
| StationPartitions.ConnectStep | src/ch/epfl/tchu/game/StationPartition.java:57-60 | linking two roots keeps the forest well-founded and makes its trees exactly the classes of the pairs connected so far |
| StationPartitions.ConnectedEquivalence | src/ch/epfl/tchu/game/StationPartition.java:13-18 | `connected` is reflexive, symmetric and transitive |
| StationPartitions.ConnectedJoined | src/ch/epfl/tchu/game/StationPartition.java:13-18 | a built partition says two stations are connected exactly when a chain of connected pairs joins them |
| StationPartitions.JoinedTransitive | src/ch/epfl/tchu/game/StationPartition.java:57-60 | being joined by a chain of connected pairs is transitive |
| PlayerStates.Public | src/ch/epfl/tchu/game/PlayerState.java:24-28 | the public part counts the tickets and cards and keeps the routes |
| PlayerStates.Initial | src/ch/epfl/tchu/game/PlayerState.java:36-39 | four cards, no ticket, no route, 40 cars and 0 claim points |
| PlayerStates.WithAddedTickets | src/ch/epfl/tchu/game/PlayerState.java:54-56 | the tickets grow by the new ones and nothing else changes |
| PlayerStates.WithAddedCard | src/ch/epfl/tchu/game/PlayerState.java:71-73 | the cards grow by one card and nothing else changes |
| PlayerStates.CanClaimRoute | src/ch/epfl/tchu/game/PlayerState.java:89-96 | true exactly when the player has enough cars and holds one of the route's candidate bags |
| PlayerStates.CanClaimIffOptions | src/ch/epfl/tchu/game/PlayerState.java:89-111 | a route can be claimed exactly when there are enough cars and at least one claim option, and every option is a bag of `length` held cards |
| PlayerStates.PossibleClaimCards | src/ch/epfl/tchu/game/PlayerState.java:104-111 | the options are the route's candidates that the player holds, in the candidates' order |
| PlayerStates.PossibleAdditionalCards | src/ch/epfl/tchu/game/PlayerState.java:122-137 | a bag is an option exactly when it has `n` cards, all locomotives or of the initial cards' kinds, held outside the initial cards. Options do not repeat and are ordered by locomotive count. The list is empty exactly when fewer than `n` such cards remain |
| PlayerStates.UsableCards | src/ch/epfl/tchu/game/PlayerState.java:125-130 | the loop keeps the remaining cards that are locomotives or of an initial kind |
| PlayerStates.UsableOption | src/ch/epfl/tchu/game/PlayerState.java:125-133 | a bag is an additional option exactly when it is an `n`-card sub-bag of the usable cards |
| PlayerStates.WithClaimedRoute | src/ch/epfl/tchu/game/PlayerState.java:145-149 | the route is appended and the cards paid leave the hand. The player loses `length` cars and gains the route's claim points |
| PlayerStates.TicketSumUnion | src/ch/epfl/tchu/game/PlayerState.java:155-171 | the ticket total over two bags is the sum of the totals |
| PlayerStates.TicketSumMonotone | src/ch/epfl/tchu/game/PlayerState.java:155-171 | connecting more stations never lowers the ticket total |
| PlayerStates.PartitionOf | src/ch/epfl/tchu/game/PlayerState.java:157-164 | the partition built from the player's routes connects two stations exactly when the routes join them |
| PlayerStates.TicketPoints | src/ch/epfl/tchu/game/PlayerState.java:155-171 | the loop sums every ticket's value under the player's connectivity |
| PlayerStates.FinalPoints | src/ch/epfl/tchu/game/PlayerState.java:177-179 | final points are claim points plus ticket points |
| PlayerStates.ClaimNeverLowersTicketPoints | src/ch/epfl/tchu/game/PlayerState.java:145-171 | claiming a route never lowers the ticket points |
| PlayerStates.AddedTicketsPoints | src/ch/epfl/tchu/game/PlayerState.java:54-73 | new tickets add their own values to the ticket points; a new card changes nothing |
| GameStates.Public | src/ch/epfl/tchu/game/GameState.java:30-35 | the public state carries the deck size and the players' public states. Tickets can be drawn exactly when the ticket deck is not empty. Cards can be drawn exactly when deck plus discard hold at least five |
| GameStates.Initial | src/ch/epfl/tchu/game/GameState.java:42-52 | all tickets shuffled into the deck. Each player gets four cards from the top of the shuffled 110, and the rest builds the card state. The first player is the chosen one and no card is lost |
| GameStates.DealTotal | src/ch/epfl/tchu/game/GameState.java:42-52 | the two hands and the card state together are the whole shuffled deck |
| GameStates.CurrentPlayerState | src/ch/epfl/tchu/game/GameState.java:66-68 | the current player's state, whose public part is the public current player state |
| GameStates.TopTickets | src/ch/epfl/tchu/game/GameState.java:74-77 | the top `count` tickets of the ticket deck |
| GameStates.WithoutTopTickets | src/ch/epfl/tchu/game/GameState.java:83-86 | the ticket deck loses its top `count` tickets and nothing else changes |
| GameStates.TopCard | src/ch/epfl/tchu/game/GameState.java:91-94 | the top card of the card deck |
| GameStates.WithoutTopCard | src/ch/epfl/tchu/game/GameState.java:99-102 | the card deck loses its top card; that card leaves the cards in play |
| GameStates.WithMoreDiscardedCards | src/ch/epfl/tchu/game/GameState.java:108-110 | the discard grows by the given cards and nothing else changes |
| GameStates.WithCardsDeckRecreatedIfNeeded | src/ch/epfl/tchu/game/GameState.java:116-122 | an empty deck is rebuilt from the shuffled discard, and a non-empty one is left alone. No card is lost, and the deck stays empty only when no card is left to draw |
| GameStates.WithInitiallyChosenTickets | src/ch/epfl/tchu/game/GameState.java:129-134 | the given player, who had no ticket, now holds the chosen ones; nothing else changes |
| GameStates.WithChosenAdditionalTickets | src/ch/epfl/tchu/game/GameState.java:141-152 | three tickets leave the deck and the current player keeps the chosen ones; no card moves |
| GameStates.WithDrawnFaceUpCard | src/ch/epfl/tchu/game/GameState.java:159-165 | the current player takes the face-up card of the slot and the slot is refilled; no card is lost |
| GameStates.WithBlindlyDrawnCard | src/ch/epfl/tchu/game/GameState.java:170-175 | the current player takes the top deck card; no card is lost |
| GameStates.WithClaimedRoute | src/ch/epfl/tchu/game/GameState.java:182-191 | the current player claims the route with the cards and those cards go to the discard; the other player is untouched |
| GameStates.ForNextTurn | src/ch/epfl/tchu/game/GameState.java:203-208 | the other player plays next. The last player is set when the last turn begins and is never changed afterwards |
| GameStates.TwoDrawsPossible | src/ch/epfl/tchu/game/GameState.java:116-122 | when cards can be drawn, the deck after recreation is not empty and a second draw remains possible |
| GameStates.LastTurnBeginsOnce | src/ch/epfl/tchu/game/GameState.java:196-198 | the last turn cannot begin once a last player is set. When it begins, the next-turn step makes the current player the last player, and it does not begin again |
| GameStates.TicketsDrawable | src/ch/epfl/tchu/game/PublicGameState.java:52-54 | when tickets can be drawn, the top ticket of the real ticket deck can be taken. Otherwise the ticket deck is empty |
| GameStates.CardsDrawable | src/ch/epfl/tchu/game/PublicGameState.java:68-70 | cards can be drawn exactly when the real deck and discard hold at least five cards between them |
| GameStates.PublicPlayerStateOf | src/ch/epfl/tchu/game/PublicGameState.java:85-87 | the public state of each player is the public part of that player's full state |
| Players.KindIndex | src/ch/epfl/tchu/game/Player.java:10-13 | each turn kind sits at its own index of `TurnKind.ALL` |
| Players.Player.InitPlayers | src/ch/epfl/tchu/game/Player.java:16 | the player records its identity and everybody's name |
| Players.Player.UpdateState | src/ch/epfl/tchu/game/Player.java:22 | the player records the new public state and its own state |
| Players.Player.SetInitialTicketChoice | src/ch/epfl/tchu/game/Player.java:25 | the player records the tickets dealt to it |
| Players.Player.ChooseInitialTickets | src/ch/epfl/tchu/game/Player.java:28 | the kept tickets are among those dealt |
| Players.Player.NextTurn | src/ch/epfl/tchu/game/Player.java:31 | one of the three turn kinds |
| Players.Player.ChooseTickets | src/ch/epfl/tchu/game/Player.java:34 | the kept tickets are among those offered |
| Players.Player.DrawSlot | src/ch/epfl/tchu/game/Player.java:37 | a face-up slot from 0 to 4, or the deck slot -1 |
| Players.Player.ClaimedRoute | src/ch/epfl/tchu/game/Player.java:40 | a route that passed the constructor's checks |
| Players.Player.ChooseAdditionalCards | src/ch/epfl/tchu/game/Player.java:46 | one of the options, or the empty bag to give up |
| Games.Recreate | src/ch/epfl/tchu/game/GameState.java:116-122 | the deck is recreated from a shuffle of the discard exactly when it is empty: `shuffled` orders exactly the discard, the result is `withCardsDeckRecreatedIfNeeded` for that order, and no card is lost |
| Games.DrawTicketsTurn | src/ch/epfl/tchu/game/Game.java:139-144 | fails exactly when fewer than three tickets are left. Otherwise the three top tickets leave the deck and the player keeps `kept`, a sub-bag of them; no card moves. The move is recorded as `TicketsDrawn(kept)` |
| Games.Take | src/ch/epfl/tchu/game/Game.java:153-159 | for `DECK_SLOT` the player receives the top deck card and the deck loses it; for a face-up slot the player receives that card and the top deck card takes its place. The card goes to the current player's hand and nothing else changes |
| Games.DrawOne | src/ch/epfl/tchu/game/Game.java:153-159 | the draw succeeds exactly when the deck is not empty, and then takes the card of the slot the player named, as `Take` states |
| Games.DrawFrom | src/ch/epfl/tchu/game/Game.java:150-159 | a draw can be made exactly when the shuffle orders the discard, a card is left to draw and the slot exists |
| Games.DrawFromDrew | src/ch/epfl/tchu/game/Game.java:150-159 | a draw that can be made moves one card to the current player's hand, and nothing else changes |
| Games.DrawFromTake | src/ch/epfl/tchu/game/Game.java:150-159 | when the deck, recreated if needed, holds a card, the draw takes the card of its slot, as `Take` states |
| Games.ExtendDrew | src/ch/epfl/tchu/game/Game.java:150-161 | one more draw after `n` draws makes `n + 1` draws |
| Games.AfterDrawsDrew | src/ch/epfl/tchu/game/Game.java:150-161 | draws made one after the other move exactly that many cards to the current player's hand, and nothing else changes |
| Games.AfterDrawsStep | src/ch/epfl/tchu/game/Game.java:150-161 | the draws followed by one more draw lead where that draw leads from the state the draws led to |
| Games.DrawMade | src/ch/epfl/tchu/game/Game.java:150-161 | a draw that can be made after some draws extends them by the state and the card it gives |
| Games.DrawCardFacts | src/ch/epfl/tchu/game/Game.java:150-159 | a draw from the recreated deck succeeds exactly when a card is left to draw, and then extends the draws by the card of the named slot; no card is lost and one fewer can be drawn |
| Games.DrawNext | src/ch/epfl/tchu/game/Game.java:153-159 | once the deck is recreated, the draw succeeds exactly when a card is left to draw, and then extends the draws by the card of the slot the player named; no card is lost and one fewer can be drawn |
| Games.DrawCardsTurn | src/ch/epfl/tchu/game/Game.java:149-163 | the turn succeeds exactly with two drawable cards. Its result is that of the two draws the player made, in order: each recreates the deck if needed and takes the card of the slot named (`AfterDraws`). Before the second draw the players learn the recreated state: one card has been drawn and the deck holds a card |
| Games.DrewTwice | src/ch/epfl/tchu/game/Game.java:149-163 | two draws in a row make one draw of both cards |
| Games.Uncover | src/ch/epfl/tchu/game/Game.java:182-185 | the top card of the deck, recreated first if empty, leaves the game; the face-up cards, the players and the tickets are kept, and one card fewer can be drawn |
| Games.Uncovered | src/ch/epfl/tchu/game/Game.java:181-186 | one card per shuffle, each the top of the deck recreated if needed; the cards leave the game and nothing else changes |
| Games.UncoveredStep | src/ch/epfl/tchu/game/Game.java:181-186 | one more uncovered card extends the uncovering |
| Games.TunnelDraw | src/ch/epfl/tchu/game/Game.java:181-186 | succeeds exactly when three cards can be drawn; its three cards are then the successive deck tops, as `Uncovered` states |
| Games.TunnelClaim | src/ch/epfl/tchu/game/Game.java:176-207 | fails when fewer than three cards can be drawn, and succeeds when three can and the initial cards are a non-empty bag of at most two kinds. The three cards are the successive deck tops (`Uncovered`). The payment is the price `TunnelPaid` sets for the count `additionalClaimCardsCount` gives for those cards: the initial cards when none are called for, otherwise the initial cards plus one option of `possibleAdditionalCards`, or nothing |
| Games.AdditionalPayment | src/ch/epfl/tchu/game/Game.java:189-206 | the payment is the initial cards plus an option of `possibleAdditionalCards` for the count, or nothing; nothing whenever there is no option |
| Games.ClaimRouteTurn | src/ch/epfl/tchu/game/Game.java:168-211 | an overground route always succeeds. A tunnel fails when fewer than three cards can be drawn, and succeeds when three can and the initial cards are a non-empty bag of at most two kinds. A success is `Settled`: the deck is recreated if needed; an overground route is paid with the initial cards, a tunnel with the price its three deck tops set; the route is claimed with the payment, if any, and the initial cards are discarded once more |
| Games.Pay | src/ch/epfl/tchu/game/Game.java:198-209 | the route is claimed with the paid cards, if any, and the initial cards are discarded once more |
| Games.SettledFacts | src/ch/epfl/tchu/game/Game.java:168-211 | a settled claim keeps the tickets, the current and the last player; three tunnel cards leave the game, or none for an overground route; the player claims the route with a payment that holds the initial cards, or stays as it was; when the player held the initial cards, the cards in play grow by the initial cards and lose the tunnel cards |
| Games.PaidHeld | src/ch/epfl/tchu/game/Game.java:189-207 | a tunnel price holds the initial cards, and a player who holds the initial cards holds the whole price |
| Games.PayCards | src/ch/epfl/tchu/game/Game.java:196-209 | the game's cards plus the tunnel cards equal the cards before the turn plus the initial cards |
| Games.SettledFrame | src/ch/epfl/tchu/game/Game.java:168-211 | a settled claim leaves the other player untouched and never raises the current player's cars |
| Games.AllUpdateState | src/ch/epfl/tchu/game/Game.java:112-114 | every player learns the public state, and each player its own state (the second player's when both entries hold the same object); identities, names and offered tickets are untouched |
| Games.DrawsMoved | src/ch/epfl/tchu/game/Game.java:149-163 | two draws that can be made are a card-drawing move |
| Games.ClaimMoved | src/ch/epfl/tchu/game/Game.java:168-211 | a settled claim is a route-claiming move |
| Games.PlayRound | src/ch/epfl/tchu/game/Game.java:125-216 | a successful round is one of the three moves, as `Moved` states it: the three top tickets drawn and some kept; two draws from the slots the player named (`AfterDraws`); or a claim settled at the overground or tunnel price (`Settled`) |
| Games.MovedFrame | src/ch/epfl/tchu/game/Game.java:125-216 | each of the three moves keeps the turn frame: the current and last players are kept, the other player is untouched, and the mover has no more cars than before |
| Games.DrewFrame | src/ch/epfl/tchu/game/Game.java:149-163 | drawing cards keeps the turn frame: only the current player's hand grows, and its cars are kept |
| Games.LongestPlayer | src/ch/epfl/tchu/game/Game.java:69-78 | the player with the strictly longer longest trail, or nobody on a tie |
| Games.BonusForLongest | src/ch/epfl/tchu/game/Game.java:69-91 | a player gets the bonus exactly when their longest trail is at least as long as the other's, and someone always gets it |
| Games.Decide | src/ch/epfl/tchu/game/Game.java:95-103 | the player with more points wins and a tie is a draw |
| Games.Score | src/ch/epfl/tchu/game/Game.java:66-103 | the outcome is scored from the final state: the final points, the bonus and the verdict |
| Games.SetUp | src/ch/epfl/tchu/game/Game.java:41-54 | the set-up succeeds exactly when there are ten tickets to deal. `start` is a state `GameState.initial` can return for the tickets, and the result is dealt from it (`Dealt`): the ten top tickets left the deck, the second player kept some of tickets 6 to 10, the first player (when a distinct object) some of tickets 1 to 5, and nothing else changed; nobody has begun the last turns |
| Games.KeptDealt | src/ch/epfl/tchu/game/Game.java:44-53 | keeping some of the offered tickets completes the dealing of ten tickets |
| Games.Start | src/ch/epfl/tchu/game/GameState.java:42-52 | the initial state holds all tickets in its deck and the 110 cards in play; no player holds a ticket and nobody has begun the last turns |
| Games.DealInitialTickets | src/ch/epfl/tchu/game/Game.java:44-47 | fails exactly when fewer than ten tickets are left. Otherwise the ten top tickets leave the deck; the second player is offered tickets 6 to 10 and the first player, when a distinct object, tickets 1 to 5 |
| Games.KeepInitialTickets | src/ch/epfl/tchu/game/Game.java:50-53 | each player keeps a sub-bag of the tickets dealt to it and nothing else changes |
| Games.Advance | src/ch/epfl/tchu/game/Game.java:58-64 | the new state is the next-turn step applied to the state after a move of the current player, so the other player moves next. The counter goes up by one exactly when the new state has a last player, and is zero otherwise. The history of the game grows by that state and that turn |
| Games.HistoryStep | src/ch/epfl/tchu/game/Game.java:58-64 | one more round keeps the loop's history. The turn alternates, no last player is set before the last turns begin, and afterwards the last player is the one who began them |
| Games.TurnsAppend | src/ch/epfl/tchu/game/Game.java:58-64 | a turn from the last state of a game extends the game by that turn |
| Games.TurnsOne | src/ch/epfl/tchu/game/Game.java:60-63 | one round is a game of two states and one turn |
| Games.AlternateAppend | src/ch/epfl/tchu/game/Game.java:63 | a state where the other player moves extends the alternation of a game |
| Games.LastPlayersAppend | src/ch/epfl/tchu/game/Game.java:61-63 | after one more round, the last player follows the rule of `forNextTurn`: unset until the last turns begin, then the player who began them |
| Games.HistoryFacts | src/ch/epfl/tchu/game/Game.java:58-64 | when the loop stops with the counter at three, the last turns began three rounds before the end |
| Games.PhaseEnding | src/ch/epfl/tchu/game/Game.java:58-64 | when the counter reaches three, the player who began the last turns has at most two cars and the other player is to move |
| Games.PhaseStep | src/ch/epfl/tchu/game/Game.java:60-63 | one round moves the counter as the loop does and hands the turn to the other player |
| Games.Midgame | src/ch/epfl/tchu/game/Game.java:58-64 | the loop runs while the counter is at most two. Every state it reaches follows the one before by a move as `Moved` states it (tickets, two draws from the named slots, or a claim at its price) and the next-turn step, and the turn alternates. It stops with the counter at three, or when the fuel runs out |
| Games.Rounds | src/ch/epfl/tchu/game/Game.java:58-103 | the ghost trace holds the state before each round and the final state. Each state follows the one before by a move of the current player as `Moved` states it, then the next-turn step, and the turn alternates. No state up to number `lastPhase` has a last player. Every later state names the player who moved in round `lastPhase + 1`. An ended game has played exactly `lastPhase + 3` rounds, and it is scored in its final state |
| Games.Play | src/ch/epfl/tchu/game/Game.java:29-105 | fails on a wrong number of players or names, or too few tickets. Otherwise its first state is dealt (`Dealt`) from a state `GameState.initial` can return, the first player keeping some of the five top tickets when the players are distinct objects. An ended game is scored in its final state. Its trace is pinned as in `Rounds`: each state follows the one before by a move as `Moved` states it and the next-turn step, the last turns begin in round `lastPhase + 1`, and the game ends after round `lastPhase + 3` |
| Trails.Ends | src/ch/epfl/tchu/game/Trail.java:82-94 | the empty trail has no stations, and a trail's stations are its start and the end of its walk |
| Trails.Longest | src/ch/epfl/tchu/game/Trail.java:31-68 | the result is the empty trail exactly when there is no route; otherwise a trail on the routes that no trail on the routes outgrows |
| Trails.LongestIsTrail | src/ch/epfl/tchu/game/Trail.java:31-68 | the longest trail of a non-empty route list is a trail on those routes |
| Trails.LongestIsLongest | src/ch/epfl/tchu/game/Trail.java:31-68 | no trail on the routes is longer than the longest trail |
| Trails.LongestIsLongestAll | src/ch/epfl/tchu/game/Trail.java:31-68 | the same, for all trails at once |
| Trails.LayerComplete | src/ch/epfl/tchu/game/Trail.java:35-65 | every trail of `k` routes is built in round `k` |
| Trails.BestIsFirstLongest | src/ch/epfl/tchu/game/Trail.java:34-60 | the running maximum keeps the first trail of greatest length |
| Trails.ExtendAll | src/ch/epfl/tchu/game/Trail.java:44-65 | one round extends every trail by every unused route that fits, tracking the longest |
| Trails.StationsOf | src/ch/epfl/tchu/game/Trail.java:97-109 | the stations met along the trail, from its start to its end |
| Trails.NamesOf | src/ch/epfl/tchu/game/Trail.java:97-109 | the names of those stations, one each |
| Trails.ToString | src/ch/epfl/tchu/game/Trail.java:97-109 | the text of the trail: the station names joined by " - ", then the length in brackets |
| Trails.OneRouteText | src/ch/epfl/tchu/game/Trail.java:97-109 | a one-route trail reads "A - B (length)" |
| Serde.Of | src/ch/epfl/tchu/net/Serde.java:40-52 | a value round-trips exactly when the deserializer reads back what the serializer writes |
| Serde.OneOf | src/ch/epfl/tchu/net/Serde.java:60-63 | a non-empty list is required. Every listed value round-trips through its index, and every successful read gives a listed value |
| Serde.OneOfOutside | src/ch/epfl/tchu/net/Serde.java:60-63 | an unlisted value is written as "-1", which reads back as nothing |
| Serde.ListOf | src/ch/epfl/tchu/net/Serde.java:72-92 | the empty list is the empty text; otherwise the elements joined by the delimiter, read back field by field |
| Serde.ListOfRoundTrip | src/ch/epfl/tchu/net/Serde.java:72-92 | a list whose elements round-trip and avoid the delimiter round-trips, unless it is one element written as "" |
| Serde.BagOf | src/ch/epfl/tchu/net/Serde.java:101-113 | a bag is written as its sorted list |
| Serde.BagOfRoundTrip | src/ch/epfl/tchu/net/Serde.java:101-113 | a bag of values that round-trip round-trips, unless it is one element written as "" |
| Serdes.SerIntRoundTrip | src/ch/epfl/tchu/net/Serdes.java:22 | every integer round-trips |
| Serdes.SerStringRoundTrip | src/ch/epfl/tchu/net/Serdes.java:27-28 | every string round-trips, and its encoding never holds a separator |
| Serdes.SerPlayerId | src/ch/epfl/tchu/net/Serdes.java:33 | every player identity round-trips |
| Serdes.SerTurnKind | src/ch/epfl/tchu/net/Serdes.java:38 | every turn kind round-trips |
| Serdes.SerCard | src/ch/epfl/tchu/net/Serdes.java:43 | every card round-trips |
| Serdes.SerRoute | src/ch/epfl/tchu/net/Serdes.java:48 | the map has at least one route, and every route of the map round-trips |
| Serdes.SerTicket | src/ch/epfl/tchu/net/Serdes.java:53 | the map has at least one ticket, and every ticket of the map round-trips |
| Serdes.SerListStringRoundTrip | src/ch/epfl/tchu/net/Serdes.java:58 | a list of strings round-trips exactly when it is not the list of one empty string |
| Serdes.SerListCardRoundTrip | src/ch/epfl/tchu/net/Serdes.java:63 | every list of cards round-trips |
| Serdes.SerListRouteRoundTrip | src/ch/epfl/tchu/net/Serdes.java:68 | every list of the map's routes round-trips |
| Serdes.SerBagCardRoundTrip | src/ch/epfl/tchu/net/Serdes.java:73 | every bag of cards round-trips |
| Serdes.SerBagTicketRoundTrip | src/ch/epfl/tchu/net/Serdes.java:78 | every bag of the map's tickets round-trips |
| Serdes.SerListBagCardRoundTrip | src/ch/epfl/tchu/net/Serdes.java:83 | a list of card bags round-trips exactly when it is not the list of one empty bag |
| Serdes.SerPublicCardStateRoundTrip | src/ch/epfl/tchu/net/Serdes.java:88-100 | a public card state round-trips exactly when it is valid |
| Serdes.ReadPublicCardState | src/ch/epfl/tchu/net/Serdes.java:94-100 | whatever is read back is a valid public card state |
| Serdes.SerPublicPlayerStateRoundTrip | src/ch/epfl/tchu/net/Serdes.java:105-117 | a public player state round-trips exactly when it is writable: valid, with the map's routes |
| Serdes.ReadPublicPlayerState | src/ch/epfl/tchu/net/Serdes.java:111-117 | whatever is read back is valid and holds routes of the map |
| Serdes.SerPlayerStateRoundTrip | src/ch/epfl/tchu/net/Serdes.java:123-135 | a player state round-trips exactly when it is writable: the map's tickets and routes |
| Serdes.ReadPlayerState | src/ch/epfl/tchu/net/Serdes.java:129-135 | whatever is read back holds tickets and routes of the map |
| Serdes.SerPublicGameStateRoundTrip | src/ch/epfl/tchu/net/Serdes.java:140-160 | a public game state round-trips exactly when it is writable: valid, with both players' states writable |
| Serdes.ReadPublicGameState | src/ch/epfl/tchu/net/Serdes.java:149-159 | whatever is read back is a writable public game state |
| Serdes.LastReadsBack | src/ch/epfl/tchu/net/Serdes.java:147-156 | the last player, or its absence written as "", reads back |

## Left out

- The messages sent with `receiveInfo` (the `Info` texts) and `Game.allReceiveInfo`: they only inform the players.
- The graphical interface, the network transport (`RemotePlayerProxy`, `RemotePlayerClient`, `MessageId`) and threads.
- Randomness: `Deck.of`'s shuffle and the choice of the first player are parameters of the pure transitions, and nondeterministic choices in the game driver.
- `Constants.java` is not part of this model. Its values come from the game's rules: 40 cars, 4 initial cards, 5 face-up cards, 3 tunnel cards, 5 initial and 3 in-game tickets, claim points 1, 2, 4, 7, 10 and 15, and a 10-point bonus. The deck has 12 cards of each colour and 14 locomotives.
- `ChMap` is not part of this model: the map's routes and tickets are parameters of the codecs that need them.
- Base64 and UTF-8 are not modelled. `Serdes.SerStringRoundTrip` assumes an abstract string codec that is a bijection onto a separator-free alphabet (`Base64Utf8`).
- Text.Compare: compares Unicode scalar values, where Java's `String.compareTo` compares UTF-16 code units. The two orders differ only on characters outside the Basic Multilingual Plane. `Tickets.CompareTo` and the sorted ticket text inherit this.
- Text.ParseInt: only the ASCII digits '0' to '9' are read. Java's `Integer.parseInt` also accepts the other Unicode decimal digits (through `Character.digit`), which the model reads as `None`. Every text `Integer.toString` writes is ASCII, so the round trips are unaffected.
- Text.IntRoundTrip: does not model `Integer.parseInt`'s 32-bit range or its exception on overflow, because integers here are unbounded.
- Games.Play: the source's game loop has no bound. The model takes a `fuel` number of turns and reports `Unfinished` when it runs out.
- Games.Rounds: bounded by the same fuel.
- Games.Midgame: the loop of `play` stops after `fuel` rounds as well.
- PlayerStates.PossibleAdditionalCards: the relative order of options with the same number of locomotives is not stated; Java's stable sort keeps the order of `subsetsOfSize`, which the library does not document.
- Players.Player.InitialClaimCards: the interface promises nothing about the cards a player first lays down, so the method has no contract.
- `Station`'s accessors and `toString`, `Trip`'s and `Route`'s accessors and `Ticket.toString`: plain field reads, modelled as datatype fields.
- Reference equality is modelled as value equality: of `Route` and `Station` objects, and of the station names `Ticket`'s constructor compares with `==` (Ticket.java:28). The map's objects are unique and its names are literals, so the two agree.
- Serdes.SerPublicGameStateRoundTrip: when a player is missing from the map, the writer uses a default entry where Java would throw a `NullPointerException`; such states are not writable and are excluded from the round trip.
