/** The project's serdes (src/ch/epfl/tchu/net/Serdes.java): integers as decimal text, strings as
    Base64 of their UTF-8 bytes, the game's enumerations and map elements as indices, lists and
    bags joined by "," (a list of card bags by ";"), and the public states whose fields are
    joined by ";" or, for the game state, ":". */
module Serdes {
  import opened Wrappers
  import opened PlayerIds
  import opened Cards
  import Text
  import Constants
  import Bags
  import Serde
  import Routes
  import Tickets
  import Players
  import PublicCardStates
  import PublicPlayerStates
  import PlayerStates
  import PublicGameStates

  // ----- the characters a text may hold -----

  /** Every character of `s` passes `ok`. */
  predicate Within(s: string, ok: char -> bool)
  {
    forall k | 0 <= k < |s| :: ok(s[k])
  }

  /** The characters of a number. */
  predicate Numeric(c: char)
  {
    Text.IsDigit(c) || c == '-'
  }

  /** The characters of numbers and of lists of numbers. */
  predicate Plain(c: char)
  {
    Numeric(c) || c == ','
  }

  /** The characters of the ";"-joined states. */
  predicate Grouped(c: char)
  {
    Plain(c) || c == ';'
  }

  /** Joining texts within `ok` by a delimiter within `ok` stays within `ok`. */
  lemma {:induction false} JoinWithin(parts: seq<string>, d: char, ok: char -> bool)
    requires ok(d) && forall i | 0 <= i < |parts| :: Within(parts[i], ok)
    ensures Within(Text.Join(parts, [d]), ok)
  {
    if |parts| > 1 {
      JoinWithin(parts[1..], d, ok);
      var rest := Text.Join(parts[1..], [d]);
      assert Text.Join(parts, [d]) == parts[0] + [d] + rest;
    }
  }

  /** A text within `ok` holds no character outside it. */
  lemma Avoids(s: string, ok: char -> bool, c: char)
    requires Within(s, ok) && !ok(c)
    ensures c !in s
  {
    forall k | 0 <= k < |s| ensures s[k] != c {
      assert ok(s[k]);
    }
  }

  /** A text of numbers and commas holds no ";" and no ":". */
  lemma PlainAvoids(s: string)
    requires Within(s, Plain)
    ensures ';' !in s && ':' !in s
  {
    Avoids(s, Plain, ';');
    Avoids(s, Plain, ':');
  }

  // ----- integers and strings -----

  /** `serInt`: `Integer.toString` and `Integer.parseInt`. */
  function SerInt(): Serde.Serde<int>
  {
    Serde.Of(Text.IntToString, Text.ParseInt)
  }

  /** Every integer round-trips, -1 included, and is written with digits and a sign only. */
  lemma SerIntRoundTrip(i: int)
    ensures Serde.RoundTrips(SerInt(), i)
    ensures SerInt().serialize(i) != "" && Within(SerInt().serialize(i), Plain)
  {
    Text.IntRoundTrip(i);
  }

  /** The Base64 alphabet of section 4 of RFC 4648, with the padding character. */
  predicate InBase64Alphabet(c: char)
  {
    'A' <= c <= 'Z' || 'a' <= c <= 'z' || '0' <= c <= '9' || c == '+' || c == '/' || c == '='
  }

  /** A text encoding: Base64 of the UTF-8 bytes, and its decoding. */
  datatype StringCodec = StringCodec(encode: string -> string, decode: string -> Option<string>)

  /** What the model relies on from Base64 over UTF-8: decoding undoes encoding, the encoding uses
      the Base64 alphabet only, and no bytes encode as "". */
  ghost predicate Base64Utf8(codec: StringCodec)
  {
    (forall x :: codec.decode(codec.encode(x)) == Some(x)) &&
    (forall x :: Within(codec.encode(x), InBase64Alphabet)) &&
    codec.encode("") == ""
  }

  /** `serString`. */
  function SerString(codec: StringCodec): Serde.Serde<string>
  {
    Serde.Of(codec.encode, codec.decode)
  }

  /** Every string round-trips, its text holds none of the delimiters, and "" is written as "". */
  lemma SerStringRoundTrip(codec: StringCodec, x: string)
    requires Base64Utf8(codec)
    ensures Serde.RoundTrips(SerString(codec), x)
    ensures ',' !in SerString(codec).serialize(x) && ';' !in SerString(codec).serialize(x)
    ensures ':' !in SerString(codec).serialize(x)
    ensures x == "" ==> SerString(codec).serialize(x) == ""
  {
    Avoids(codec.encode(x), InBase64Alphabet, ',');
    Avoids(codec.encode(x), InBase64Alphabet, ';');
    Avoids(codec.encode(x), InBase64Alphabet, ':');
  }

  // ----- indices -----

  /** `serPlayerId`. */
  function SerPlayerId(): (s: Serde.Serde<PlayerId>)
    ensures forall p: PlayerId :: Serde.RoundTrips(s, p)
  {
    AllPlayers();
    Serde.OneOf(PlayerIds.ALL)
  }

  /** `serTurnKind`. */
  function SerTurnKind(): (s: Serde.Serde<Players.TurnKind>)
    ensures forall k: Players.TurnKind :: Serde.RoundTrips(s, k)
  {
    AllKinds();
    Serde.OneOf(Players.TURN_KINDS)
  }

  /** Every kind of turn is listed in `TURN_KINDS`. */
  lemma AllKinds()
    ensures forall k: Players.TurnKind :: k in Players.TURN_KINDS
  {
    forall k: Players.TurnKind ensures k in Players.TURN_KINDS {
      assert Players.TURN_KINDS[Players.KindIndex(k)] == k;
    }
  }

  /** `serCard`. */
  function SerCard(): (s: Serde.Serde<Card>)
    ensures forall c: Card :: Serde.RoundTrips(s, c)
  {
    CardFacts();
    Serde.OneOf(Cards.ALL)
  }

  /** `serRoute`, over the routes of the map. */
  function SerRoute(routes: seq<Routes.Route>): (s: Serde.Serde<Routes.Route>)
    requires |routes| > 0
    ensures forall r | r in routes :: Serde.RoundTrips(s, r)
  {
    Serde.OneOf(routes)
  }

  /** `serTicket`, over the tickets of the map. */
  function SerTicket(tickets: seq<Tickets.Ticket>): (s: Serde.Serde<Tickets.Ticket>)
    requires |tickets| > 0
    ensures forall t | t in tickets :: Serde.RoundTrips(s, t)
  {
    Serde.OneOf(tickets)
  }

  // ----- lists and bags -----

  /** `serListString`. */
  function SerListString(codec: StringCodec): Serde.Serde<seq<string>>
  {
    Serde.ListOf(SerString(codec), ',')
  }

  /** Every list of strings round-trips except the list holding only "", which is written as ""
      and read back as the empty list. */
  lemma SerListStringRoundTrip(codec: StringCodec, l: seq<string>)
    requires Base64Utf8(codec)
    ensures Serde.RoundTrips(SerListString(codec), l) <==> l != [""]
  {
    forall i | 0 <= i < |l| ensures Serde.RoundTrips(SerString(codec), l[i]) && ',' !in SerString(codec).serialize(l[i]) {
      SerStringRoundTrip(codec, l[i]);
    }
    if |l| == 1 {
      SerStringRoundTrip(codec, l[0]);
      assert l == [""] <==> l[0] == "";
      if l[0] != "" {
        assert codec.decode(codec.encode(l[0])) == Some(l[0]);
        assert codec.encode(l[0]) != "";
      }
    }
    Serde.ListOfRoundTrip(SerString(codec), ',', l);
  }

  /** Each text `oneOf` writes is a non-empty number. */
  lemma IndexTexts<T>(vs: seq<T>, l: seq<T>)
    requires |vs| > 0
    ensures forall i | 0 <= i < |l| ::
              Serde.OneOf(vs).serialize(l[i]) != "" && Within(Serde.OneOf(vs).serialize(l[i]), Numeric)
  {
    forall i | 0 <= i < |l|
      ensures Serde.OneOf(vs).serialize(l[i]) != "" && Within(Serde.OneOf(vs).serialize(l[i]), Numeric)
    {
      Serde.OneOfText(vs, l[i]);
    }
  }

  /** An index list is read back. */
  lemma IndexListRoundTrip<T(!new)>(vs: seq<T>, d: char, l: seq<T>)
    requires |vs| > 0
    requires forall i | 0 <= i < |l| :: l[i] in vs
    requires d == ',' || d == ';' || d == ':'
    ensures Serde.RoundTrips(Serde.ListOf(Serde.OneOf(vs), d), l)
  {
    var s := Serde.OneOf(vs);
    IndexTexts(vs, l);
    assert Serde.Encodable(s, d, l) by {
      forall i | 0 <= i < |l| ensures d !in s.serialize(l[i]) {
        Avoids(s.serialize(l[i]), Numeric, d);
      }
    }
    Serde.ListOfRoundTrip(s, d, l);
  }

  /** An index list joined by "," is written with digits, signs and commas only. */
  lemma IndexListText<T>(vs: seq<T>, l: seq<T>)
    requires |vs| > 0
    ensures Within(Serde.SerializeList(Serde.OneOf(vs), ',', l), Plain)
  {
    if l != [] {
      IndexTexts(vs, l);
      var texts := Serde.SerializeAll(Serde.OneOf(vs), l);
      forall i | 0 <= i < |texts| ensures Within(texts[i], Plain) {
        assert Within(texts[i], Numeric);
      }
      JoinWithin(texts, ',', Plain);
    }
  }

  /** `serListCard`. */
  function SerListCard(): Serde.Serde<seq<Card>>
  {
    Serde.ListOf(SerCard(), ',')
  }

  /** `serListRoute`. */
  function SerListRoute(routes: seq<Routes.Route>): Serde.Serde<seq<Routes.Route>>
    requires |routes| > 0
  {
    Serde.ListOf(SerRoute(routes), ',')
  }

  /** `serBagCard`: the cards listed in enum order. */
  function SerBagCard(): Serde.Serde<multiset<Card>>
  {
    Serde.BagOf(SerCard(), ',', Cards.ALL)
  }

  /** The tickets of the map, of which there is at least one, in the order of `compareTo`, the
      order of a ticket bag's list. */
  predicate ByText(tickets: seq<Tickets.Ticket>, byText: seq<Tickets.Ticket>)
  {
    |tickets| > 0 &&
    (forall t | t in tickets :: t in byText) &&
    (forall t | t in byText :: Tickets.Valid(t)) &&
    (forall i, j | 0 <= i < j < |byText| :: Tickets.CompareTo(byText[i], byText[j]) < 0)
  }

  /** `serBagTicket`: the tickets listed in text order. */
  function SerBagTicket(tickets: seq<Tickets.Ticket>, byText: seq<Tickets.Ticket>): Serde.Serde<multiset<Tickets.Ticket>>
    requires ByText(tickets, byText)
  {
    Serde.BagOf(SerTicket(tickets), ',', byText)
  }

  /** An index bag is written with digits, signs and commas only, and is read back; the empty bag
      included, since no element is written as "". */
  lemma IndexBagRoundTrip<T(!new)>(vs: seq<T>, order: seq<T>, b: multiset<T>)
    requires |vs| > 0
    requires forall x | x in b :: x in vs && x in order
    ensures Serde.RoundTrips(Serde.BagOf(Serde.OneOf(vs), ',', order), b)
    ensures Within(Serde.BagOf(Serde.OneOf(vs), ',', order).serialize(b), Plain)
  {
    var s := Serde.OneOf(vs);
    forall x | x in b ensures x in order && Serde.RoundTrips(s, x) && ',' !in s.serialize(x) {
      Serde.OneOfText(vs, x);
      Avoids(s.serialize(x), Numeric, ',');
    }
    if |b| == 1 {
      var x :| x in b;
      Serde.OneOfText(vs, x);
    }
    Serde.BagOfRoundTrip(s, ',', order, b);
    var l := Bags.ToList(b, order);
    Bags.ToListContents(b, order);
    forall i | 0 <= i < |l| ensures l[i] in vs {
      assert l[i] in multiset(l);
    }
    IndexListRoundTrip(vs, ',', l);
    IndexListText(vs, l);
  }

  /** `serListBagCard`: card bags joined by ";". */
  function SerListBagCard(): Serde.Serde<seq<multiset<Card>>>
  {
    Serde.ListOf(SerBagCard(), ';')
  }

  /** Every card bag round-trips, the empty one included, and its text holds digits, signs and
      commas only. */
  lemma SerBagCardRoundTrip(b: multiset<Card>)
    ensures Serde.RoundTrips(SerBagCard(), b)
    ensures Within(SerBagCard().serialize(b), Plain) && ';' !in SerBagCard().serialize(b)
  {
    assert SerBagCard() == Serde.BagOf(Serde.OneOf(Cards.ALL), ',', Cards.ALL);
    assert forall x | x in b :: x in Cards.ALL by {
      CardFacts();
    }
    IndexBagRoundTrip(Cards.ALL, Cards.ALL, b);
    PlainAvoids(SerBagCard().serialize(b));
  }

  /** An index bag is written as "" only when it is empty. */
  lemma IndexBagEmpty<T>(vs: seq<T>, order: seq<T>, b: multiset<T>)
    requires |vs| > 0
    requires forall x | x in b :: x in order
    ensures Serde.SerializeBag(Serde.OneOf(vs), ',', order, b) == "" <==> b == multiset{}
  {
    var l := Bags.ToList(b, order);
    Bags.ToListContents(b, order);
    if b != multiset{} {
      assert l != [];
      IndexTexts(vs, l);
      var texts := Serde.SerializeAll(Serde.OneOf(vs), l);
      assert texts[0] != "";
      if |l| > 1 {
        Serde.JoinNotEmpty(texts, ',');
      }
    }
  }

  /** A card bag is written as "" only when it is empty. */
  lemma SerBagCardEmpty(b: multiset<Card>)
    ensures SerBagCard().serialize(b) == "" <==> b == multiset{}
  {
    assert forall x | x in b :: x in Cards.ALL by {
      CardFacts();
    }
    IndexBagEmpty(Cards.ALL, Cards.ALL, b);
  }

  /** Card bags read back and their texts hold no ";". */
  lemma BagCardsEncodable(l: seq<multiset<Card>>)
    ensures Serde.Encodable(SerBagCard(), ';', l)
  {
    forall i | 0 <= i < |l| ensures Serde.RoundTrips(SerBagCard(), l[i]) && ';' !in SerBagCard().serialize(l[i]) {
      SerBagCardRoundTrip(l[i]);
    }
  }

  /** Only the empty card bag is written as "". */
  lemma BagCardTexts()
    ensures forall b :: SerBagCard().serialize(b) == "" <==> b == multiset{}
  {
    forall b ensures SerBagCard().serialize(b) == "" <==> b == multiset{} {
      SerBagCardEmpty(b);
    }
  }

  /** Every list of card bags round-trips except the list holding only the empty bag, which is
      written as "" and read back as the empty list. */
  lemma SerListBagCardRoundTrip(l: seq<multiset<Card>>)
    ensures Serde.RoundTrips(SerListBagCard(), l) <==> l != [multiset{}]
  {
    BagCardsEncodable(l);
    BagCardTexts();
    Serde.ListOfRoundTripBut(SerBagCard(), ';', l, multiset{});
  }

  // ----- the parts of the states -----

  /** A text of numbers and commas is also a text of the ";"-joined states. */
  lemma PlainGrouped(s: string)
    requires Within(s, Plain)
    ensures Within(s, Grouped)
  {
  }

  /** A text of the ";"-joined states holds no ":". */
  lemma GroupedAvoids(s: string)
    requires Within(s, Grouped)
    ensures ':' !in s
  {
    Avoids(s, Grouped, ':');
  }

  /** An integer reads back and its text is plain. */
  lemma IntText(i: int)
    ensures Text.ParseInt(Text.IntToString(i)) == Some(i) && Within(Text.IntToString(i), Plain)
  {
    Text.IntRoundTrip(i);
  }

  /** Every list of cards reads back, and its text is plain. */
  lemma SerListCardRoundTrip(l: seq<Card>)
    ensures Serde.RoundTrips(SerListCard(), l)
    ensures Within(SerListCard().serialize(l), Plain)
  {
    assert forall i | 0 <= i < |l| :: l[i] in Cards.ALL by {
      CardFacts();
    }
    IndexListRoundTrip(Cards.ALL, ',', l);
    IndexListText(Cards.ALL, l);
  }

  /** A list of routes of the map reads back, and its text is plain. */
  lemma SerListRouteRoundTrip(routes: seq<Routes.Route>, l: seq<Routes.Route>)
    requires |routes| > 0
    requires forall i | 0 <= i < |l| :: l[i] in routes
    ensures Serde.RoundTrips(SerListRoute(routes), l)
    ensures Within(SerListRoute(routes).serialize(l), Plain)
  {
    IndexListRoundTrip(routes, ',', l);
    IndexListText(routes, l);
  }

  /** Every route read is a route of the map. */
  lemma SerListRouteFrom(routes: seq<Routes.Route>, c: string)
    requires |routes| > 0
    ensures SerListRoute(routes).deserialize(c).Some? ==>
              forall i | 0 <= i < |SerListRoute(routes).deserialize(c).value| ::
                SerListRoute(routes).deserialize(c).value[i] in routes
  {
    Serde.DeserializeListFrom(SerRoute(routes), ',', c, routes);
  }

  /** A bag of tickets of the map reads back, and its text is plain. */
  lemma SerBagTicketRoundTrip(tickets: seq<Tickets.Ticket>, byText: seq<Tickets.Ticket>, b: multiset<Tickets.Ticket>)
    requires ByText(tickets, byText) && forall t | t in b :: t in tickets
    ensures Serde.RoundTrips(SerBagTicket(tickets, byText), b)
    ensures Within(SerBagTicket(tickets, byText).serialize(b), Plain)
  {
    IndexBagRoundTrip(tickets, byText, b);
  }

  /** Every ticket read is a ticket of the map. */
  lemma SerBagTicketFrom(tickets: seq<Tickets.Ticket>, byText: seq<Tickets.Ticket>, c: string)
    requires ByText(tickets, byText)
    ensures SerBagTicket(tickets, byText).deserialize(c).Some? ==>
              forall t | t in SerBagTicket(tickets, byText).deserialize(c).value :: t in tickets
  {
    Serde.DeserializeBagFrom(SerTicket(tickets), ',', c, tickets);
  }

  /** Three fields that hold no `d` are read back from their join. */
  lemma SplitThree(a: string, b: string, c: string, d: char)
    requires d !in a && d !in b && d !in c
    ensures Text.Split(Text.Join([a, b, c], [d]), d) == [a, b, c]
  {
    Text.SplitJoin([a, b, c], d);
  }

  /** Three fields within `ok`, joined by a delimiter within `ok`, stay within `ok`. */
  lemma JoinThree(a: string, b: string, c: string, d: char, ok: char -> bool)
    requires ok(d) && Within(a, ok) && Within(b, ok) && Within(c, ok)
    ensures Within(Text.Join([a, b, c], [d]), ok)
  {
    JoinWithin([a, b, c], d, ok);
  }

  // ----- serPublicCardState -----

  /** The writer of `serPublicCardState`: face-up cards, deck size and discard size joined by ";". */
  function WritePublicCardState(s: PublicCardStates.PublicCardState): string
  {
    Text.Join([SerListCard().serialize(s.faceUpCards), Text.IntToString(s.deckSize),
               Text.IntToString(s.discardsSize)], [';'])
  }

  /** The reader of `serPublicCardState`: the text is split at every ";"; a missing field, a field
      that does not read or the constructor's refusal fails, and fields past the third are
      ignored. */
  function ReadPublicCardState(c: string): (r: Option<PublicCardStates.PublicCardState>)
    ensures r.Some? ==> PublicCardStates.Valid(r.value)
  {
    var a := Text.Split(c, ';');
    if |a| < 3 then None
    else match (SerListCard().deserialize(a[0]), Text.ParseInt(a[1]), Text.ParseInt(a[2]))
      case (Some(faceUp), Some(deck), Some(discards)) =>
        if |faceUp| == Constants.FACE_UP_CARDS_COUNT && deck >= 0 && discards >= 0
        then Some(PublicCardStates.New(faceUp, deck, discards))
        else None
      case _ => None
  }

  /** `serPublicCardState`. */
  function SerPublicCardState(): Serde.Serde<PublicCardStates.PublicCardState>
  {
    Serde.Of(WritePublicCardState, ReadPublicCardState)
  }

  /** A public card state round-trips exactly when the constructor would accept it. */
  lemma SerPublicCardStateRoundTrip(s: PublicCardStates.PublicCardState)
    ensures Serde.RoundTrips(SerPublicCardState(), s) <==> PublicCardStates.Valid(s)
  {
    if PublicCardStates.Valid(s) {
      CardStateReadsBack(s);
    }
  }

  /** A valid public card state is read back from its text. */
  lemma CardStateReadsBack(s: PublicCardStates.PublicCardState)
    requires PublicCardStates.Valid(s)
    ensures ReadPublicCardState(WritePublicCardState(s)) == Some(s)
  {
    var f := SerListCard().serialize(s.faceUpCards);
    SerListCardRoundTrip(s.faceUpCards);
    IntText(s.deckSize);
    IntText(s.discardsSize);
    PlainAvoids(f);
    PlainAvoids(Text.IntToString(s.deckSize));
    PlainAvoids(Text.IntToString(s.discardsSize));
    SplitThree(f, Text.IntToString(s.deckSize), Text.IntToString(s.discardsSize), ';');
  }

  /** Its text holds no ":". */
  lemma SerPublicCardStateText(s: PublicCardStates.PublicCardState)
    ensures Within(WritePublicCardState(s), Grouped) && ':' !in WritePublicCardState(s)
  {
    var f := SerListCard().serialize(s.faceUpCards);
    SerListCardRoundTrip(s.faceUpCards);
    IntText(s.deckSize);
    IntText(s.discardsSize);
    PlainGrouped(f);
    PlainGrouped(Text.IntToString(s.deckSize));
    PlainGrouped(Text.IntToString(s.discardsSize));
    JoinThree(f, Text.IntToString(s.deckSize), Text.IntToString(s.discardsSize), ';', Grouped);
    GroupedAvoids(WritePublicCardState(s));
  }

  // ----- serPublicPlayerState -----

  /** The routes of the map: at least one, since `oneOf` refuses an empty list, and each valid. */
  predicate MapRoutes(routes: seq<Routes.Route>)
  {
    |routes| > 0 && Routes.AllValid(routes)
  }

  /** The routes of `l` are routes of the map. */
  predicate OnMap(routes: seq<Routes.Route>, l: seq<Routes.Route>)
  {
    forall i | 0 <= i < |l| :: l[i] in routes
  }

  /** The writer of `serPublicPlayerState`: ticket count, card count and routes joined by ";". */
  function WritePublicPlayerState(routes: seq<Routes.Route>, s: PublicPlayerStates.PublicPlayerState): string
    requires |routes| > 0
  {
    Text.Join([Text.IntToString(s.ticketCount), Text.IntToString(s.cardCount),
               SerListRoute(routes).serialize(s.routes)], [';'])
  }

  /** The reader of `serPublicPlayerState`, as for the card state; the constructor refuses a
      negative count. */
  function ReadPublicPlayerState(routes: seq<Routes.Route>, c: string): (r: Option<PublicPlayerStates.PublicPlayerState>)
    requires MapRoutes(routes)
    ensures r.Some? ==> PublicPlayerStates.Valid(r.value) && OnMap(routes, r.value.routes)
  {
    var a := Text.Split(c, ';');
    if |a| < 3 then None
    else match (Text.ParseInt(a[0]), Text.ParseInt(a[1]), SerListRoute(routes).deserialize(a[2]))
      case (Some(ticketCount), Some(cardCount), Some(rs)) =>
        if ticketCount >= 0 && cardCount >= 0
        then
          SerListRouteFrom(routes, a[2]);
          Some(PublicPlayerStates.New(ticketCount, cardCount, rs))
        else None
      case _ => None
  }

  /** `serPublicPlayerState`, over the routes of the map. */
  function SerPublicPlayerState(routes: seq<Routes.Route>): Serde.Serde<PublicPlayerStates.PublicPlayerState>
    requires MapRoutes(routes)
  {
    Serde.Of(s => WritePublicPlayerState(routes, s), c => ReadPublicPlayerState(routes, c))
  }

  /** What `serPublicPlayerState` can carry: counts the constructor accepts and routes of the map. */
  predicate PublicPlayerWritable(routes: seq<Routes.Route>, s: PublicPlayerStates.PublicPlayerState)
  {
    s.ticketCount >= 0 && s.cardCount >= 0 && OnMap(routes, s.routes)
  }

  /** A public player state round-trips exactly when its counts are not negative and its routes
      are routes of the map. */
  lemma SerPublicPlayerStateRoundTrip(routes: seq<Routes.Route>, s: PublicPlayerStates.PublicPlayerState)
    requires MapRoutes(routes)
    ensures Serde.RoundTrips(SerPublicPlayerState(routes), s) <==> PublicPlayerWritable(routes, s)
  {
    if PublicPlayerWritable(routes, s) {
      PublicPlayerReadsBack(routes, s);
    }
  }

  /** A public player state with accepted counts and routes of the map is read back. */
  lemma PublicPlayerReadsBack(routes: seq<Routes.Route>, s: PublicPlayerStates.PublicPlayerState)
    requires MapRoutes(routes) && PublicPlayerWritable(routes, s)
    ensures ReadPublicPlayerState(routes, WritePublicPlayerState(routes, s)) == Some(s)
  {
    var l := SerListRoute(routes).serialize(s.routes);
    SerListRouteRoundTrip(routes, s.routes);
    IntText(s.ticketCount);
    IntText(s.cardCount);
    PlainAvoids(l);
    PlainAvoids(Text.IntToString(s.ticketCount));
    PlainAvoids(Text.IntToString(s.cardCount));
    SplitThree(Text.IntToString(s.ticketCount), Text.IntToString(s.cardCount), l, ';');
  }

  /** Its text holds no ":". */
  lemma SerPublicPlayerStateText(routes: seq<Routes.Route>, s: PublicPlayerStates.PublicPlayerState)
    requires |routes| > 0 && OnMap(routes, s.routes)
    ensures Within(WritePublicPlayerState(routes, s), Grouped) && ':' !in WritePublicPlayerState(routes, s)
  {
    var l := SerListRoute(routes).serialize(s.routes);
    SerListRouteRoundTrip(routes, s.routes);
    IntText(s.ticketCount);
    IntText(s.cardCount);
    PlainGrouped(l);
    PlainGrouped(Text.IntToString(s.ticketCount));
    PlainGrouped(Text.IntToString(s.cardCount));
    JoinThree(Text.IntToString(s.ticketCount), Text.IntToString(s.cardCount), l, ';', Grouped);
    GroupedAvoids(WritePublicPlayerState(routes, s));
  }

  // ----- serPlayerState -----

  /** The writer of `serPlayerState`: tickets, cards and routes joined by ";". */
  function WritePlayerState(tickets: seq<Tickets.Ticket>, byText: seq<Tickets.Ticket>, routes: seq<Routes.Route>,
                            s: PlayerStates.PlayerState): string
    requires ByText(tickets, byText) && |routes| > 0
  {
    Text.Join([SerBagTicket(tickets, byText).serialize(s.tickets), SerBagCard().serialize(s.cards),
               SerListRoute(routes).serialize(s.routes)], [';'])
  }

  /** The reader of `serPlayerState`; the constructor checks nothing. */
  function ReadPlayerState(tickets: seq<Tickets.Ticket>, byText: seq<Tickets.Ticket>, routes: seq<Routes.Route>,
                           c: string): (r: Option<PlayerStates.PlayerState>)
    requires ByText(tickets, byText) && |routes| > 0
    ensures r.Some? ==> OnMap(routes, r.value.routes) && forall t | t in r.value.tickets :: t in tickets
  {
    var a := Text.Split(c, ';');
    if |a| < 3 then None
    else match (SerBagTicket(tickets, byText).deserialize(a[0]), SerBagCard().deserialize(a[1]),
                SerListRoute(routes).deserialize(a[2]))
      case (Some(ts), Some(cs), Some(rs)) =>
        SerBagTicketFrom(tickets, byText, a[0]);
        SerListRouteFrom(routes, a[2]);
        Some(PlayerStates.PlayerState(ts, cs, rs))
      case _ => None
  }

  /** `serPlayerState`, over the tickets and routes of the map. */
  function SerPlayerState(tickets: seq<Tickets.Ticket>, byText: seq<Tickets.Ticket>, routes: seq<Routes.Route>):
    Serde.Serde<PlayerStates.PlayerState>
    requires ByText(tickets, byText) && |routes| > 0
  {
    Serde.Of(s => WritePlayerState(tickets, byText, routes, s), c => ReadPlayerState(tickets, byText, routes, c))
  }

  /** What `serPlayerState` can carry: tickets and routes of the map. */
  predicate PlayerWritable(tickets: seq<Tickets.Ticket>, routes: seq<Routes.Route>, s: PlayerStates.PlayerState)
  {
    (forall t | t in s.tickets :: t in tickets) && OnMap(routes, s.routes)
  }

  /** A player state of the map's tickets and routes is read back from its text. */
  lemma PlayerStateReadsBack(tickets: seq<Tickets.Ticket>, byText: seq<Tickets.Ticket>, routes: seq<Routes.Route>,
                             s: PlayerStates.PlayerState)
    requires ByText(tickets, byText) && |routes| > 0 && PlayerWritable(tickets, routes, s)
    ensures ReadPlayerState(tickets, byText, routes, WritePlayerState(tickets, byText, routes, s)) == Some(s)
  {
    var t := SerBagTicket(tickets, byText).serialize(s.tickets);
    var k := SerBagCard().serialize(s.cards);
    var l := SerListRoute(routes).serialize(s.routes);
    SerBagTicketRoundTrip(tickets, byText, s.tickets);
    SerBagCardRoundTrip(s.cards);
    SerListRouteRoundTrip(routes, s.routes);
    PlainAvoids(t);
    PlainAvoids(l);
    SplitThree(t, k, l, ';');
  }

  /** A player state round-trips exactly when its tickets and routes are those of the map; any
      cards do. */
  lemma SerPlayerStateRoundTrip(tickets: seq<Tickets.Ticket>, byText: seq<Tickets.Ticket>, routes: seq<Routes.Route>,
                                s: PlayerStates.PlayerState)
    requires ByText(tickets, byText) && |routes| > 0
    ensures Serde.RoundTrips(SerPlayerState(tickets, byText, routes), s) <==> PlayerWritable(tickets, routes, s)
  {
    if PlayerWritable(tickets, routes, s) {
      PlayerStateReadsBack(tickets, byText, routes, s);
    }
  }

  // ----- serPublicGameState -----

  /** A player's public state in a game state. The class holds one for each player; the model's
      map may lack one, and then an empty state stands in. */
  function StateOf(s: PublicGameStates.PublicGameState, p: PlayerId): PublicPlayerStates.PublicPlayerState
  {
    if p in s.playerState then s.playerState[p] else PublicPlayerStates.PublicPlayerState(0, 0, [])
  }

  /** Five fields and, when there is one, a sixth, each followed by ":": split at ":", the text
      gives them back with an empty last field. */
  function Fields(f0: string, f1: string, f2: string, f3: string, f4: string, last: Option<string>): (fields: seq<string>)
    ensures |fields| >= 6 && fields[0] == f0 && fields[1] == f1 && fields[2] == f2 && fields[3] == f3
    ensures fields[4] == f4 && fields[5] == match last case Some(f5) => f5 case None => ""
  {
    match last
    case Some(f5) => [f0, f1, f2, f3, f4, f5, ""]
    case None => [f0, f1, f2, f3, f4, ""]
  }

  /** The text of the last player, when there is one. */
  function LastText(last: Option<PlayerId>): Option<string>
  {
    match last
    case Some(p) => Some(SerPlayerId().serialize(p))
    case None => None
  }

  /** The fields of `serPublicGameState`: ticket count, card state, current player, the two
      players' states and, when there is one, the last player. */
  function GameFields(routes: seq<Routes.Route>, s: PublicGameStates.PublicGameState): seq<string>
    requires |routes| > 0
  {
    Fields(Text.IntToString(s.ticketsCount), WritePublicCardState(s.cardState),
           SerPlayerId().serialize(s.currentPlayerId),
           WritePublicPlayerState(routes, StateOf(s, Player1)),
           WritePublicPlayerState(routes, StateOf(s, Player2)),
           LastText(s.lastPlayer))
  }

  /** The writer of `serPublicGameState`: every field followed by ":". */
  function WritePublicGameState(routes: seq<Routes.Route>, s: PublicGameStates.PublicGameState): string
    requires |routes| > 0
  {
    Text.Join(GameFields(routes, s), [':'])
  }

  /** The sixth field: "" when there is no last player, otherwise a player. */
  function ReadLastPlayer(c: string): Option<Option<PlayerId>>
  {
    if c == "" then Some(None)
    else match SerPlayerId().deserialize(c)
      case Some(p) => Some(Some(p))
      case None => None
  }

  /** A map with an entry for each of the two players has two entries. */
  lemma PairMap<V>(a: V, b: V)
    ensures |map[Player1 := a, Player2 := b]| == PlayerIds.COUNT
  {
    assert map[Player1 := a, Player2 := b].Keys == {Player1, Player2};
  }

  /** What `serPublicGameState` can carry: states the constructors accept, with routes of the
      map. */
  predicate GameWritable(routes: seq<Routes.Route>, s: PublicGameStates.PublicGameState)
  {
    PublicGameStates.Valid(s) && PublicCardStates.Valid(s.cardState) &&
    forall p | p in s.playerState :: PublicPlayerWritable(routes, s.playerState[p])
  }

  /** The two players' states, read from the fourth and fifth fields. */
  function ReadBothPlayers(routes: seq<Routes.Route>, c1: string, c2: string):
    (r: Option<map<PlayerId, PublicPlayerStates.PublicPlayerState>>)
    requires MapRoutes(routes)
    ensures r.Some? ==> |r.value| == PlayerIds.COUNT
    ensures r.Some? ==> forall p | p in r.value :: PublicPlayerWritable(routes, r.value[p])
  {
    match (ReadPublicPlayerState(routes, c1), ReadPublicPlayerState(routes, c2))
    case (Some(state1), Some(state2)) =>
      PairMap(state1, state2);
      Some(map[Player1 := state1, Player2 := state2])
    case _ => None
  }

  /** The reader of `serPublicGameState` after the split: fewer than six fields, a field that
      does not read or the constructor's refusal fails, and fields past the sixth are ignored. */
  function ReadGameFields(routes: seq<Routes.Route>, a: seq<string>): (r: Option<PublicGameStates.PublicGameState>)
    requires MapRoutes(routes)
    ensures r.Some? ==> GameWritable(routes, r.value)
  {
    if |a| < 6 then None
    else match (Text.ParseInt(a[0]), ReadPublicCardState(a[1]), SerPlayerId().deserialize(a[2]),
                ReadBothPlayers(routes, a[3], a[4]), ReadLastPlayer(a[5]))
      case (Some(ticketsCount), Some(cardState), Some(current), Some(states), Some(last)) =>
        if ticketsCount >= 0
        then Some(PublicGameStates.New(ticketsCount, cardState, current, states, last))
        else None
      case _ => None
  }

  /** The reader of `serPublicGameState`: the text is split at every ":". */
  function ReadPublicGameState(routes: seq<Routes.Route>, c: string): (r: Option<PublicGameStates.PublicGameState>)
    requires MapRoutes(routes)
    ensures r.Some? ==> GameWritable(routes, r.value)
  {
    ReadGameFields(routes, Text.Split(c, ':'))
  }

  /** `serPublicGameState`, over the routes of the map. */
  function SerPublicGameState(routes: seq<Routes.Route>): Serde.Serde<PublicGameStates.PublicGameState>
    requires MapRoutes(routes)
  {
    Serde.Of(s => WritePublicGameState(routes, s), c => ReadPublicGameState(routes, c))
  }

  /** A player is written as a non-empty number. */
  lemma PlayerIdText(p: PlayerId)
    ensures SerPlayerId().serialize(p) != "" && ':' !in SerPlayerId().serialize(p)
  {
    IndexTexts(PlayerIds.ALL, [p]);
    Avoids(SerPlayerId().serialize(p), Numeric, ':');
  }

  /** Fields that hold no `d`, joined by `d`, are split back into the fields. */
  lemma FieldsSplit(f0: string, f1: string, f2: string, f3: string, f4: string, last: Option<string>, d: char)
    requires d !in f0 && d !in f1 && d !in f2 && d !in f3 && d !in f4 && (last.Some? ==> d !in last.value)
    ensures Text.Split(Text.Join(Fields(f0, f1, f2, f3, f4, last), [d]), d) == Fields(f0, f1, f2, f3, f4, last)
  {
    Text.SplitJoin(Fields(f0, f1, f2, f3, f4, last), d);
  }

  /** No field of a writable state holds ":", so splitting its text gives the fields back. */
  lemma GameFieldsSplit(routes: seq<Routes.Route>, s: PublicGameStates.PublicGameState)
    requires |routes| > 0 && GameWritable(routes, s)
    ensures Text.Split(WritePublicGameState(routes, s), ':') == GameFields(routes, s)
  {
    PublicGameStates.BothPlayers(s.playerState);
    IntText(s.ticketsCount);
    PlainAvoids(Text.IntToString(s.ticketsCount));
    SerPublicCardStateText(s.cardState);
    PlayerIdText(s.currentPlayerId);
    SerPublicPlayerStateText(routes, StateOf(s, Player1));
    SerPublicPlayerStateText(routes, StateOf(s, Player2));
    if s.lastPlayer.Some? {
      PlayerIdText(s.lastPlayer.value);
    }
    FieldsSplit(Text.IntToString(s.ticketsCount), WritePublicCardState(s.cardState),
                SerPlayerId().serialize(s.currentPlayerId),
                WritePublicPlayerState(routes, StateOf(s, Player1)),
                WritePublicPlayerState(routes, StateOf(s, Player2)),
                LastText(s.lastPlayer), ':');
  }

  /** The two entries of a map with both players make up the map. */
  lemma BothEntries<V>(m: map<PlayerId, V>)
    requires Player1 in m && Player2 in m
    ensures map[Player1 := m[Player1], Player2 := m[Player2]] == m
  {
    var both := map[Player1 := m[Player1], Player2 := m[Player2]];
    forall p: PlayerId ensures p in both && p in m && both[p] == m[p] {
      assert p == Player1 || p == Player2;
    }
  }

  /** The players' states of a writable state are read back from the fourth and fifth fields. */
  lemma BothReadBack(routes: seq<Routes.Route>, s: PublicGameStates.PublicGameState)
    requires MapRoutes(routes) && GameWritable(routes, s)
    ensures ReadBothPlayers(routes, WritePublicPlayerState(routes, StateOf(s, Player1)),
                            WritePublicPlayerState(routes, StateOf(s, Player2))) == Some(s.playerState)
  {
    PublicGameStates.BothPlayers(s.playerState);
    BothEntries(s.playerState);
    PublicPlayerReadsBack(routes, StateOf(s, Player1));
    PublicPlayerReadsBack(routes, StateOf(s, Player2));
  }

  /** The sixth field reads back as the last player, present or absent. */
  lemma LastReadsBack(last: Option<PlayerId>)
    ensures ReadLastPlayer(match LastText(last) case Some(f) => f case None => "") == Some(last)
  {
    if last.Some? {
      PlayerIdText(last.value);
      assert Serde.RoundTrips(SerPlayerId(), last.value);
    }
  }

  /** Fields that each read back as a part of `s` are read back as `s`. */
  lemma ReadFieldsOf(routes: seq<Routes.Route>, a: seq<string>, s: PublicGameStates.PublicGameState)
    requires MapRoutes(routes) && s.ticketsCount >= 0 && FieldsRead(routes, a, s)
    ensures ReadGameFields(routes, a) == Some(s)
  {
    var r := PublicGameStates.New(s.ticketsCount, s.cardState, s.currentPlayerId, s.playerState, s.lastPlayer);
    assert r == s;
  }

  /** Each of the first six fields reads back as the matching part of `s`. */
  predicate FieldsRead(routes: seq<Routes.Route>, a: seq<string>, s: PublicGameStates.PublicGameState)
    requires MapRoutes(routes)
  {
    |a| >= 6 &&
    Text.ParseInt(a[0]) == Some(s.ticketsCount) && ReadPublicCardState(a[1]) == Some(s.cardState) &&
    SerPlayerId().deserialize(a[2]) == Some(s.currentPlayerId) &&
    ReadBothPlayers(routes, a[3], a[4]) == Some(s.playerState) &&
    ReadLastPlayer(a[5]) == Some(s.lastPlayer)
  }

  /** A writable public game state is read back from its fields. */
  lemma FieldsReadBack(routes: seq<Routes.Route>, s: PublicGameStates.PublicGameState)
    requires MapRoutes(routes) && GameWritable(routes, s)
    ensures ReadGameFields(routes, GameFields(routes, s)) == Some(s)
  {
    IntText(s.ticketsCount);
    CardStateReadsBack(s.cardState);
    assert Serde.RoundTrips(SerPlayerId(), s.currentPlayerId);
    BothReadBack(routes, s);
    LastReadsBack(s.lastPlayer);
    ReadFieldsOf(routes, GameFields(routes, s), s);
  }

  /** A writable public game state is read back from its text. */
  lemma GameReadsBack(routes: seq<Routes.Route>, s: PublicGameStates.PublicGameState)
    requires MapRoutes(routes) && GameWritable(routes, s)
    ensures ReadPublicGameState(routes, WritePublicGameState(routes, s)) == Some(s)
  {
    GameFieldsSplit(routes, s);
    FieldsReadBack(routes, s);
  }

  /** A public game state round-trips exactly when the constructors would accept it and its
      routes are routes of the map; the last player, present or absent, is kept. */
  lemma SerPublicGameStateRoundTrip(routes: seq<Routes.Route>, s: PublicGameStates.PublicGameState)
    requires MapRoutes(routes)
    ensures Serde.RoundTrips(SerPublicGameState(routes), s) <==> GameWritable(routes, s)
  {
    if GameWritable(routes, s) {
      GameReadsBack(routes, s);
    }
  }
}
