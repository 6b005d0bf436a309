/** A destination ticket (src/ch/epfl/tchu/game/Ticket.java): one or more trips leaving from
    stations of the same name; it is worth the best of its trips. */
module Tickets {
  import opened Wrappers
  import opened Stations
  import opened Trips
  import Text

  datatype Ticket = Ticket(trips: seq<Trip>)

  /** Consecutive trips leave from stations with the same name. */
  predicate SameOrigin(trips: seq<Trip>)
  {
    forall i :: 1 <= i < |trips| ==> trips[i - 1].from.name == trips[i].from.name
  }

  /** What the constructor guarantees of every ticket. */
  predicate Valid(t: Ticket)
  {
    |t.trips| > 0 && SameOrigin(t.trips) && forall i :: 0 <= i < |t.trips| ==> Trips.Valid(t.trips[i])
  }

  /** The list constructor: refuses an empty list and trips leaving from differently named
      stations (an IllegalArgumentException, here an `Err`). */
  method New(trips: seq<Trip>) returns (r: Result<Ticket>)
    requires forall i :: 0 <= i < |trips| ==> Trips.Valid(trips[i])
    ensures r.Ok? <==> |trips| > 0 && SameOrigin(trips)
    ensures r.Ok? ==> r.value.trips == trips && Valid(r.value)
  {
    if |trips| == 0 {
      return Err("no trips");
    }
    var i := 1;
    while i < |trips|
      invariant 1 <= i <= |trips|
      invariant SameOrigin(trips[..i])
    {
      if trips[i - 1].from.name != trips[i].from.name {
        return Err("trips do not share their origin");
      }
      i := i + 1;
    }
    assert trips[..i] == trips;
    r := Ok(Ticket(trips));
  }

  /** The single-trip constructor. */
  function Single(from: Station, to: Station, points: int): (t: Ticket)
    requires points > 0
    ensures Valid(t) && |t.trips| == 1
    ensures t.trips[0].from == from && t.trips[0].to == to && t.trips[0].points == points
  {
    Ticket([Trip(from, to, points)])
  }

  // ----- text -----

  /** The entry of one trip in the ticket's text: "destination (points)". */
  function Label(trip: Trip): string
  {
    trip.to.name + " (" + Text.IntToString(trip.points) + ")"
  }

  /** Strictly increasing in `String.compareTo` order: the iteration order of a `TreeSet`. */
  predicate Sorted(xs: seq<string>)
  {
    forall i :: 0 < i < |xs| ==> Text.Less(xs[i - 1], xs[i])
  }

  lemma TotalOrder(a: string, b: string)
    ensures a == b || Text.Less(a, b) || Text.Less(b, a)
  {
    Text.CompareAntisymmetric(a, b);
  }

  /** The strings of a list, as a set. */
  function Elements(xs: seq<string>): set<string>
  {
    set x | x in xs
  }

  lemma ElementsConcat(a: seq<string>, b: seq<string>)
    ensures Elements(a + b) == Elements(a) + Elements(b)
  {
    forall x | x in a + b
      ensures x in a || x in b
    {
    }
  }

  /** `TreeSet.add`: `s` put in its place, nothing if it is already there. */
  function Insert(xs: seq<string>, s: string): (r: seq<string>)
    requires Sorted(xs)
    ensures Sorted(r)
    ensures Elements(r) == Elements(xs) + {s}
    ensures |r| > 0 && (r[0] == s || (|xs| > 0 && r[0] == xs[0]))
  {
    if xs == [] then [s]
    else if s == xs[0] then xs
    else if Text.Less(s, xs[0]) then
      ElementsConcat([s], xs);
      [s] + xs
    else
      TotalOrder(s, xs[0]);
      var tail := Insert(xs[1..], s);
      assert xs == [xs[0]] + xs[1..];
      ElementsConcat([xs[0]], xs[1..]);
      ElementsConcat([xs[0]], tail);
      [xs[0]] + tail
  }

  /** The destination label of every trip, in trip order. */
  function Labels(trips: seq<Trip>): (r: seq<string>)
    ensures |r| == |trips|
  {
    seq(|trips|, i requires 0 <= i < |trips| => Label(trips[i]))
  }

  /** The destination labels of `trips`, in the order of the `TreeSet` the text is built from:
      sorted, each label of a trip once, and nothing else. */
  function Destinations(trips: seq<Trip>): (r: seq<string>)
    ensures Sorted(r)
    ensures Elements(r) == Elements(Labels(trips))
    ensures |trips| > 0 ==> |r| > 0
    decreases |trips|
  {
    if trips == [] then []
    else
      var init := trips[..|trips| - 1];
      var last := Label(trips[|trips| - 1]);
      assert Labels(trips) == Labels(init) + [last];
      ElementsConcat(Labels(init), [last]);
      Insert(Destinations(init), last)
  }

  /** A sorted list holds no element twice. */
  lemma {:induction false} SortedDistinct(xs: seq<string>, i: int, j: int)
    requires Sorted(xs) && 0 <= i < j < |xs|
    ensures xs[i] != xs[j] && Text.Less(xs[i], xs[j])
    decreases j - i
  {
    if j > i + 1 {
      SortedDistinct(xs, i, j - 1);
      Text.LessTransitive(xs[i], xs[j - 1], xs[j]);
    }
    Text.CompareAntisymmetric(xs[i], xs[j]);
  }

  /** `computeText`: the origin's name, " - ", then the one destination label, or every distinct
      label in order between braces and separated by ", ". */
  function TextOf(t: Ticket): (s: string)
    requires Valid(t)
  {
    var to := Destinations(t.trips);
    t.trips[0].from.name + " - " + (if |to| > 1 then "{" + Text.Join(to, ", ") + "}" else to[0])
  }

  /** With a single distinct label, that label is the first trip's. */
  lemma OneDestination(trips: seq<Trip>)
    requires |trips| > 0 && |Destinations(trips)| == 1
    ensures Destinations(trips)[0] == Label(trips[0])
  {
    var to := Destinations(trips);
    assert Labels(trips)[0] == Label(trips[0]);
    assert Label(trips[0]) in Elements(Labels(trips));
    assert to == [to[0]];
    assert Elements(to) == {to[0]};
  }

  /** The text of a ticket with one destination label, and of one with several. */
  lemma TextShape(t: Ticket)
    requires Valid(t)
    ensures var to := Destinations(t.trips);
            |to| > 0 &&
            (|to| == 1 ==> TextOf(t) == t.trips[0].from.name + " - " + Label(t.trips[0])) &&
            (|to| > 1 ==> TextOf(t) == t.trips[0].from.name + " - {" + Text.Join(to, ", ") + "}")
  {
    var to := Destinations(t.trips);
    if |to| == 1 {
      OneDestination(t.trips);
    } else {
      Braced(t.trips[0].from.name, Text.Join(to, ", "));
    }
  }

  /** Text appended piece by piece is the text appended as one. */
  lemma Regroup(a: string, b: string, c: string, d: string)
    ensures a + b + c + d == a + (b + c + d)
  {
    assert a + b + c + d == a + (b + c) + d;
  }

  /** The braces around several labels, regrouped. */
  lemma Braced(from: string, labels: string)
    ensures from + " - " + ("{" + labels + "}") == from + " - {" + labels + "}"
  {
    assert " - " + "{" == " - {";
  }

  /** The labels of one more trip of a prefix: the next label inserted in order. */
  lemma DestinationsPrefix(trips: seq<Trip>, i: nat)
    requires i < |trips|
    ensures Destinations(trips[..i + 1]) == Insert(Destinations(trips[..i]), Label(trips[i]))
  {
    var s := trips[..i + 1];
    assert s[..|s| - 1] == trips[..i] && s[|s| - 1] == trips[i];
  }

  /** The loop of `computeText`: the labels go into a sorted set one by one, then are joined. */
  method ComputeText(t: Ticket) returns (s: string)
    requires Valid(t)
    ensures s == TextOf(t)
  {
    var to: seq<string> := [];
    for i := 0 to |t.trips|
      invariant to == Destinations(t.trips[..i])
    {
      DestinationsPrefix(t.trips, i);
      to := Insert(to, Label(t.trips[i]));
    }
    assert t.trips[..|t.trips|] == t.trips;
    s := t.trips[0].from.name + " - ";
    if |to| > 1 {
      s := s + "{";
      s := s + Text.Join(to, ", ");
      s := s + "}";
      Regroup(t.trips[0].from.name + " - ", "{", Text.Join(to, ", "), "}");
    } else {
      s := s + to[0];
    }
  }

  /** `compareTo`: the order of the texts. */
  function CompareTo(a: Ticket, b: Ticket): (r: int)
    requires Valid(a) && Valid(b)
    ensures r == 0 <==> TextOf(a) == TextOf(b)
  {
    Text.Compare(TextOf(a), TextOf(b))
  }

  lemma CompareToAntisymmetric(a: Ticket, b: Ticket)
    requires Valid(a) && Valid(b)
    ensures CompareTo(b, a) == -CompareTo(a, b)
  {
    Text.CompareAntisymmetric(TextOf(a), TextOf(b));
  }

  // ----- points -----

  /** `points(connectivity)`: the best score over the ticket's trips. */
  function Points(trips: seq<Trip>, connected: Connectivity): (p: int)
    requires |trips| > 0 && forall i :: 0 <= i < |trips| ==> Trips.Valid(trips[i])
    ensures forall i :: 0 <= i < |trips| ==> p >= Trips.Points(trips[i], connected)
    ensures exists i :: 0 <= i < |trips| && p == Trips.Points(trips[i], connected)
    decreases |trips|
  {
    var last := Trips.Points(trips[|trips| - 1], connected);
    if |trips| == 1 then last
    else
      var best := Points(trips[..|trips| - 1], connected);
      assert forall i :: 0 <= i < |trips| - 1 ==> trips[..|trips| - 1][i] == trips[i];
      if best < last then last else best
  }

  /** The running maximum of `points`, starting from the first trip's score. */
  method ComputePoints(t: Ticket, connected: Connectivity) returns (p: int)
    requires Valid(t)
    ensures p == Points(t.trips, connected)
  {
    p := Trips.Points(t.trips[0], connected);
    for i := 0 to |t.trips|
      invariant p == Points(t.trips[..if i == 0 then 1 else i], connected)
    {
      var score := Trips.Points(t.trips[i], connected);
      PointsPrefix(t.trips, i, connected);
      if p < score {
        p := score;
      }
    }
    assert t.trips[..|t.trips|] == t.trips;
  }

  /** `Points` over one more trip of a prefix: the better of the two. */
  lemma PointsPrefix(trips: seq<Trip>, i: nat, connected: Connectivity)
    requires i < |trips| && forall k :: 0 <= k < |trips| ==> Trips.Valid(trips[k])
    ensures i == 0 ==> Points(trips[..1], connected) == Trips.Points(trips[0], connected)
    ensures i > 0 ==> Points(trips[..i + 1], connected) ==
                      var best := Points(trips[..i], connected);
                      var last := Trips.Points(trips[i], connected);
                      if best < last then last else best
  {
    var s := trips[..i + 1];
    assert s[..|s| - 1] == trips[..i] && s[|s| - 1] == trips[i];
  }

  /** A ticket scores at least as much wherever more stations are connected, and the same
      wherever the same stations are. */
  lemma PointsMonotone(trips: seq<Trip>, c1: Connectivity, c2: Connectivity)
    requires |trips| > 0 && forall i :: 0 <= i < |trips| ==> Trips.Valid(trips[i])
    requires forall a, b :: c1(a, b) ==> c2(a, b)
    ensures Points(trips, c1) <= Points(trips, c2)
  {
    var k :| 0 <= k < |trips| && Points(trips, c1) == Trips.Points(trips[k], c1);
    assert Trips.Points(trips[k], c1) <= Trips.Points(trips[k], c2);
  }
}
