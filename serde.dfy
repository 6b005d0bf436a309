/** The text codec combinators (src/ch/epfl/tchu/net/Serde.java). A serde is a pair of functions:
    one writes a value as text, the other reads it back. Reading fails (`None`) where the Java code
    throws: on a malformed number, an index out of range or a constructor's failed check. The
    delimiters the project uses are all one character long, so a delimiter is a `char`. */
module Serde {
  import opened Wrappers
  import Text
  import Bags

  datatype Serde<!T> = Serde(serialize: T -> string, deserialize: string -> Option<T>)

  /** Reading back what was written gives the value. */
  predicate RoundTrips<T(==)>(s: Serde<T>, x: T)
  {
    s.deserialize(s.serialize(x)) == Some(x)
  }

  /** `of(f, g)`: writes with `f` and reads with `g`; it round-trips where `g` undoes `f`. */
  function Of<T(!new,==)>(f: T -> string, g: string -> Option<T>): (s: Serde<T>)
    ensures forall x :: RoundTrips(s, x) <==> g(f(x)) == Some(x)
  {
    Serde(f, g)
  }

  // ----- oneOf -----

  /** `List.indexOf`: the first position of `x`, or -1 when it is absent. */
  function IndexOf<T(==)>(vs: seq<T>, x: T): (i: int)
    ensures i == -1 <==> x !in vs
    ensures i != -1 ==> 0 <= i < |vs| && vs[i] == x && forall j :: 0 <= j < i ==> vs[j] != x
  {
    if vs == [] then -1
    else if vs[0] == x then 0
    else var rest := IndexOf(vs[1..], x); if rest == -1 then -1 else rest + 1
  }

  /** The writer of `oneOf`: the decimal index. */
  function IndexText<T(==)>(vs: seq<T>, x: T): string
  {
    Text.IntToString(IndexOf(vs, x))
  }

  /** The reader of `oneOf`: `Integer.parseInt`, then `List.get`. */
  function AtIndex<T>(vs: seq<T>, c: string): (r: Option<T>)
    ensures r.Some? ==> r.value in vs
  {
    match Text.ParseInt(c)
    case Some(i) => if 0 <= i < |vs| then Some(vs[i]) else None
    case None => None
  }

  /** `oneOf(vs)`: a value is written as its index in `vs`. Every member of `vs` round-trips, every
      index reads back as the value at that index, and anything read back is a member. */
  function OneOf<T(==)>(vs: seq<T>): (s: Serde<T>)
    requires |vs| > 0
    ensures forall x | x in vs :: RoundTrips(s, x)
    ensures forall i | 0 <= i < |vs| :: s.deserialize(Text.IntToString(i)) == Some(vs[i])
    ensures forall c :: s.deserialize(c).Some? ==> s.deserialize(c).value in vs
  {
    IndexRoundTrips(vs);
    Serde(x => IndexText(vs, x), c => AtIndex(vs, c))
  }

  lemma IndexRoundTrips<T>(vs: seq<T>)
    ensures forall x | x in vs :: AtIndex(vs, IndexText(vs, x)) == Some(x)
    ensures forall i | 0 <= i < |vs| :: AtIndex(vs, Text.IntToString(i)) == Some(vs[i])
  {
    forall i | 0 <= i < |vs| ensures AtIndex(vs, Text.IntToString(i)) == Some(vs[i]) {
      Text.IntRoundTrip(i);
    }
    forall x | x in vs ensures AtIndex(vs, IndexText(vs, x)) == Some(x) {
      Text.IntRoundTrip(IndexOf(vs, x));
    }
  }

  /** A value outside `vs` is written as "-1", which does not read back. */
  lemma OneOfOutside<T>(vs: seq<T>, x: T)
    requires |vs| > 0
    requires x !in vs
    ensures OneOf(vs).serialize(x) == "-1"
    ensures OneOf(vs).deserialize(OneOf(vs).serialize(x)) == None
  {
    assert Text.NatToString(1) == "1";
    Text.IntRoundTrip(-1);
  }

  /** The text `oneOf` writes is a non-empty run of digits, possibly after a minus sign, so it
      holds none of the delimiters and is never empty. */
  lemma OneOfText<T>(vs: seq<T>, x: T)
    requires |vs| > 0
    ensures OneOf(vs).serialize(x) != ""
    ensures forall k | 0 <= k < |OneOf(vs).serialize(x)| ::
              Text.IsDigit(OneOf(vs).serialize(x)[k]) || OneOf(vs).serialize(x)[k] == '-'
  {
  }

  // ----- listOf -----

  /** Each element written by `s`. */
  function SerializeAll<T>(s: Serde<T>, l: seq<T>): (texts: seq<string>)
    ensures |texts| == |l| && forall i | 0 <= i < |l| :: texts[i] == s.serialize(l[i])
  {
    seq(|l|, i requires 0 <= i < |l| => s.serialize(l[i]))
  }

  /** Each field read by `s`; one failure fails the whole list. */
  function DeserializeAll<T>(s: Serde<T>, fields: seq<string>): (r: Option<seq<T>>)
    ensures r.Some? ==> |r.value| == |fields|
  {
    if fields == [] then Some([])
    else match (s.deserialize(fields[0]), DeserializeAll(s, fields[1..]))
      case (Some(x), Some(rest)) => Some([x] + rest)
      case _ => None
  }

  /** The writer of `listOf`: "" for the empty list, otherwise the elements joined by the
      delimiter. */
  function SerializeList<T>(s: Serde<T>, d: char, l: seq<T>): string
  {
    if l == [] then "" else Text.Join(SerializeAll(s, l), [d])
  }

  /** The reader of `listOf`: "" is the empty list, anything else is split at every delimiter,
      empty fields included, and each field is read. */
  function DeserializeList<T>(s: Serde<T>, d: char, c: string): Option<seq<T>>
  {
    if c == "" then Some([]) else DeserializeAll(s, Text.Split(c, d))
  }

  /** `listOf(s, d)`. */
  function ListOf<T(!new,==)>(s: Serde<T>, d: char): (r: Serde<seq<T>>)
    ensures r.serialize([]) == "" && r.deserialize("") == Some([])
    ensures forall l :: r.serialize(l) == SerializeList(s, d, l)
    ensures forall c :: r.deserialize(c) == DeserializeList(s, d, c)
  {
    Serde(l => SerializeList(s, d, l), c => DeserializeList(s, d, c))
  }

  /** The elements round-trip through `s` and their texts hold no delimiter. */
  predicate Encodable<T(==)>(s: Serde<T>, d: char, l: seq<T>)
  {
    forall i | 0 <= i < |l| :: RoundTrips(s, l[i]) && d !in s.serialize(l[i])
  }

  /** Reading back the elements' texts gives the elements. */
  lemma {:induction false} DeserializeAllRoundTrip<T>(s: Serde<T>, l: seq<T>)
    requires forall i | 0 <= i < |l| :: RoundTrips(s, l[i])
    ensures DeserializeAll(s, SerializeAll(s, l)) == Some(l)
  {
    if l != [] {
      DeserializeAllRoundTrip(s, l[1..]);
      assert SerializeAll(s, l)[1..] == SerializeAll(s, l[1..]);
      assert [l[0]] + l[1..] == l;
    }
  }

  /** When everything `s` reads is in `vs`, so is every element of a list read field by field. */
  lemma {:induction false} DeserializeAllFrom<T>(s: Serde<T>, fields: seq<string>, vs: seq<T>)
    requires forall c :: s.deserialize(c).Some? ==> s.deserialize(c).value in vs
    ensures DeserializeAll(s, fields).Some? ==>
              forall i | 0 <= i < |DeserializeAll(s, fields).value| :: DeserializeAll(s, fields).value[i] in vs
  {
    if fields != [] {
      DeserializeAllFrom(s, fields[1..], vs);
    }
  }

  /** The same for the reader of `listOf`. */
  lemma DeserializeListFrom<T>(s: Serde<T>, d: char, c: string, vs: seq<T>)
    requires forall c :: s.deserialize(c).Some? ==> s.deserialize(c).value in vs
    ensures DeserializeList(s, d, c).Some? ==>
              forall i | 0 <= i < |DeserializeList(s, d, c).value| :: DeserializeList(s, d, c).value[i] in vs
  {
    if c != "" {
      DeserializeAllFrom(s, Text.Split(c, d), vs);
    }
  }

  /** The same for the reader of `bagOf`. */
  lemma DeserializeBagFrom<T>(s: Serde<T>, d: char, c: string, vs: seq<T>)
    requires forall c :: s.deserialize(c).Some? ==> s.deserialize(c).value in vs
    ensures DeserializeBag(s, d, c).Some? ==> forall x | x in DeserializeBag(s, d, c).value :: x in vs
  {
    DeserializeListFrom(s, d, c, vs);
  }

  /** A list of two or more elements is written with a delimiter, so never as "". */
  lemma {:induction false} JoinNotEmpty(parts: seq<string>, d: char)
    requires |parts| >= 2
    ensures d in Text.Join(parts, [d])
  {
    assert Text.Join(parts, [d]) == parts[0] + [d] + Text.Join(parts[1..], [d]);
    assert Text.Join(parts, [d])[|parts[0]|] == d;
  }

  /** `listOf` round-trips a list of encodable elements exactly when the list is not a single
      element written as "": that list is written as "", which reads back as the empty list. */
  lemma ListOfRoundTrip<T(!new)>(s: Serde<T>, d: char, l: seq<T>)
    requires Encodable(s, d, l)
    ensures RoundTrips(ListOf(s, d), l) <==> !(|l| == 1 && s.serialize(l[0]) == "")
  {
    var texts := SerializeAll(s, l);
    if |l| == 1 && s.serialize(l[0]) == "" {
      assert ListOf(s, d).serialize(l) == "";
    } else if l != [] {
      var c := Text.Join(texts, [d]);
      if |l| >= 2 {
        JoinNotEmpty(texts, d);
      }
      assert c != "";
      Text.SplitJoin(texts, d);
      DeserializeAllRoundTrip(s, l);
      assert ListOf(s, d).deserialize(ListOf(s, d).serialize(l)) == Some(l);
    }
  }

  /** The same, for a serde that writes exactly one value, `empty`, as "": every list of
      encodable elements round-trips except `[empty]`. */
  lemma ListOfRoundTripBut<T(!new)>(s: Serde<T>, d: char, l: seq<T>, empty: T)
    requires Encodable(s, d, l)
    requires forall x :: s.serialize(x) == "" <==> x == empty
    ensures RoundTrips(ListOf(s, d), l) <==> l != [empty]
  {
    ListOfRoundTrip(s, d, l);
    if |l| == 1 {
      assert l == [empty] <==> l[0] == empty;
    }
  }

  // ----- bagOf -----

  /** The writer of `bagOf`: the list of the bag's elements in `order`, the order of the
      element type. */
  function SerializeBag<T>(s: Serde<T>, d: char, order: seq<T>, b: multiset<T>): string
  {
    SerializeList(s, d, Bags.ToList(b, order))
  }

  /** The reader of `bagOf`: the bag of the list read. */
  function DeserializeBag<T>(s: Serde<T>, d: char, c: string): (r: Option<multiset<T>>)
  {
    match DeserializeList(s, d, c)
    case Some(l) => Some(multiset(l))
    case None => None
  }

  /** `bagOf(s, d)`, for elements listed in `order`. */
  function BagOf<T(!new,==)>(s: Serde<T>, d: char, order: seq<T>): (r: Serde<multiset<T>>)
    ensures forall b :: r.serialize(b) == SerializeBag(s, d, order, b)
    ensures forall c :: r.deserialize(c) == DeserializeBag(s, d, c)
  {
    Serde(b => SerializeBag(s, d, order, b), c => DeserializeBag(s, d, c))
  }

  /** `bagOf` round-trips a bag whose elements are listed in `order`, round-trip and hold no
      delimiter, exactly when it is not a single element written as "". */
  lemma BagOfRoundTrip<T(!new)>(s: Serde<T>, d: char, order: seq<T>, b: multiset<T>)
    requires forall x | x in b :: x in order && RoundTrips(s, x) && d !in s.serialize(x)
    ensures RoundTrips(BagOf(s, d, order), b) <==> !(|b| == 1 && forall x | x in b :: s.serialize(x) == "")
  {
    var l := Bags.ToList(b, order);
    Bags.ToListContents(b, order);
    assert |l| == |b| by {
      assert |multiset(l)| == |l|;
    }
    forall i | 0 <= i < |l| ensures RoundTrips(s, l[i]) && d !in s.serialize(l[i]) {
      assert l[i] in multiset(l);
    }
    ListOfRoundTrip(s, d, l);
    if |l| == 1 {
      assert l[0] in multiset(l);
      assert b == multiset{l[0]} by {
        assert l == [l[0]];
      }
    }
    if RoundTrips(ListOf(s, d), l) {
      assert BagOf(s, d, order).deserialize(BagOf(s, d, order).serialize(b)) == Some(b);
    }
  }
}
