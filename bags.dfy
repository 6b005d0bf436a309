/** Helpers for `SortedBag`, which the model represents as a Dafny `multiset`. Its sorted
    enumeration (`toList`) is the bag read along a canonical order of the element type. */
module Bags {

  /** `n` copies of `x`. */
  function Repeat<T>(x: T, n: nat): (s: seq<T>)
    ensures |s| == n
    ensures forall k :: 0 <= k < n ==> s[k] == x
  {
    if n == 0 then [] else [x] + Repeat(x, n - 1)
  }

  lemma {:induction false} RepeatCount<T>(x: T, n: nat)
    ensures multiset(Repeat(x, n))[x] == n
    ensures forall y :: y != x ==> multiset(Repeat(x, n))[y] == 0
  {
    if n > 0 {
      RepeatCount(x, n - 1);
      assert Repeat(x, n) == [x] + Repeat(x, n - 1);
    }
  }

  /** `SortedBag.of(n, x)`: the bag holding `n` copies of `x`. */
  function Copies<T>(x: T, n: nat): (b: multiset<T>)
    ensures |b| == n
    ensures b[x] == n
  {
    multiset{}[x := n]
  }

  /** `toList`: the elements of `b`, each repeated by its multiplicity, in the order in which
      they first occur in `order`. */
  function ToList<T>(b: multiset<T>, order: seq<T>): seq<T>
    decreases |order|
  {
    if order == [] then []
    else Repeat(order[0], b[order[0]]) + ToList(b[order[0] := 0], order[1..])
  }

  /** Only elements of `order` are listed. */
  lemma {:induction false} ToListMembers<T>(b: multiset<T>, order: seq<T>)
    ensures forall k :: 0 <= k < |ToList(b, order)| ==> ToList(b, order)[k] in order
    decreases |order|
  {
    if order != [] {
      ToListMembers(b[order[0] := 0], order[1..]);
    }
  }

  /** Every element of a bag drawn from `order` is listed, with its multiplicity. */
  lemma {:induction false} ToListContents<T>(b: multiset<T>, order: seq<T>)
    requires forall x :: x in b ==> x in order
    ensures multiset(ToList(b, order)) == b
    decreases |order|
  {
    if order == [] {
      assert forall x :: x !in b;
    } else {
      var x := order[0];
      var rest := b[x := 0];
      forall y | y in rest ensures y in order[1..] {
        assert y != x && y in b;
      }
      ToListContents(rest, order[1..]);
      RepeatCount(x, b[x]);
      assert multiset(Repeat(x, b[x])) == Copies(x, b[x]);
      assert b == Copies(x, b[x]) + rest;
    }
  }

  lemma ToListLength<T>(b: multiset<T>, order: seq<T>)
    requires forall x :: x in b ==> x in order
    ensures |ToList(b, order)| == |b|
  {
    ToListContents(b, order);
    assert |multiset(ToList(b, order))| == |ToList(b, order)|;
  }

  /** Read along an order strictly increasing in `rank`, the list is sorted by `rank`. */
  lemma {:induction false} ToListSorted<T>(b: multiset<T>, order: seq<T>, rank: T -> int)
    requires forall i, j :: 0 <= i < j < |order| ==> rank(order[i]) < rank(order[j])
    ensures forall i, j :: 0 <= i <= j < |ToList(b, order)| ==>
              rank(ToList(b, order)[i]) <= rank(ToList(b, order)[j])
    decreases |order|
  {
    if order != [] {
      var x := order[0];
      var head := Repeat(x, b[x]);
      var tail := ToList(b[x := 0], order[1..]);
      ToListSorted(b[x := 0], order[1..], rank);
      ToListMembers(b[x := 0], order[1..]);
      forall k | 0 <= k < |tail| ensures rank(x) < rank(tail[k]) {
        var m :| 0 <= m < |order[1..]| && order[1..][m] == tail[k];
        assert order[m + 1] == tail[k];
      }
      assert ToList(b, order) == head + tail;
    }
  }

  // ----- sub-bags of a given size (`subsetsOfSize`) -----

  predicate NoDuplicates<T(==)>(s: seq<T>)
  {
    forall i, j :: 0 <= i < j < |s| ==> s[i] != s[j]
  }

  /** `x` added to every bag of `bags`, in the same order. */
  function AddTo<T>(x: multiset<T>, bags: seq<multiset<T>>): (r: seq<multiset<T>>)
    ensures |r| == |bags| && forall i :: 0 <= i < |r| ==> r[i] == x + bags[i]
  {
    seq(|bags|, i requires 0 <= i < |bags| => x + bags[i])
  }

  /** `subsetsOfSize(n)` of the part of `b` drawn from `kinds`: every bag of `n` elements of `kinds`
      that `b` contains, listed by ascending number of copies of `kinds[0]`, then recursively. */
  function SubBags<T>(b: multiset<T>, kinds: seq<T>, n: nat): seq<multiset<T>>
    decreases |kinds|, 1, 0
  {
    if |kinds| == 0 then (if n == 0 then [multiset{}] else [])
    else Spread(b, kinds, n, 0)
  }

  /** The sub-bags with `j` or more copies of `kinds[0]`, by ascending number of those copies. */
  function Spread<T>(b: multiset<T>, kinds: seq<T>, n: nat, j: nat): seq<multiset<T>>
    requires |kinds| > 0
    decreases |kinds|, 0, n + 1 - j
  {
    if j > n || j > b[kinds[0]] then []
    else AddTo(Copies(kinds[0], j), SubBags(b, kinds[1..], n - j)) + Spread(b, kinds, n, j + 1)
  }

  lemma HeadNotInTail<T>(kinds: seq<T>)
    requires |kinds| > 0 && NoDuplicates(kinds)
    ensures kinds[0] !in kinds[1..]
  {
    forall m | 0 <= m < |kinds[1..]| ensures kinds[1..][m] != kinds[0] {
      assert kinds[1..][m] == kinds[m + 1];
    }
  }

  /** A listed sub-bag is contained in `b`, has `n` elements, all of them in `kinds`. */
  lemma {:induction false} SubBagsSound<T>(b: multiset<T>, kinds: seq<T>, n: nat, x: multiset<T>)
    requires NoDuplicates(kinds) && x in SubBags(b, kinds, n)
    ensures x <= b && |x| == n && forall y :: y in x ==> y in kinds
    decreases |kinds|, 1, 0
  {
    if |kinds| > 0 {
      SpreadSound(b, kinds, n, 0, x);
    }
  }

  /** `j` copies of the first kind added to a sub-bag of the other kinds. */
  lemma AddHead<T>(b: multiset<T>, kinds: seq<T>, n: nat, j: nat, z: multiset<T>)
    requires |kinds| > 0 && NoDuplicates(kinds) && j <= b[kinds[0]]
    requires z <= b && |z| + j == n && forall y :: y in z ==> y in kinds[1..]
    ensures Copies(kinds[0], j) + z <= b && |Copies(kinds[0], j) + z| == n
    ensures forall y :: y in Copies(kinds[0], j) + z ==> y in kinds
    ensures (Copies(kinds[0], j) + z)[kinds[0]] == j
  {
    var k := kinds[0];
    var x := Copies(k, j) + z;
    HeadNotInTail(kinds);
    assert z[k] == 0;
    RepeatCount(k, j);
    forall y ensures x[y] <= b[y] {
      if y != k {
        assert Copies(k, j)[y] == 0;
      }
    }
    forall y | y in x ensures y in kinds {
      if y != k {
        assert Copies(k, j)[y] == 0;
        assert y in z;
      }
    }
  }

  /** The sub-bags with exactly `j` copies of the first kind. */
  function Head<T>(b: multiset<T>, kinds: seq<T>, n: nat, j: nat): seq<multiset<T>>
    requires |kinds| > 0 && j <= n
  {
    AddTo(Copies(kinds[0], j), SubBags(b, kinds[1..], n - j))
  }

  /** One step of `Spread`. */
  lemma SpreadStep<T>(b: multiset<T>, kinds: seq<T>, n: nat, j: nat)
    requires |kinds| > 0 && j <= n && j <= b[kinds[0]]
    ensures Spread(b, kinds, n, j) == Head(b, kinds, n, j) + Spread(b, kinds, n, j + 1)
  {
  }

  /** A bag of the head is a sub-bag of `b` of `n` elements of `kinds`, with `j` copies of the
      first. */
  lemma HeadSound<T>(b: multiset<T>, kinds: seq<T>, n: nat, j: nat, i: nat)
    requires |kinds| > 0 && NoDuplicates(kinds) && j <= n && j <= b[kinds[0]]
    requires i < |Head(b, kinds, n, j)|
    ensures var x := Head(b, kinds, n, j)[i];
      x <= b && |x| == n && (forall y :: y in x ==> y in kinds) && x[kinds[0]] == j
    decreases |kinds|, 0, 0
  {
    var rest := SubBags(b, kinds[1..], n - j);
    SubBagsSound(b, kinds[1..], n - j, rest[i]);
    AddHead(b, kinds, n, j, rest[i]);
  }

  /** Every bag of the head has `j` copies of the first kind. */
  lemma HeadCounts<T>(b: multiset<T>, kinds: seq<T>, n: nat, j: nat)
    requires |kinds| > 0 && NoDuplicates(kinds) && j <= n && j <= b[kinds[0]]
    ensures forall i | 0 <= i < |Head(b, kinds, n, j)| :: Head(b, kinds, n, j)[i][kinds[0]] == j
  {
    forall i | 0 <= i < |Head(b, kinds, n, j)| ensures Head(b, kinds, n, j)[i][kinds[0]] == j {
      HeadSound(b, kinds, n, j, i);
    }
  }

  /** Every bag listed from `j` on has at least `j` copies of the first kind. */
  lemma SpreadCounts<T>(b: multiset<T>, kinds: seq<T>, n: nat, j: nat)
    requires |kinds| > 0 && NoDuplicates(kinds)
    ensures forall i | 0 <= i < |Spread(b, kinds, n, j)| :: Spread(b, kinds, n, j)[i][kinds[0]] >= j
  {
    forall i | 0 <= i < |Spread(b, kinds, n, j)| ensures Spread(b, kinds, n, j)[i][kinds[0]] >= j {
      SpreadSound(b, kinds, n, j, Spread(b, kinds, n, j)[i]);
    }
  }

  lemma {:induction false} SpreadSound<T>(b: multiset<T>, kinds: seq<T>, n: nat, j: nat, x: multiset<T>)
    requires |kinds| > 0 && NoDuplicates(kinds) && x in Spread(b, kinds, n, j)
    ensures x <= b && |x| == n && (forall y :: y in x ==> y in kinds) && x[kinds[0]] >= j
    decreases |kinds|, 0, n + 1 - j
  {
    SpreadStep(b, kinds, n, j);
    var head := Head(b, kinds, n, j);
    if x in head {
      var i :| 0 <= i < |head| && head[i] == x;
      HeadSound(b, kinds, n, j, i);
    } else {
      SpreadSound(b, kinds, n, j + 1, x);
    }
  }

  /** Every sub-bag of `b` of size `n` drawn from `kinds` is listed. */
  lemma {:induction false} SubBagsComplete<T>(b: multiset<T>, kinds: seq<T>, n: nat, x: multiset<T>)
    requires NoDuplicates(kinds) && x <= b && |x| == n && forall y :: y in x ==> y in kinds
    ensures x in SubBags(b, kinds, n)
    decreases |kinds|, 1, 0
  {
    if |kinds| == 0 {
      assert x == multiset{} by {
        forall y ensures x[y] == 0 {
          assert y !in x;
        }
      }
    } else {
      SpreadComplete(b, kinds, n, 0, x);
    }
  }

  /** A bag with no copy of the first kind holds only the other kinds. */
  lemma OtherKinds<T>(kinds: seq<T>, z: multiset<T>)
    requires |kinds| > 0 && (forall y :: y in z ==> y in kinds) && z[kinds[0]] == 0
    ensures forall y :: y in z ==> y in kinds[1..]
  {
    forall y | y in z ensures y in kinds[1..] {
      var m :| 0 <= m < |kinds| && kinds[m] == y;
      assert m != 0;
      assert kinds[1..][m - 1] == y;
    }
  }

  lemma {:induction false} SpreadComplete<T>(b: multiset<T>, kinds: seq<T>, n: nat, j: nat, x: multiset<T>)
    requires |kinds| > 0 && NoDuplicates(kinds)
    requires x <= b && |x| == n && (forall y :: y in x ==> y in kinds) && x[kinds[0]] >= j
    ensures x in Spread(b, kinds, n, j)
    decreases |kinds|, 0, n + 1 - j
  {
    var k := kinds[0];
    CountBound(x, k);
    SpreadStep(b, kinds, n, j);
    if x[k] == j {
      HeadComplete(b, kinds, n, j, x);
    } else {
      SpreadComplete(b, kinds, n, j + 1, x);
    }
  }

  /** A bag holds no more copies of an element than it has elements. */
  lemma CountBound<T>(x: multiset<T>, k: T)
    ensures x[k] <= |x|
  {
    assert x == Copies(k, x[k]) + x[k := 0] by {
      RepeatCount(k, x[k]);
    }
  }

  /** A sub-bag with exactly `j` copies of the first kind is in the head. */
  lemma {:induction false} HeadComplete<T>(b: multiset<T>, kinds: seq<T>, n: nat, j: nat, x: multiset<T>)
    requires |kinds| > 0 && NoDuplicates(kinds) && j <= n
    requires x <= b && |x| == n && (forall y :: y in x ==> y in kinds) && x[kinds[0]] == j
    ensures x in Head(b, kinds, n, j)
    decreases |kinds|, 0, 0
  {
    var k := kinds[0];
    var z := x[k := 0];
    assert x == Copies(k, j) + z by {
      RepeatCount(k, j);
    }
    OtherKinds(kinds, z);
    SubBagsComplete(b, kinds[1..], n - j, z);
    var rest := SubBags(b, kinds[1..], n - j);
    var i :| 0 <= i < |rest| && rest[i] == z;
    assert Head(b, kinds, n, j)[i] == x;
  }

  /** No sub-bag is listed twice. */
  lemma {:induction false} SubBagsDistinct<T>(b: multiset<T>, kinds: seq<T>, n: nat)
    requires NoDuplicates(kinds)
    ensures NoDuplicates(SubBags(b, kinds, n))
    decreases |kinds|, 1, 0
  {
    if |kinds| > 0 {
      SpreadDistinct(b, kinds, n, 0);
    }
  }

  lemma {:induction false} SpreadDistinct<T>(b: multiset<T>, kinds: seq<T>, n: nat, j: nat)
    requires |kinds| > 0 && NoDuplicates(kinds)
    ensures NoDuplicates(Spread(b, kinds, n, j))
    decreases |kinds|, 0, n + 1 - j
  {
    if !(j > n || j > b[kinds[0]]) {
      SubBagsDistinct(b, kinds[1..], n - j);
      AddToDistinct(Copies(kinds[0], j), SubBags(b, kinds[1..], n - j));
      SpreadDistinct(b, kinds, n, j + 1);
      JoinDistinct(b, kinds, n, j);
    }
  }

  /** One step of `SpreadDistinct`: the head and the rest are apart. */
  lemma JoinDistinct<T>(b: multiset<T>, kinds: seq<T>, n: nat, j: nat)
    requires |kinds| > 0 && NoDuplicates(kinds) && j <= n && j <= b[kinds[0]]
    requires NoDuplicates(Head(b, kinds, n, j)) && NoDuplicates(Spread(b, kinds, n, j + 1))
    ensures NoDuplicates(Spread(b, kinds, n, j))
  {
    SpreadStep(b, kinds, n, j);
    HeadCounts(b, kinds, n, j);
    SpreadCounts(b, kinds, n, j + 1);
    AppendDistinct(Head(b, kinds, n, j), Spread(b, kinds, n, j + 1), kinds[0], j);
  }

  lemma AddToDistinct<T>(x: multiset<T>, bags: seq<multiset<T>>)
    requires NoDuplicates(bags)
    ensures NoDuplicates(AddTo(x, bags))
  {
    var r := AddTo(x, bags);
    forall i, i' | 0 <= i < i' < |r| ensures r[i] != r[i'] {
      assert r[i] - x == bags[i];
      assert r[i'] - x == bags[i'];
    }
  }

  /** Two lists without duplicates, told apart by the number of copies of `k`. */
  lemma AppendDistinct<T>(head: seq<multiset<T>>, tail: seq<multiset<T>>, k: T, j: nat)
    requires NoDuplicates(head) && NoDuplicates(tail)
    requires forall i :: 0 <= i < |head| ==> head[i][k] == j
    requires forall i :: 0 <= i < |tail| ==> tail[i][k] > j
    ensures NoDuplicates(head + tail)
  {
    var s := head + tail;
    forall i, i' | 0 <= i < i' < |s| ensures s[i] != s[i'] {
      if i < |head| && i' >= |head| {
        assert s[i][k] == j && s[i'][k] > j;
      }
    }
  }

  /** The bags run by ascending number of copies of `k`. */
  predicate Ascending<T>(bags: seq<multiset<T>>, k: T)
  {
    forall i, i' :: 0 <= i <= i' < |bags| ==> bags[i][k] <= bags[i'][k]
  }

  /** Two ascending lists, the first below the second, make one. */
  lemma AppendAscending<T>(head: seq<multiset<T>>, tail: seq<multiset<T>>, k: T, j: nat)
    requires forall i :: 0 <= i < |head| ==> head[i][k] == j
    requires forall i :: 0 <= i < |tail| ==> tail[i][k] > j
    requires Ascending(tail, k)
    ensures Ascending(head + tail, k)
  {
  }

  /** The list runs by ascending number of copies of `kinds[0]`. */
  lemma {:induction false} SpreadOrdered<T>(b: multiset<T>, kinds: seq<T>, n: nat, j: nat)
    requires |kinds| > 0 && NoDuplicates(kinds)
    ensures Ascending(Spread(b, kinds, n, j), kinds[0])
    decreases n + 1 - j
  {
    if !(j > n || j > b[kinds[0]]) {
      SpreadOrdered(b, kinds, n, j + 1);
      SpreadStep(b, kinds, n, j);
      HeadCounts(b, kinds, n, j);
      SpreadCounts(b, kinds, n, j + 1);
      AppendAscending(Head(b, kinds, n, j), Spread(b, kinds, n, j + 1), kinds[0], j);
    }
  }

  /** A bag of at least `n` elements has a sub-bag of exactly `n` elements. */
  lemma {:induction false} SubBagExists<T>(b: multiset<T>, n: nat) returns (x: multiset<T>)
    requires n <= |b|
    ensures x <= b && |x| == n
    decreases n
  {
    if n == 0 {
      x := multiset{};
    } else {
      var y :| y in b;
      var x' := SubBagExists(b - multiset{y}, n - 1);
      x := x' + multiset{y};
    }
  }

  /** Every bag can be listed: some sequence holds exactly its elements. */
  lemma {:induction false} Listing<T>(b: multiset<T>) returns (s: seq<T>)
    ensures multiset(s) == b
    decreases |b|
  {
    if b == multiset{} {
      s := [];
    } else {
      var y :| y in b;
      var rest := Listing(b - multiset{y});
      s := [y] + rest;
    }
  }
}
