/** Which stations a player's routes connect (src/ch/epfl/tchu/game/StationPartition.java): a
    union-find over an `int` array indexed by station id, flattened by `build`. */
module StationPartitions {
  import opened Stations

  // ----- what the partition means -----

  /** A `connect(s1, s2)` call, by station id. */
  type Edge = (nat, nat)

  /** `i` and `j` are joined by the `connect` calls `edges`: the smallest equivalence relation
      on ids that relates the two ends of every edge. Each edge merges the class of its first
      end with the class of its second. */
  function Joined(edges: seq<Edge>, i: int, j: int): bool
    decreases |edges|
  {
    if edges == [] then i == j
    else
      var e := edges[..|edges| - 1];
      var x := edges[|edges| - 1].0;
      var y := edges[|edges| - 1].1;
      Joined(e, i, j) || (Joined(e, i, x) && Joined(e, y, j)) || (Joined(e, i, y) && Joined(e, x, j))
  }

  lemma {:induction false} JoinedReflexive(edges: seq<Edge>, i: int)
    ensures Joined(edges, i, i)
    decreases |edges|
  {
    if edges != [] {
      JoinedReflexive(edges[..|edges| - 1], i);
    }
  }

  lemma {:induction false} JoinedSymmetric(edges: seq<Edge>, i: int, j: int)
    requires Joined(edges, i, j)
    ensures Joined(edges, j, i)
    decreases |edges|
  {
    if edges != [] {
      var e := edges[..|edges| - 1];
      var x := edges[|edges| - 1].0;
      var y := edges[|edges| - 1].1;
      if Joined(e, i, j) {
        JoinedSymmetric(e, i, j);
      } else if Joined(e, i, x) && Joined(e, y, j) {
        JoinedSymmetric(e, i, x);
        JoinedSymmetric(e, y, j);
      } else {
        JoinedSymmetric(e, i, y);
        JoinedSymmetric(e, x, j);
      }
    }
  }

  lemma {:induction false} JoinedTransitive(edges: seq<Edge>, i: int, j: int, k: int)
    requires Joined(edges, i, j) && Joined(edges, j, k)
    ensures Joined(edges, i, k)
    decreases |edges|
  {
    if edges != [] {
      var e := edges[..|edges| - 1];
      var x := edges[|edges| - 1].0;
      var y := edges[|edges| - 1].1;
      // Each of the two hops is either inside one old class or crosses the new edge.
      // Whatever the combination, `i` reaches `k` through old classes and at most one crossing.
      forall a, b, c | Joined(e, a, b) && Joined(e, b, c) ensures Joined(e, a, c) {
        JoinedTransitive(e, a, b, c);
      }
      forall a, b | Joined(e, a, b) ensures Joined(e, b, a) {
        JoinedSymmetric(e, a, b);
      }
      JoinedReflexive(e, x);
      JoinedReflexive(e, y);
    }
  }

  /** A further `connect` never separates joined stations. */
  lemma JoinedGrows(edges: seq<Edge>, e: Edge, i: int, j: int)
    requires Joined(edges, i, j)
    ensures Joined(edges + [e], i, j)
  {
    assert (edges + [e])[..|edges|] == edges;
  }

  /** A station no edge touches is joined to itself only. */
  lemma {:induction false} JoinedUntouched(edges: seq<Edge>, i: int, j: int)
    requires forall k :: 0 <= k < |edges| ==> edges[k].0 != i && edges[k].1 != i
    ensures Joined(edges, i, j) <==> i == j
    decreases |edges|
  {
    if edges != [] {
      var e := edges[..|edges| - 1];
      var x := edges[|edges| - 1].0;
      var y := edges[|edges| - 1].1;
      JoinedUntouched(e, i, j);
      JoinedUntouched(e, i, x);
      JoinedUntouched(e, i, y);
      if i == j {
        JoinedReflexive(e, i);
      }
    }
  }

  // ----- the forest the builder keeps -----

  /** `p` is a forest of parent links over `0..|p|-1`: following a link strictly raises the
      ghost `rank`, which never exceeds `bound`, so every path reaches a root (`p[r] == r`). */
  ghost predicate Forest(p: seq<int>, rank: seq<nat>, bound: nat)
  {
    |rank| == |p| &&
    forall i :: 0 <= i < |p| ==>
      0 <= p[i] < |p| && rank[i] <= bound && (p[i] != i ==> rank[i] < rank[p[i]])
  }

  /** The root of `i`'s tree: what `representative(i)` returns. */
  ghost function Root(p: seq<int>, rank: seq<nat>, bound: nat, i: int): (r: int)
    requires Forest(p, rank, bound) && 0 <= i < |p|
    ensures 0 <= r < |p| && p[r] == r
    ensures p[i] == i ==> r == i
    decreases bound - rank[i]
  {
    if p[i] == i then i else Root(p, rank, bound, p[i])
  }

  /** The roots of the forest stand for exactly the classes of `edges`. */
  ghost predicate Represents(p: seq<int>, rank: seq<nat>, bound: nat, edges: seq<Edge>)
    requires Forest(p, rank, bound)
  {
    forall i, j :: 0 <= i < |p| && 0 <= j < |p| ==>
      (Root(p, rank, bound, i) == Root(p, rank, bound, j) <==> Joined(edges, i, j))
  }

  /** Pointing root `r1` at root `r2` keeps a forest (with `r2`'s rank raised above `r1`'s) and
      sends every member of `r1`'s tree to `r2`. */
  lemma {:induction false} LinkRoots(p: seq<int>, rank: seq<nat>, bound: nat, r1: int, r2: int, i: int)
    requires Forest(p, rank, bound) && 0 <= r1 < |p| && 0 <= r2 < |p|
    requires p[r1] == r1 && p[r2] == r2 && r1 != r2
    requires 0 <= i < |p|
    ensures var rank' := rank[r2 := if rank[r2] > rank[r1] then rank[r2] else rank[r1] + 1];
            var bound' := if bound > rank[r1] then bound else rank[r1] + 1;
            Forest(p[r1 := r2], rank', bound') &&
            Root(p[r1 := r2], rank', bound', i)
              == if Root(p, rank, bound, i) == r1 then r2 else Root(p, rank, bound, i)
    decreases bound - rank[i]
  {
    var rank' := rank[r2 := if rank[r2] > rank[r1] then rank[r2] else rank[r1] + 1];
    var bound' := if bound > rank[r1] then bound else rank[r1] + 1;
    var p' := p[r1 := r2];
    assert Forest(p', rank', bound') by {
      forall k | 0 <= k < |p'|
        ensures 0 <= p'[k] < |p'| && rank'[k] <= bound' && (p'[k] != k ==> rank'[k] < rank'[p'[k]])
      {
        if k != r1 && p[k] != k {
          assert p'[k] == p[k] && rank[k] < rank[p[k]];
        }
      }
    }
    if p[i] != i {
      LinkRoots(p, rank, bound, r1, r2, p[i]);
    } else if i == r1 {
      assert p'[i] == r2 && p'[r2] == r2;
    }
  }

  /** Pointing `i` straight at its root keeps the forest and every node's root. */
  lemma {:induction false} Compress(p: seq<int>, rank: seq<nat>, bound: nat, i: int, k: int)
    requires Forest(p, rank, bound) && 0 <= i < |p| && 0 <= k < |p|
    ensures Forest(p[i := Root(p, rank, bound, i)], rank, bound)
    ensures Root(p[i := Root(p, rank, bound, i)], rank, bound, k) == Root(p, rank, bound, k)
    decreases bound - rank[k]
  {
    RootRank(p, rank, bound, i);
    var p' := p[i := Root(p, rank, bound, i)];
    if p[k] != k {
      Compress(p, rank, bound, i, p[k]);
      if k == i {
        assert p'[k] == Root(p, rank, bound, i);
      }
    }
  }

  /** A node that is not a root ranks below its root. */
  lemma {:induction false} RootRank(p: seq<int>, rank: seq<nat>, bound: nat, i: int)
    requires Forest(p, rank, bound) && 0 <= i < |p|
    ensures p[i] != i ==> rank[i] < rank[Root(p, rank, bound, i)]
    decreases bound - rank[i]
  {
    if p[i] != i {
      RootRank(p, rank, bound, p[i]);
    }
  }

  /** After linking root `r1` to root `r2`, two ids share a root exactly when they are joined
      by the old edges or the new edge `(x, y)` bridges their classes. */
  lemma LinkJoins(p: seq<int>, rank: seq<nat>, bound: nat, edges: seq<Edge>, x: nat, y: nat, i: int, j: int)
    requires Forest(p, rank, bound) && Represents(p, rank, bound, edges)
    requires x < |p| && y < |p| && 0 <= i < |p| && 0 <= j < |p|
    requires Root(p, rank, bound, x) != Root(p, rank, bound, y)
    ensures var r1 := Root(p, rank, bound, x);
            var r2 := Root(p, rank, bound, y);
            var rank' := rank[r2 := if rank[r2] > rank[r1] then rank[r2] else rank[r1] + 1];
            var bound' := if bound > rank[r1] then bound else rank[r1] + 1;
            Forest(p[r1 := r2], rank', bound') &&
            ((Root(p[r1 := r2], rank', bound', i) == Root(p[r1 := r2], rank', bound', j))
              <==> Joined(edges + [(x, y)], i, j))
  {
    var r1 := Root(p, rank, bound, x);
    var r2 := Root(p, rank, bound, y);
    LinkRoots(p, rank, bound, r1, r2, i);
    LinkRoots(p, rank, bound, r1, r2, j);
    var edges' := edges + [(x, y)];
    assert edges'[..|edges'| - 1] == edges;
    assert Joined(edges', i, j) == (Joined(edges, i, j) || (Joined(edges, i, x) && Joined(edges, y, j)) ||
                                   (Joined(edges, i, y) && Joined(edges, x, j)));
    var ri := Root(p, rank, bound, i);
    var rj := Root(p, rank, bound, j);
    assert Joined(edges, i, j) <==> ri == rj;
    assert Joined(edges, i, x) <==> ri == r1;
    assert Joined(edges, y, j) <==> r2 == rj;
    assert Joined(edges, i, y) <==> ri == r2;
    assert Joined(edges, x, j) <==> r1 == rj;
  }

  /** Linking the roots of an edge's two ends keeps `Represents` with the edge added; when they
      already share a root, nothing changes. */
  lemma ConnectRepresents(p: seq<int>, rank: seq<nat>, bound: nat, edges: seq<Edge>, x: nat, y: nat)
    requires Forest(p, rank, bound) && Represents(p, rank, bound, edges)
    requires x < |p| && y < |p|
    ensures var r1 := Root(p, rank, bound, x);
            var r2 := Root(p, rank, bound, y);
            var rank', bound' := LinkRank(rank, r1, r2), LinkBound(rank, bound, r1, r2);
            Forest(p[r1 := r2], rank', bound') && Represents(p[r1 := r2], rank', bound', edges + [(x, y)])
  {
    var r1 := Root(p, rank, bound, x);
    var r2 := Root(p, rank, bound, y);
    if r1 == r2 {
      assert p[r1 := r2] == p;
      SameRootRepresents(p, rank, bound, edges, x, y);
    } else {
      LinkRepresents(p, rank, bound, edges, x, y);
    }
  }

  /** An edge inside one class changes no class. */
  lemma SameRootRepresents(p: seq<int>, rank: seq<nat>, bound: nat, edges: seq<Edge>, x: nat, y: nat)
    requires Forest(p, rank, bound) && Represents(p, rank, bound, edges)
    requires x < |p| && y < |p| && Root(p, rank, bound, x) == Root(p, rank, bound, y)
    ensures Represents(p, rank, bound, edges + [(x, y)])
  {
    var r := Root(p, rank, bound, x);
    var edges' := edges + [(x, y)];
    assert edges'[..|edges'| - 1] == edges;
    forall i, j | 0 <= i < |p| && 0 <= j < |p|
      ensures Root(p, rank, bound, i) == Root(p, rank, bound, j) <==> Joined(edges', i, j)
    {
      assert Joined(edges, i, x) <==> Root(p, rank, bound, i) == r;
      assert Joined(edges, y, j) <==> r == Root(p, rank, bound, j);
      assert Joined(edges, i, y) <==> Root(p, rank, bound, i) == r;
      assert Joined(edges, x, j) <==> r == Root(p, rank, bound, j);
    }
  }

  /** An edge across two classes merges them: the first root now points at the second. */
  lemma LinkRepresents(p: seq<int>, rank: seq<nat>, bound: nat, edges: seq<Edge>, x: nat, y: nat)
    requires Forest(p, rank, bound) && Represents(p, rank, bound, edges)
    requires x < |p| && y < |p| && Root(p, rank, bound, x) != Root(p, rank, bound, y)
    ensures var r1 := Root(p, rank, bound, x);
            var r2 := Root(p, rank, bound, y);
            var rank', bound' := LinkRank(rank, r1, r2), LinkBound(rank, bound, r1, r2);
            Forest(p[r1 := r2], rank', bound') && Represents(p[r1 := r2], rank', bound', edges + [(x, y)])
  {
    var r1 := Root(p, rank, bound, x);
    var r2 := Root(p, rank, bound, y);
    var rank', bound' := LinkRank(rank, r1, r2), LinkBound(rank, bound, r1, r2);
    assert rank' == rank[r2 := if rank[r2] > rank[r1] then rank[r2] else rank[r1] + 1];
    assert bound' == if bound > rank[r1] then bound else rank[r1] + 1;
    LinkRoots(p, rank, bound, r1, r2, x);
    forall i, j | 0 <= i < |p| && 0 <= j < |p|
      ensures (Root(p[r1 := r2], rank', bound', i) == Root(p[r1 := r2], rank', bound', j))
              <==> Joined(edges + [(x, y)], i, j)
    {
      LinkJoins(p, rank, bound, edges, x, y, i, j);
    }
  }

  /** Everything the builder keeps true: a forest over `0..|p|-1` whose roots stand for the
      classes of `edges`, all of whose ends are ids in range. */
  ghost predicate Invariant(p: seq<int>, rank: seq<nat>, bound: nat, edges: seq<Edge>)
  {
    Forest(p, rank, bound) && Represents(p, rank, bound, edges) &&
    forall k :: 0 <= k < |edges| ==> edges[k].0 < |p| && edges[k].1 < |p|
  }

  /** The ranks after pointing root `r1` at root `r2`: `r2` rises above `r1`. */
  ghost function LinkRank(rank: seq<nat>, r1: int, r2: int): seq<nat>
    requires 0 <= r1 < |rank| && 0 <= r2 < |rank|
  {
    if r1 == r2 then rank else rank[r2 := if rank[r2] > rank[r1] then rank[r2] else rank[r1] + 1]
  }

  ghost function LinkBound(rank: seq<nat>, bound: nat, r1: int, r2: int): nat
    requires 0 <= r1 < |rank|
  {
    if r1 == r2 || bound > rank[r1] then bound else rank[r1] + 1
  }

  lemma ConnectInvariant(p: seq<int>, rank: seq<nat>, bound: nat, edges: seq<Edge>, x: nat, y: nat)
    requires Invariant(p, rank, bound, edges) && x < |p| && y < |p|
    ensures var r1 := Root(p, rank, bound, x);
            var r2 := Root(p, rank, bound, y);
            Invariant(p[r1 := r2], LinkRank(rank, r1, r2), LinkBound(rank, bound, r1, r2), edges + [(x, y)])
  {
    ConnectRepresents(p, rank, bound, edges, x, y);
    EdgesInRange(edges, x, y, |p|);
  }

  /** Adding an edge between ids below `n` keeps every edge's ends below `n`. */
  lemma EdgesInRange(edges: seq<Edge>, x: nat, y: nat, n: nat)
    requires (forall k :: 0 <= k < |edges| ==> edges[k].0 < n && edges[k].1 < n) && x < n && y < n
    ensures forall k :: 0 <= k < |edges + [(x, y)]| ==> (edges + [(x, y)])[k].0 < n && (edges + [(x, y)])[k].1 < n
  {
    var edges' := edges + [(x, y)];
    forall k | 0 <= k < |edges'| ensures edges'[k].0 < n && edges'[k].1 < n {
      if k < |edges| { assert edges'[k] == edges[k]; }
    }
  }

  /** One `connect(x, y)` on the parent links `p`, as a whole: the invariant holds with the edge
      added, `x` and `y` now share a root, and pairs that shared a root still do. */
  lemma ConnectStep(p: seq<int>, rank: seq<nat>, bound: nat, edges: seq<Edge>, x: nat, y: nat)
    requires Invariant(p, rank, bound, edges) && x < |p| && y < |p|
    ensures var r1 := Root(p, rank, bound, x);
            var r2 := Root(p, rank, bound, y);
            var p', rank', bound' := p[r1 := r2], LinkRank(rank, r1, r2), LinkBound(rank, bound, r1, r2);
            Invariant(p', rank', bound', edges + [(x, y)]) &&
            Root(p', rank', bound', x) == Root(p', rank', bound', y) &&
            forall i, j :: 0 <= i < |p| && 0 <= j < |p| && Joined(edges, i, j) ==>
              Root(p', rank', bound', i) == Root(p', rank', bound', j)
  {
    var r1 := Root(p, rank, bound, x);
    var r2 := Root(p, rank, bound, y);
    var p', rank', bound' := p[r1 := r2], LinkRank(rank, r1, r2), LinkBound(rank, bound, r1, r2);
    var edges' := edges + [(x, y)];
    ConnectInvariant(p, rank, bound, edges, x, y);
    assert Represents(p', rank', bound', edges');
    assert edges'[..|edges'| - 1] == edges;
    JoinedReflexive(edges, x);
    JoinedReflexive(edges, y);
    assert Joined(edges', x, y);
    forall i, j | 0 <= i < |p| && 0 <= j < |p| && Joined(edges, i, j)
      ensures Root(p', rank', bound', i) == Root(p', rank', bound', j)
    {
      JoinedGrows(edges, (x, y), i, j);
    }
  }

  // ----- the builder -----

  class Builder {
    /** The parent links, indexed by station id. */
    var a: array<int>
    ghost var rank: seq<nat>
    ghost var bound: nat
    /** The `connect` calls made so far. */
    ghost var edges: seq<Edge>

    ghost predicate Valid()
      reads this, a
    {
      Invariant(a[..], rank, bound, edges)
    }

    /** `Builder(stationCount)`: every station is its own representative. */
    constructor(stationCount: nat)
      ensures Valid() && fresh(a) && a.Length == stationCount && edges == []
      ensures forall i :: 0 <= i < stationCount ==> a[i] == i
    {
      var links := new int[stationCount];
      for i := 0 to stationCount
        invariant forall k :: 0 <= k < i ==> links[k] == k
      {
        links[i] := i;
      }
      a := links;
      rank := seq(stationCount, i => 0);
      bound := 0;
      edges := [];
      new;
      assert forall k :: 0 <= k < stationCount ==> a[..][k] == k;
      forall i, j | 0 <= i < a.Length && 0 <= j < a.Length
        ensures Root(a[..], rank, bound, i) == Root(a[..], rank, bound, j) <==> Joined(edges, i, j)
      {
      }
    }

    /** `representative(sid)`: follows the parent links to the root. */
    method Representative(sid: nat) returns (r: nat)
      requires Valid() && sid < a.Length
      ensures r == Root(a[..], rank, bound, sid)
    {
      r := sid;
      while a[r] != r
        invariant r < a.Length && Root(a[..], rank, bound, r) == Root(a[..], rank, bound, sid)
        decreases bound - rank[r]
      {
        r := a[r];
      }
    }

    /** `connect(s1, s2)`: `s1`'s root now points at `s2`'s root, so the two stations share a
        representative and every earlier pair stays joined. */
    method Connect(s1: Station, s2: Station)
      requires Valid() && s1.id < a.Length && s2.id < a.Length
      modifies this, a
      ensures Valid() && a == old(a)
      ensures edges == old(edges) + [(s1.id, s2.id)]
      ensures Root(a[..], rank, bound, s1.id) == Root(a[..], rank, bound, s2.id)
      ensures forall i, j :: 0 <= i < a.Length && 0 <= j < a.Length && old(Joined(edges, i, j)) ==>
                Root(a[..], rank, bound, i) == Root(a[..], rank, bound, j)
    {
      var r1 := Representative(s1.id);
      var r2 := Representative(s2.id);
      ghost var p0 := a[..];
      ConnectStep(p0, rank, bound, edges, s1.id, s2.id);
      a[r1] := r2;
      assert a[..] == p0[r1 := r2];
      rank, bound := LinkRank(rank, r1, r2), LinkBound(rank, bound, r1, r2);
      edges := edges + [(s1.id, s2.id)];
    }

    /** `build()`: every entry is replaced by its representative, in place, and the result is a
        partition whose classes are those of the `connect` calls. */
    method Build() returns (partition: StationPartition)
      requires Valid()
      modifies a
      ensures Valid() && unchanged(this)
      ensures partition.links == a[..]
      ensures forall i :: 0 <= i < a.Length ==> a[i] == old(Root(a[..], rank, bound, i))
      ensures forall i :: 0 <= i < a.Length ==> 0 <= a[i] < a.Length && a[a[i]] == a[i]
      ensures forall i, j :: 0 <= i < a.Length && 0 <= j < a.Length ==>
                (partition.links[i] == partition.links[j] <==> Joined(edges, i, j))
    {
      ghost var p0 := a[..];
      for i := 0 to a.Length
        invariant Valid()
        invariant forall k :: 0 <= k < a.Length ==> Root(a[..], rank, bound, k) == Root(p0, rank, bound, k)
        invariant forall k :: 0 <= k < i ==> a[k] == Root(p0, rank, bound, k)
      {
        var r := Representative(i);
        Compress(a[..], rank, bound, i, i);
        forall k | 0 <= k < a.Length
          ensures Root(a[..][i := r], rank, bound, k) == Root(a[..], rank, bound, k)
        {
          Compress(a[..], rank, bound, i, k);
        }
        ghost var p := a[..];
        a[i] := r;
        assert a[..] == p[i := r];
      }
      partition := StationPartition(a[..]);
      assert forall k :: 0 <= k < a.Length ==> a[..][k] == a[k];
    }
  }

  // ----- the built partition -----

  datatype StationPartition = StationPartition(links: seq<int>)

  /** `connected(s1, s2)`: equal representatives when both ids are in range, otherwise equal
      ids. */
  function Connected(partition: StationPartition, s1: Station, s2: Station): bool
  {
    if s1.id < |partition.links| && s2.id < |partition.links| then
      partition.links[s1.id] == partition.links[s2.id]
    else s1.id == s2.id
  }

  /** Whatever the links, `connected` is an equivalence relation on stations. */
  lemma ConnectedEquivalence(partition: StationPartition, s1: Station, s2: Station, s3: Station)
    ensures Connected(partition, s1, s1)
    ensures Connected(partition, s1, s2) ==> Connected(partition, s2, s1)
    ensures Connected(partition, s1, s2) && Connected(partition, s2, s3) ==> Connected(partition, s1, s3)
  {
  }

  /** A partition whose links of in-range ids agree exactly with `edges`, all of whose ends are in
      range, connects two stations exactly when `edges` joins their ids. */
  lemma ConnectedJoined(partition: StationPartition, edges: seq<Edge>, s1: Station, s2: Station)
    requires forall k :: 0 <= k < |edges| ==> edges[k].0 < |partition.links| && edges[k].1 < |partition.links|
    requires forall i, j :: 0 <= i < |partition.links| && 0 <= j < |partition.links| ==>
               (partition.links[i] == partition.links[j] <==> Joined(edges, i, j))
    ensures Connected(partition, s1, s2) <==> Joined(edges, s1.id, s2.id)
  {
    if s1.id >= |partition.links| {
      JoinedUntouched(edges, s1.id, s2.id);
    } else if s2.id >= |partition.links| {
      JoinedUntouched(edges, s2.id, s1.id);
      if Joined(edges, s1.id, s2.id) {
        JoinedSymmetric(edges, s1.id, s2.id);
      }
    }
  }
}
