/**
 * The road network of the delivery service as a value: for every city name,
 * the distances to its neighbours, keyed by the neighbours' names (cities are
 * hashed and compared by name). A path is a list of city names; it is a walk
 * when every city in it is a neighbour of the one before, and its length is
 * the sum of those distances.
 */
module DeliveryGraph {

  datatype Option<T> = None | Some(value: T)

  type Graph = map<string, map<string, int>>

  /** Every neighbour is itself a city of the graph. */
  predicate Closed(g: Graph)
  {
    forall a, b :: a in g && b in g[a] ==> b in g
  }

  /** Every stored distance is at least 0. */
  predicate NonNegative(g: Graph)
  {
    forall a, b :: a in g && b in g[a] ==> g[a][b] >= 0
  }

  /** Roads go both ways with the same distance. */
  predicate Symmetric(g: Graph)
  {
    forall a, b :: a in g && b in g[a] ==> b in g && a in g[b] && g[b][a] == g[a][b]
  }

  /** What a map keeps true of its roads: they lead to cities, both ways, at non-negative distances, never to the same city. */
  predicate Roads(g: Graph)
  {
    Closed(g) && Symmetric(g) && NonNegative(g) && forall a :: a in g ==> a !in g[a]
  }

  predicate Adjacent(g: Graph, a: string, b: string)
  {
    a in g && b in g[a]
  }

  /** Every city of p is a neighbour of the one before it. */
  predicate Walk(g: Graph, p: seq<string>)
  {
    forall i :: 0 <= i < |p| - 1 ==> Adjacent(g, p[i], p[i + 1])
  }

  /** The sum of the distances between consecutive cities of a walk. */
  function Length(g: Graph, p: seq<string>): int
    requires Walk(g, p)
  {
    if |p| < 2 then 0
    else
      assert Walk(g, p[..|p| - 1]) && Adjacent(g, p[|p| - 2], p[|p| - 1]);
      Length(g, p[..|p| - 1]) + g[p[|p| - 2]][p[|p| - 1]]
  }

  /** With non-negative distances a walk has a non-negative length. */
  lemma {:induction false} LengthNonNegative(g: Graph, p: seq<string>)
    requires NonNegative(g) && Walk(g, p)
    ensures Length(g, p) >= 0
  {
    if |p| >= 2 {
      assert Walk(g, p[..|p| - 1]);
      LengthNonNegative(g, p[..|p| - 1]);
      assert Adjacent(g, p[|p| - 2], p[|p| - 1]);
    }
  }

  /** With non-negative distances a prefix of a walk is no longer than the walk. */
  lemma {:induction false} LengthPrefix(g: Graph, p: seq<string>, n: nat)
    requires NonNegative(g) && Walk(g, p) && n <= |p|
    ensures Walk(g, p[..n]) && Length(g, p[..n]) <= Length(g, p)
    decreases |p|
  {
    if n < |p| && |p| >= 2 {
      var q := p[..|p| - 1];
      assert Walk(g, q) && Adjacent(g, p[|p| - 2], p[|p| - 1]);
      assert q[..n] == p[..n];
      LengthPrefix(g, q, n);
    } else if n == |p| {
      assert p[..n] == p;
    }
  }

  /** The length of a walk is the length of a prefix plus the length of the rest, from the prefix's last city on. */
  lemma {:induction false} LengthSplit(g: Graph, p: seq<string>, n: nat)
    requires Walk(g, p) && 1 <= n <= |p|
    ensures Walk(g, p[..n]) && Walk(g, p[n - 1..])
    ensures Length(g, p) == Length(g, p[..n]) + Length(g, p[n - 1..])
    decreases |p|
  {
    if n == |p| {
      assert p[..n] == p;
    } else {
      var q := p[..|p| - 1];
      assert Walk(g, q) && Adjacent(g, p[|p| - 2], p[|p| - 1]);
      assert q[..n] == p[..n];
      LengthSplit(g, q, n);
      var r := p[n - 1..];
      assert r[..|r| - 1] == q[n - 1..];
      assert r[|r| - 2] == p[|p| - 2] && r[|r| - 1] == p[|p| - 1];
    }
  }

  /** A prefix of a walk one city longer than another is longer by the road between its last two cities. */
  lemma LengthExtend(g: Graph, p: seq<string>, k: nat)
    requires Walk(g, p) && 1 <= k < |p|
    ensures Walk(g, p[..k]) && Walk(g, p[..k + 1]) && Adjacent(g, p[k - 1], p[k])
    ensures Length(g, p[..k + 1]) == Length(g, p[..k]) + g[p[k - 1]][p[k]]
  {
    var q := p[..k + 1];
    assert q[..|q| - 1] == p[..k];
    assert Adjacent(g, p[k - 1], p[k]);
  }

  /** The length of a walk with a city put in front of it. */
  lemma {:induction false} LengthCons(g: Graph, a: string, p: seq<string>)
    requires Walk(g, [a] + p) && p != []
    ensures Walk(g, p) && Adjacent(g, a, p[0])
    ensures Length(g, [a] + p) == g[a][p[0]] + Length(g, p)
    decreases |p|
  {
    var q := [a] + p;
    assert q[1..] == p;
    assert Adjacent(g, q[0], q[1]);
    if |p| >= 2 {
      assert q[..|q| - 1] == [a] + p[..|p| - 1];
      assert Walk(g, q[..|q| - 1]);
      LengthCons(g, a, p[..|p| - 1]);
    }
  }

  /** There is a walk from a to b. */
  ghost predicate Reachable(g: Graph, a: string, b: string)
  {
    exists p :: Walk(g, p) && |p| > 0 && p[0] == a && p[|p| - 1] == b
  }

  /** The map has a single component: every city is reachable from every other. */
  ghost predicate Connected(g: Graph)
  {
    forall a, b :: a in g && b in g ==> Reachable(g, a, b)
  }

  /** A walk continued by a walk from its last city is a walk, as long as both together. */
  lemma {:induction false} WalkJoin(g: Graph, p: seq<string>, q: seq<string>)
    requires Walk(g, p) && Walk(g, q) && p != [] && q != [] && p[|p| - 1] == q[0]
    ensures Walk(g, p + q[1..])
    ensures (p + q[1..])[|p + q[1..]| - 1] == q[|q| - 1]
    ensures Length(g, p + q[1..]) == Length(g, p) + Length(g, q)
  {
    var r := p + q[1..];
    forall i | 0 <= i < |r| - 1
      ensures Adjacent(g, r[i], r[i + 1])
    {
      if i < |p| - 1 {
        assert r[i] == p[i] && r[i + 1] == p[i + 1];
      } else {
        assert r[i] == q[i - |p| + 1] && r[i + 1] == q[i - |p| + 2];
      }
    }
    assert r[..|p|] == p;
    assert r[|p| - 1..] == q;
    LengthSplit(g, r, |p|);
  }

  /** Every city of a walk that starts in a closed graph is a city of the graph. */
  lemma WalkInGraph(g: Graph, p: seq<string>)
    requires Closed(g) && Walk(g, p) && |p| > 0 && p[0] in g
    ensures forall i :: 0 <= i < |p| ==> p[i] in g
  {
    forall i | 0 < i < |p|
      ensures p[i] in g
    {
      assert Adjacent(g, p[i - 1], p[i]);
    }
  }

  /** A suffix of a walk is a walk. */
  lemma WalkSuffix(g: Graph, p: seq<string>, k: nat)
    requires Walk(g, p) && k <= |p|
    ensures Walk(g, p[k..])
  {
    forall i | 0 <= i < |p[k..]| - 1
      ensures Adjacent(g, p[k..][i], p[k..][i + 1])
    {
      assert p[k..][i] == p[k + i] && p[k..][i + 1] == p[k + i + 1];
    }
  }

  /** A prefix of a walk is a walk. */
  lemma WalkPrefix(g: Graph, p: seq<string>, n: nat)
    requires Walk(g, p) && n <= |p|
    ensures Walk(g, p[..n])
  {
  }

  /** Any walk that starts inside a set of cities and ends outside it crosses a road leaving the set. */
  lemma {:induction false} WalkLeaves(g: Graph, p: seq<string>, inside: set<string>)
    requires Walk(g, p) && |p| > 0 && p[0] in inside && p[|p| - 1] !in inside
    ensures exists i :: 0 <= i < |p| - 1 && p[i] in inside && p[i + 1] !in inside && Adjacent(g, p[i], p[i + 1])
  {
    if p[1] !in inside {
      assert Adjacent(g, p[0], p[1]);
    } else {
      WalkLeaves(g, p[1..], inside);
      var i :| 0 <= i < |p[1..]| - 1 && p[1..][i] in inside && p[1..][i + 1] !in inside
        && Adjacent(g, p[1..][i], p[1..][i + 1]);
      assert p[i + 1] == p[1..][i] && p[i + 2] == p[1..][i + 1];
    }
  }

  /**
   * The cities have distinct names in p at positions of strictly increasing
   * rank; rank numbers every city of p.
   */
  predicate RankedIncreasing(p: seq<string>, rank: map<string, nat>)
  {
    (forall i :: 0 <= i < |p| ==> p[i] in rank)
    && forall i, j :: 0 <= i < j < |p| ==> rank[p[i]] < rank[p[j]]
  }

  /** Cities at strictly increasing ranks are distinct. */
  lemma RankedDistinct(p: seq<string>, rank: map<string, nat>)
    requires RankedIncreasing(p, rank)
    ensures forall i, j :: 0 <= i < j < |p| ==> p[i] != p[j]
  {
  }

  /** A set inside another of the same size is that set. */
  lemma {:induction false} SubsetOfSameSize<T>(small: set<T>, big: set<T>)
    requires small <= big && |small| >= |big|
    ensures small == big
  {
    if x :| x in big && x !in small {
      assert |big - {x}| == |big| - 1;
      SubsetSize(small, big - {x});
    }
  }

  /** A subset is no larger than the set. */
  lemma {:induction false} SubsetSize<T>(small: set<T>, big: set<T>)
    requires small <= big
    ensures |small| <= |big|
    decreases big
  {
    if small != {} {
      var x :| x in small;
      SubsetSize(small - {x}, big - {x});
    }
  }
}
