/**
 * Where tiles wait between rounds: the used-tiles store and the bag.
 *
 * Boards give the tiles they discard to the used-tiles store, which drops
 * the starting-player marker. The bag hands out tiles at random; when it
 * holds fewer than asked for it first takes everything from the used-tiles
 * store. Randomness comes from a permutation generator: the k-th draw from
 * a bag of n tiles uses the permutation permutations(k, n) of 0..n-1 and
 * hands out the tiles at its first `count` positions.
 */
module AzulBag {
  import opened AzulTypes

  /** The used-tiles store: discarded tiles waiting to refill the bag. */
  class UsedTiles {
    var tiles: seq<Tile>

    /** A new store is empty. */
    constructor()
      ensures tiles == []
    {
      tiles := [];
    }

    /** Stores the given tiles in order, without one starting-player marker if there is one. */
    method Give(given: seq<Tile>)
      modifies this
      ensures tiles == old(tiles) + RemoveFirst(given, StartingPlayer)
      ensures multiset(tiles) == old(multiset(tiles)) + multiset(given)
        - (if StartingPlayer in given then multiset{StartingPlayer} else multiset{})
    {
      var kept := given;
      if StartingPlayer in kept {
        kept := RemoveFirst(kept, StartingPlayer);
      }
      tiles := tiles + kept;
    }

    /** Hands out every stored tile and leaves the store empty. */
    method TakeAll() returns (taken: seq<Tile>)
      modifies this
      ensures taken == old(tiles) && tiles == []
    {
      taken := tiles;
      tiles := [];
    }

    /** Each tile type present with its count, sorted by letter. */
    function State(): (r: seq<(Tile, nat)>)
      reads this
      ensures forall i :: 0 <= i < |r| ==> r[i].1 == Count(tiles, r[i].0) > 0
      ensures forall t :: t in tiles ==> (t, Count(tiles, t)) in r
      ensures forall i, j :: 0 <= i < j < |r| ==> Code(r[i].0) < Code(r[j].0)
    {
      TileCounts(tiles)
    }
  }

  /** p lists each of 0..n-1 exactly once. */
  predicate IsPermutation(p: seq<nat>, n: nat)
  {
    |p| == n
    && (forall i :: 0 <= i < n ==> p[i] < n)
    && (forall i, j :: 0 <= i < j < n ==> p[i] != p[j])
  }

  /** Every position q lists is below n. */
  predicate Below(q: seq<nat>, n: nat)
  {
    forall i :: 0 <= i < |q| ==> q[i] < n
  }

  /** q lists no position twice. */
  predicate Distinct(q: seq<nat>)
  {
    forall i, j :: 0 <= i < j < |q| ==> q[i] != q[j]
  }

  /** The tiles of s at the positions q lists, in that order. */
  function Gather(s: seq<Tile>, q: seq<nat>): (r: seq<Tile>)
    requires Below(q, |s|)
    ensures |r| == |q| && forall i :: 0 <= i < |q| ==> r[i] == s[q[i]]
  {
    seq(|q|, i requires 0 <= i < |q| => s[q[i]])
  }

  /** Gathering splits around any listed position. */
  lemma GatherSplit(s: seq<Tile>, q: seq<nat>, k: nat)
    requires Below(q, |s|) && k < |q|
    ensures Below(q[..k], |s|) && Below(q[k + 1..], |s|)
    ensures Gather(s, q) == Gather(s, q[..k]) + [s[q[k]]] + Gather(s, q[k + 1..])
  {
  }

  /** Gathering a concatenation concatenates the gathered tiles. */
  lemma GatherConcat(s: seq<Tile>, a: seq<nat>, b: seq<nat>)
    requires Below(a, |s|) && Below(b, |s|)
    ensures Below(a + b, |s|)
    ensures Gather(s, a + b) == Gather(s, a) + Gather(s, b)
  {
  }

  /** Gathering only positions below m reads nothing past s[..m]. */
  lemma GatherPrefix(s: seq<Tile>, q: seq<nat>, m: nat)
    requires m <= |s| && Below(q, m)
    ensures Gather(s[..m], q) == Gather(s, q)
  {
  }

  /** Dropping the entry that lists the last position leaves distinct positions below it. */
  lemma {:induction false} DropLast(q: seq<nat>, k: nat, n: nat)
    requires Below(q, n + 1) && Distinct(q) && k < |q| && q[k] == n
    ensures Below(q[..k] + q[k + 1..], n) && Distinct(q[..k] + q[k + 1..])
  {
    var rest := q[..k] + q[k + 1..];
    assert forall i :: 0 <= i < |rest| ==> rest[i] == (if i < k then q[i] else q[i + 1]);
  }

  /** Tiles picked at distinct positions are a sub-multiset of the list they were picked from. */
  lemma {:induction false} GatherSubMultiset(s: seq<Tile>, q: seq<nat>)
    requires Below(q, |s|) && Distinct(q)
    ensures multiset(Gather(s, q)) <= multiset(s)
    decreases |s|, 1
  {
    if s == [] {
    } else if k :| 0 <= k < |q| && q[k] == |s| - 1 {
      GatherWithLast(s, q, k);
    } else {
      var last := |s| - 1;
      assert Below(q, last);
      GatherSubMultiset(s[..last], q);
      GatherPrefix(s, q, last);
      assert s == s[..last] + [s[last]];
    }
  }

  /** The case of GatherSubMultiset where the last position of s is picked, at index k of q. */
  lemma {:induction false} GatherWithLast(s: seq<Tile>, q: seq<nat>, k: nat)
    requires Below(q, |s|) && Distinct(q)
    requires k < |q| && q[k] == |s| - 1
    ensures multiset(Gather(s, q)) <= multiset(s)
    decreases |s|, 0
  {
    var last := |s| - 1;
    var front, back := q[..k], q[k + 1..];
    DropLast(q, k, last);
    GatherSubMultiset(s[..last], front + back);
    GatherAroundLast(s, q, k);
    InsertKeepsSubMultiset(Gather(s, front), s[last], Gather(s, back), s[..last]);
    assert s == s[..last] + [s[last]];
  }

  /** Gathering q is gathering the other positions of q from s without its last tile, with that tile inserted. */
  lemma {:induction false} GatherAroundLast(s: seq<Tile>, q: seq<nat>, k: nat)
    requires Below(q, |s|) && Distinct(q)
    requires k < |q| && q[k] == |s| - 1
    ensures Below(q[..k] + q[k + 1..], |s| - 1)
    ensures Gather(s, q) == Gather(s, q[..k]) + [s[|s| - 1]] + Gather(s, q[k + 1..])
    ensures Gather(s[..|s| - 1], q[..k] + q[k + 1..]) == Gather(s, q[..k]) + Gather(s, q[k + 1..])
  {
    var last := |s| - 1;
    var front, back := q[..k], q[k + 1..];
    DropLast(q, k, last);
    GatherSplit(s, q, k);
    assert Below(front, last) && Below(back, last);
    GatherConcat(s[..last], front, back);
    GatherPrefix(s, front, last);
    GatherPrefix(s, back, last);
  }

  /** Inserting one tile into a sub-multiset of a list keeps it a sub-multiset of the list with that tile appended. */
  lemma {:induction false} InsertKeepsSubMultiset(a: seq<Tile>, x: Tile, b: seq<Tile>, t: seq<Tile>)
    requires multiset(a + b) <= multiset(t)
    ensures multiset(a + [x] + b) <= multiset(t + [x])
  {
    calc {
      multiset(a + [x] + b);
      multiset(a) + multiset{x} + multiset(b);
      multiset(a + b) + multiset{x};
    }
    assert multiset(t + [x]) == multiset(t) + multiset{x};
  }

  /** After removing the tiles of `done` from `from`, `rest` is left and still holds the tiles of `todo`. */
  ghost predicate RemovalProgress(from: seq<Tile>, done: seq<Tile>, todo: seq<Tile>, rest: seq<Tile>)
  {
    rest == RemoveEach(from, done)
    && multiset(rest) + multiset(done) == multiset(from)
    && multiset(todo) <= multiset(rest)
  }

  /** Removing the next handed-out tile keeps the removal on track. */
  lemma {:induction false} RemovalStep(from: seq<Tile>, done: seq<Tile>, t: Tile, todo: seq<Tile>, rest: seq<Tile>)
    requires RemovalProgress(from, done, [t] + todo, rest)
    ensures t in rest
    ensures RemovalProgress(from, done + [t], todo, RemoveFirst(rest, t))
  {
    var m := multiset(rest);
    assert multiset([t] + todo) == multiset{t} + multiset(todo);
    assert t in m;
    var m' := multiset(RemoveFirst(rest, t));
    assert m' == m - multiset{t};
    assert multiset(done + [t]) == multiset(done) + multiset{t};
    assert m' + multiset(done + [t]) == m + multiset(done);
    assert multiset(todo) <= m';
    RemoveEachSnoc(from, done, t);
  }

  /** RemovalStep at position i of the list being removed. */
  lemma {:induction false} RemoveNext(from: seq<Tile>, taken: seq<Tile>, i: nat, rest: seq<Tile>)
    requires i < |taken| && RemovalProgress(from, taken[..i], taken[i..], rest)
    ensures RemovalProgress(from, taken[..i + 1], taken[i + 1..], RemoveFirst(rest, taken[i]))
  {
    assert taken[i..] == [taken[i]] + taken[i + 1..];
    assert taken[..i + 1] == taken[..i] + [taken[i]];
    RemovalStep(from, taken[..i], taken[i], taken[i + 1..], rest);
  }

  /** Removes the tiles of `taken` from `from` one by one, each by its first occurrence. */
  method RemoveAll(from: seq<Tile>, taken: seq<Tile>) returns (rest: seq<Tile>)
    requires multiset(taken) <= multiset(from)
    ensures rest == RemoveEach(from, taken)
    ensures multiset(rest) + multiset(taken) == multiset(from)
  {
    rest := from;
    var i := 0;
    while i < |taken|
      invariant i <= |taken|
      invariant RemovalProgress(from, taken[..i], taken[i..], rest)
    {
      RemoveNext(from, taken, i, rest);
      rest := RemoveFirst(rest, taken[i]);
      i := i + 1;
    }
    assert taken[..i] == taken;
  }

  /**
   * The bag. `permutations(k, n)` stands for the permutation the generator
   * returns at its k-th call, for a bag of n tiles; `draws` counts the calls.
   */
  class Bag {
    var tiles: seq<Tile>
    const used: UsedTiles
    const permutations: (nat, nat) -> seq<nat>
    var draws: nat

    /** The generator only ever returns permutations. */
    ghost predicate Valid()
    {
      forall k, n :: IsPermutation(permutations(k, n), n)
    }

    constructor(initial: seq<Tile>, used: UsedTiles, permutations: (nat, nat) -> seq<nat>)
      requires forall k, n :: IsPermutation(permutations(k, n), n)
      ensures Valid()
      ensures tiles == initial && this.used == used && this.permutations == permutations && draws == 0
    {
      tiles := initial;
      this.used := used;
      this.permutations := permutations;
      draws := 0;
    }

    /** The bag contents a draw of `count` tiles picks from: refilled from the used tiles when too few. */
    ghost function Refilled(count: nat, bag: seq<Tile>, stored: seq<Tile>): seq<Tile>
    {
      if count > |bag| then bag + stored else bag
    }

    /**
     * Draws `count` tiles. While the bag holds fewer than `count` it takes
     * all used tiles; when even the bag and the used tiles together hold
     * fewer than `count`, taking the used tiles again brings nothing and the
     * draw never finishes, so such a call is excluded.
     */
    method Take(count: nat) returns (taken: seq<Tile>)
      requires Valid()
      requires count <= |tiles| + |used.tiles|
      modifies this, used
      ensures |taken| == count
      ensures used.tiles == if count > old(|tiles|) then [] else old(used.tiles)
      ensures var from := Refilled(count, old(tiles), old(used.tiles));
        taken == Gather(from, permutations(old(draws), |from|)[..count])
        && tiles == RemoveEach(from, taken)
        && multiset(tiles) + multiset(taken) == multiset(from)
      ensures draws == old(draws) + 1
    {
      Refill(count);
      ghost var from := tiles;
      taken := GetRandomTiles(count);
      ghost var q := permutations(old(draws), |from|)[..count];
      assert Below(q, |from|) && Distinct(q);
      GatherSubMultiset(from, q);
      RemoveTaken(taken);
    }

    /** Refills from the used tiles while the bag holds fewer than `count`; one refill is enough once it is. */
    method Refill(count: nat)
      requires count <= |tiles| + |used.tiles|
      modifies this, used
      ensures tiles == Refilled(count, old(tiles), old(used.tiles)) && count <= |tiles|
      ensures used.tiles == if count > old(|tiles|) then [] else old(used.tiles)
      ensures draws == old(draws)
    {
      while count > |tiles|
        invariant count <= |tiles| + |used.tiles|
        invariant (tiles == old(tiles) && used.tiles == old(used.tiles))
          || (count > old(|tiles|) && tiles == old(tiles) + old(used.tiles) && used.tiles == [])
        invariant draws == old(draws)
        decreases |used.tiles|
      {
        TakeAllFromUsedTiles();
      }
    }

    /** Removes the handed-out tiles from the bag. */
    method RemoveTaken(taken: seq<Tile>)
      requires multiset(taken) <= multiset(tiles)
      modifies this
      ensures tiles == RemoveEach(old(tiles), taken)
      ensures multiset(tiles) + multiset(taken) == multiset(old(tiles))
      ensures draws == old(draws)
    {
      tiles := RemoveAll(tiles, taken);
    }

    /** The tiles at the first `count` positions of the next permutation of the bag. */
    method GetRandomTiles(count: nat) returns (picked: seq<Tile>)
      requires Valid() && count <= |tiles|
      modifies this
      ensures tiles == old(tiles) && draws == old(draws) + 1
      ensures picked == Gather(tiles, permutations(old(draws), |tiles|)[..count])
    {
      var permutation := permutations(draws, |tiles|);
      draws := draws + 1;
      var from := tiles;
      picked := seq(count, i requires 0 <= i < count => from[permutation[i]]);
    }

    /** Moves every used tile into the bag, after the tiles already there. */
    method TakeAllFromUsedTiles()
      modifies this, used
      ensures tiles == old(tiles) + old(used.tiles) && used.tiles == []
      ensures draws == old(draws)
    {
      var refill := used.TakeAll();
      tiles := tiles + refill;
    }

    /** Each tile type in the bag with its count, sorted by letter. */
    function State(): (r: seq<(Tile, nat)>)
      reads this
      ensures forall i :: 0 <= i < |r| ==> r[i].1 == Count(tiles, r[i].0) > 0
      ensures forall t :: t in tiles ==> (t, Count(tiles, t)) in r
      ensures forall i, j :: 0 <= i < j < |r| ==> Code(r[i].0) < Code(r[j].0)
    {
      TileCounts(tiles)
    }
  }

  /** With the identity permutation a draw hands out the first tiles of the bag and keeps the rest in order. */
  lemma {:induction false} IdentityDrawTakesPrefix(from: seq<Tile>, count: nat)
    requires count <= |from|
    ensures Gather(from, seq(|from|, i => i)[..count]) == from[..count]
    ensures RemoveEach(from, from[..count]) == from[count..]
  {
    RemovePrefix(from, count);
  }
}
