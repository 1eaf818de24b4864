/**
 * The table: the table centre and the factories the players take tiles from.
 *
 * Tile source 0 is the table centre and sources 1..n are the factories.
 * Taking a colour from a factory hands out all its tiles of that colour and
 * pushes the rest to the centre. Taking a colour from the centre hands out
 * all its tiles of that colour and, when the starting-player marker is
 * still there, the marker too. A new round puts a marker in the centre and
 * four tiles from the bag on every factory.
 */
module AzulTable {
  import opened AzulTypes
  import opened AzulBag

  /** Removes the first occurrence of `colour` while there is one: what is left is the list without that colour. */
  method RemoveAllOf(s: seq<Tile>, colour: Tile) returns (r: seq<Tile>)
    ensures r == Others(s, colour)
  {
    r := s;
    while colour in r
      invariant Others(r, colour) == Others(s, colour)
      decreases |r|
    {
      OthersRemoveFirst(r, colour);
      r := RemoveFirst(r, colour);
    }
    OthersOfFree(r, colour);
  }

  /** What taking a colour from the centre hands out: all tiles of that colour, then a marker if one is left. */
  function CentreTaken(s: seq<Tile>, colour: Tile): seq<Tile>
  {
    Matching(s, colour) + (if StartingPlayer in Others(s, colour) then [StartingPlayer] else [])
  }

  /** What taking a colour from the centre leaves there. */
  function CentreLeft(s: seq<Tile>, colour: Tile): seq<Tile>
  {
    RemoveFirst(Others(s, colour), StartingPlayer)
  }

  /** Taking a colour from the centre loses no tile and leaves none of that colour. */
  lemma {:induction false} CentreTakeKeepsTiles(s: seq<Tile>, colour: Tile)
    ensures multiset(CentreTaken(s, colour)) + multiset(CentreLeft(s, colour)) == multiset(s)
    ensures colour !in CentreLeft(s, colour)
  {
    var matching, rest := Matching(s, colour), Others(s, colour);
    var marker := if StartingPlayer in rest then [StartingPlayer] else [];
    MarkerLeaves(rest);
    calc {
      multiset(CentreTaken(s, colour)) + multiset(CentreLeft(s, colour));
      multiset(matching + marker) + multiset(RemoveFirst(rest, StartingPlayer));
      multiset(matching) + (multiset(marker) + multiset(RemoveFirst(rest, StartingPlayer)));
      multiset(matching) + multiset(rest);
      multiset(s);
    }
    RemoveFirstKeepsAbsent(rest, StartingPlayer, colour);
  }

  /** Taking the marker out of a list, if it is there, loses no tile. */
  lemma {:induction false} MarkerLeaves(rest: seq<Tile>)
    ensures multiset(if StartingPlayer in rest then [StartingPlayer] else []) + multiset(RemoveFirst(rest, StartingPlayer))
      == multiset(rest)
  {
    if StartingPlayer in rest {
      assert multiset([StartingPlayer]) == multiset{StartingPlayer};
      assert multiset{StartingPlayer} <= multiset(rest);
    }
  }

  /** Removing a tile adds no other. */
  lemma {:induction false} RemoveFirstKeepsAbsent(s: seq<Tile>, t: Tile, c: Tile)
    requires c !in s
    ensures c !in RemoveFirst(s, t)
  {
    if t in s {
      assert multiset(RemoveFirst(s, t))[c] <= multiset(s)[c];
    }
  }

  /** The table centre: leftovers from the factories and the starting-player marker. */
  class TableCenter {
    var tiles: seq<Tile>

    constructor()
      ensures tiles == []
    {
      tiles := [];
    }

    /**
     * Hands out every tile of the given type and, if a starting-player
     * marker is left after that, one marker as well.
     */
    method Take(colour: Tile) returns (taken: seq<Tile>)
      modifies this
      ensures taken == CentreTaken(old(tiles), colour)
      ensures tiles == CentreLeft(old(tiles), colour)
    {
      taken := Matching(tiles, colour);
      tiles := RemoveAllOf(tiles, colour);
      if StartingPlayer in tiles {
        taken := taken + [StartingPlayer];
        tiles := RemoveFirst(tiles, StartingPlayer);
      }
    }

    predicate IsEmpty()
      reads this
    {
      tiles == []
    }

    /** The tiles in alphabetical order of their letters. */
    function State(): (text: string)
      reads this
      ensures |text| == |tiles|
      ensures forall i, j :: 0 <= i < j < |text| ==> text[i] <= text[j]
      ensures DecodeTileList(text).Some? && multiset(DecodeTileList(text).value) == multiset(tiles)
    {
      SortedText(tiles)
    }

    /** A new round puts a starting-player marker in the centre. */
    method StartNewRound()
      modifies this
      ensures tiles == old(tiles) + [StartingPlayer]
    {
      tiles := tiles + [StartingPlayer];
    }

    method Add(added: seq<Tile>)
      modifies this
      ensures tiles == old(tiles) + added
    {
      tiles := tiles + added;
    }
  }

  /** The tiles in the bag and in the used-tiles store together. */
  ghost function Supply(bag: Bag): multiset<Tile>
    reads bag, bag.used
  {
    multiset(bag.tiles) + multiset(bag.used.tiles)
  }

  /** A factory: four tiles from the bag each round. */
  class Factory {
    var tiles: seq<Tile>
    const bag: Bag
    const centre: TableCenter

    constructor(bag: Bag, centre: TableCenter)
      ensures tiles == [] && this.bag == bag && this.centre == centre
    {
      tiles := [];
      this.bag := bag;
      this.centre := centre;
    }

    /** Hands out every tile of the given type and moves the other tiles to the centre. */
    method Take(colour: Tile) returns (taken: seq<Tile>)
      modifies this, centre
      ensures taken == Matching(old(tiles), colour)
      ensures centre.tiles == old(centre.tiles) + Others(old(tiles), colour)
      ensures tiles == []
      ensures multiset(taken) + multiset(centre.tiles) == multiset(old(tiles)) + multiset(old(centre.tiles))
    {
      taken := Matching(tiles, colour);
      tiles := RemoveAllOf(tiles, colour);
      centre.Add(tiles);
      tiles := [];
    }

    predicate IsEmpty()
      reads this
    {
      tiles == []
    }

    /** The tiles in alphabetical order of their letters. */
    function State(): (text: string)
      reads this
      ensures |text| == |tiles|
      ensures forall i, j :: 0 <= i < j < |text| ==> text[i] <= text[j]
      ensures DecodeTileList(text).Some? && multiset(DecodeTileList(text).value) == multiset(tiles)
    {
      SortedText(tiles)
    }

    /**
     * Adds four tiles drawn from the bag. The bag and the used-tiles store
     * must hold four tiles between them; the bag loops forever otherwise.
     */
    method StartNewRound()
      requires bag.Valid() && 4 <= |bag.tiles| + |bag.used.tiles|
      modifies this, bag, bag.used
      ensures |tiles| == old(|tiles|) + 4 && tiles[..old(|tiles|)] == old(tiles)
      ensures var from := bag.Refilled(4, old(bag.tiles), old(bag.used.tiles));
        tiles[old(|tiles|)..] == Gather(from, bag.permutations(old(bag.draws), |from|)[..4])
      ensures multiset(tiles) + Supply(bag) == old(multiset(tiles) + Supply(bag))
      ensures |bag.tiles| + |bag.used.tiles| == old(|bag.tiles| + |bag.used.tiles|) - 4
      ensures bag.draws == old(bag.draws) + 1
    {
      var drawn := bag.Take(4);
      tiles := tiles + drawn;
    }
  }

  /** The tile a colour index names: 0 black, 1 blue, 2 green, 3 red, 4 yellow. */
  function TileOfIndex(idx: nat): (t: Tile)
    requires idx < 5
    ensures IsColour(t)
  {
    [Black, Blue, Green, Red, Yellow][idx]
  }

  /** The colour indices 0..4 name the five colours, each exactly once. */
  lemma TileIndicesNameEveryColour()
    ensures forall i, j :: 0 <= i < j < 5 ==> TileOfIndex(i) != TileOfIndex(j)
    ensures forall t :: IsColour(t) ==> exists i :: 0 <= i < 5 && TileOfIndex(i) == t
  {
    forall t | IsColour(t)
      ensures exists i :: 0 <= i < 5 && TileOfIndex(i) == t
    {
      match t
      case Black => assert TileOfIndex(0) == t;
      case Blue => assert TileOfIndex(1) == t;
      case Green => assert TileOfIndex(2) == t;
      case Red => assert TileOfIndex(3) == t;
      case Yellow => assert TileOfIndex(4) == t;
    }
  }

  /** The tiles on a list of factories, counted together. */
  function Union(lists: seq<seq<Tile>>): multiset<Tile>
  {
    if lists == [] then multiset{} else Union(lists[..|lists| - 1]) + multiset(lists[|lists| - 1])
  }

  /** Replacing one list changes the union by exactly the difference. */
  lemma {:induction false} UnionUpdate(lists: seq<seq<Tile>>, i: nat, x: seq<Tile>)
    requires i < |lists|
    ensures Union(lists[i := x]) + multiset(lists[i]) == Union(lists) + multiset(x)
  {
    var n := |lists| - 1;
    var updated := lists[i := x];
    assert updated[..n] == if i < n then lists[..n][i := x] else lists[..n];
    if i < n {
      UnionUpdate(lists[..n], i, x);
      assert updated[n] == lists[n];
    } else {
      assert updated[n] == x;
    }
    forall t
      ensures (Union(updated) + multiset(lists[i]))[t] == (Union(lists) + multiset(x))[t]
    {
      if i < n {
        assert (Union(lists[..n][i := x]) + multiset(lists[i]))[t] == (Union(lists[..n]) + multiset(x))[t];
      }
    }
  }

  /**
   * The first `done` factory lists of `now` are those of `start` with four
   * tiles added at the end; the others are unchanged.
   */
  predicate Refilled4(start: seq<seq<Tile>>, now: seq<seq<Tile>>, done: nat)
  {
    |now| == |start| && done <= |start|
    && (forall j :: 0 <= j < done ==> |now[j]| == |start[j]| + 4 && now[j][..|start[j]|] == start[j])
    && forall j :: done <= j < |start| ==> now[j] == start[j]
  }

  /** Adding four tiles to the next factory extends the refilled prefix by one. */
  lemma RefilledStep(start: seq<seq<Tile>>, now: seq<seq<Tile>>, i: nat, x: seq<Tile>)
    requires Refilled4(start, now, i) && i < |start|
    requires |x| == |now[i]| + 4 && x[..|now[i]|] == now[i]
    ensures Refilled4(start, now[i := x], i + 1)
  {
  }

  /** Moving tiles from the supply onto one list keeps the total. */
  lemma {:induction false} ConservationStep(u: multiset<Tile>, u': multiset<Tile>, a: multiset<Tile>, b: multiset<Tile>,
                         supply: multiset<Tile>, supply': multiset<Tile>, total: multiset<Tile>)
    requires u + supply == total
    requires u' + a == u + b
    requires b + supply' == a + supply
    ensures u' + supply' == total
  {
    forall t
      ensures (u' + supply')[t] == total[t]
    {
      assert (u + supply)[t] == total[t];
      assert (u' + a)[t] == (u + b)[t];
      assert (b + supply')[t] == (a + supply)[t];
    }
  }

  /** The tiles each factory holds, in factory order. */
  function Contents(factories: seq<Factory>): (r: seq<seq<Tile>>)
    reads set f | f in factories
    ensures |r| == |factories| && forall i :: 0 <= i < |factories| ==> r[i] == factories[i].tiles
  {
    seq(|factories|, i reads set f | f in factories requires 0 <= i < |factories| => factories[i].tiles)
  }

  /**
   * The table area: the centre as tile source 0 and the factories as
   * sources 1..n, all drawing from one bag and pushing to one centre.
   */
  class TableArea {
    const centre: TableCenter
    const factories: seq<Factory>
    const bag: Bag

    /** Every factory shares the bag and the centre, and no factory is listed twice. */
    predicate Valid()
    {
      (forall i :: 0 <= i < |factories| ==> factories[i].bag == bag && factories[i].centre == centre)
      && forall i, j :: 0 <= i < j < |factories| ==> factories[i] != factories[j]
    }

    constructor(numberOfFactories: nat, bag: Bag)
      ensures Valid() && this.bag == bag && |factories| == numberOfFactories
      ensures fresh(centre) && centre.tiles == []
      ensures forall i :: 0 <= i < |factories| ==> fresh(factories[i]) && factories[i].tiles == []
    {
      var c := new TableCenter();
      var made: seq<Factory> := [];
      while |made| < numberOfFactories
        invariant |made| <= numberOfFactories
        invariant forall i :: 0 <= i < |made| ==> fresh(made[i]) && made[i].tiles == []
        invariant forall i :: 0 <= i < |made| ==> made[i].bag == bag && made[i].centre == c
        invariant forall i, j :: 0 <= i < j < |made| ==> made[i] != made[j]
        invariant fresh(c) && c.tiles == []
      {
        var f := new Factory(bag, c);
        made := made + [f];
      }
      centre := c;
      factories := made;
      this.bag := bag;
    }

    /**
     * Takes the tiles of colour index `idx` from source `sourceIdx`: 0 is
     * the centre, 1..n the factories.
     */
    method Take(sourceIdx: nat, idx: nat) returns (taken: seq<Tile>)
      requires Valid() && sourceIdx <= |factories| && idx < 5
      modifies centre, set f | f in factories
      ensures TakeOutcome(taken, centre.tiles, Contents(factories))
        == old(TakeFromTable(centre.tiles, Contents(factories), sourceIdx, idx))
    {
      var colour := TileOfIndex(idx);
      if sourceIdx == 0 {
        taken := centre.Take(colour);
      } else {
        ghost var before := Contents(factories);
        var i := sourceIdx - 1;
        taken := factories[i].Take(colour);
        forall j | 0 <= j < |factories|
          ensures Contents(factories)[j] == before[i := []][j]
        {
          if j != i {
            assert factories[j] != factories[i];
          }
        }
      }
    }

    /** The round ends once the centre and every factory are empty. */
    predicate IsRoundEnd()
      reads centre, set f | f in factories
    {
      centre.tiles == [] && forall i :: 0 <= i < |factories| ==> factories[i].tiles == []
    }

    /**
     * Puts a marker in the centre and four bag tiles on every factory, in
     * factory order. The bag and the used tiles must hold four tiles for
     * every factory.
     */
    method StartNewRound()
      requires Valid() && bag.Valid() && 4 * |factories| <= |bag.tiles| + |bag.used.tiles|
      modifies centre, bag, bag.used, set f | f in factories
      ensures centre.tiles == old(centre.tiles) + [StartingPlayer]
      ensures Refilled4(old(Contents(factories)), Contents(factories), |factories|)
      ensures Union(Contents(factories)) + Supply(bag) == old(Union(Contents(factories)) + Supply(bag))
      ensures |bag.tiles| + |bag.used.tiles| == old(|bag.tiles| + |bag.used.tiles|) - 4 * |factories|
    {
      centre.StartNewRound();
      ghost var start := Contents(factories);
      ghost var total := Union(start) + Supply(bag);
      var i := 0;
      while i < |factories|
        invariant i <= |factories|
        invariant centre.tiles == old(centre.tiles) + [StartingPlayer]
        invariant Refilled4(start, Contents(factories), i)
        invariant Union(Contents(factories)) + Supply(bag) == total
        invariant |bag.tiles| + |bag.used.tiles| == old(|bag.tiles| + |bag.used.tiles|) - 4 * i
      {
        ghost var before := Contents(factories);
        RefillFactory(i);
        RefilledStep(start, before, i, factories[i].tiles);
        i := i + 1;
      }
    }

    /** Adds four bag tiles to factory i; nothing else on the table changes. */
    method RefillFactory(i: nat)
      requires Valid() && bag.Valid() && i < |factories| && 4 <= |bag.tiles| + |bag.used.tiles|
      modifies bag, bag.used, factories[i]
      ensures Contents(factories) == old(Contents(factories))[i := factories[i].tiles]
      ensures |factories[i].tiles| == old(|factories[i].tiles|) + 4
      ensures factories[i].tiles[..old(|factories[i].tiles|)] == old(factories[i].tiles)
      ensures Union(Contents(factories)) + Supply(bag) == old(Union(Contents(factories)) + Supply(bag))
      ensures |bag.tiles| + |bag.used.tiles| == old(|bag.tiles| + |bag.used.tiles|) - 4
    {
      ghost var before := Contents(factories);
      ghost var supply := Supply(bag);
      factories[i].StartNewRound();
      ghost var now := Contents(factories);
      assert now == before[i := factories[i].tiles] by {
        forall j | 0 <= j < |factories| && j != i
          ensures now[j] == before[j]
        {
          assert factories[j] != factories[i];
        }
      }
      UnionUpdate(before, i, factories[i].tiles);
      ConservationStep(Union(before), Union(now), multiset(before[i]), multiset(now[i]), supply, Supply(bag), Union(before) + supply);
    }
  }

  /** Every tile of s is c. */
  predicate OneColour(s: seq<Tile>, c: Tile)
  {
    forall i :: 0 <= i < |s| ==> s[i] == c
  }

  /** What a take hands the player and leaves in the centre and on the factories. */
  datatype TakeOutcome = TakeOutcome(taken: seq<Tile>, centre: seq<Tile>, factories: seq<seq<Tile>>)

  /** Taking colour index idx from source 0 (the centre) or source i > 0 (factory i - 1). */
  function TakeFromTable(centre: seq<Tile>, contents: seq<seq<Tile>>, source: nat, idx: nat): (r: TakeOutcome)
    requires source <= |contents| && idx < 5
    ensures |r.factories| == |contents|
  {
    var colour := TileOfIndex(idx);
    if source == 0 then TakeOutcome(CentreTaken(centre, colour), CentreLeft(centre, colour), contents)
    else TakeOutcome(Matching(contents[source - 1], colour), centre + Others(contents[source - 1], colour), contents[source - 1 := []])
  }

  /** A take loses no tile: what the player gets and what stays on the table make up the table before. */
  lemma {:induction false} TakeKeepsTiles(centre: seq<Tile>, contents: seq<seq<Tile>>, source: nat, idx: nat)
    requires source <= |contents| && idx < 5
    ensures var r := TakeFromTable(centre, contents, source, idx);
      multiset(r.taken) + multiset(r.centre) + Union(r.factories) == multiset(centre) + Union(contents)
  {
    if source == 0 {
      TakeFromCentre(centre, contents, idx);
    } else {
      TakeFromFactory(centre, contents, source, idx);
    }
  }

  lemma {:induction false} TakeFromCentre(centre: seq<Tile>, contents: seq<seq<Tile>>, idx: nat)
    requires idx < 5
    ensures var r := TakeFromTable(centre, contents, 0, idx);
      multiset(r.taken) + multiset(r.centre) + Union(r.factories) == multiset(centre) + Union(contents)
  {
    CentreTakeKeepsTiles(centre, TileOfIndex(idx));
  }

  /** Taking from a factory: its matching tiles go to the player, the others to the centre. */
  lemma {:induction false} TakeFromFactory(centre: seq<Tile>, contents: seq<seq<Tile>>, source: nat, idx: nat)
    requires 0 < source <= |contents| && idx < 5
    ensures var r := TakeFromTable(centre, contents, source, idx);
      multiset(r.taken) + multiset(r.centre) + Union(r.factories) == multiset(centre) + Union(contents)
  {
    var f, colour := contents[source - 1], TileOfIndex(idx);
    var r := TakeFromTable(centre, contents, source, idx);
    var others := multiset(Others(f, colour));
    assert Union(r.factories) + multiset(f) == Union(contents) by {
      UnionUpdate(contents, source - 1, []);
    }
    assert multiset(r.centre) == multiset(centre) + others by {
      assert r.centre == centre + Others(f, colour);
    }
    assert multiset(r.taken) + others == multiset(f) by {
      assert r.taken == Matching(f, colour);
    }
    Regroup(multiset(r.taken), multiset(centre), others, multiset(r.centre),
      Union(r.factories), multiset(f), Union(contents));
  }

  /**
   * The player gets the marker exactly when taking from a centre that holds
   * it, and every other tile the player gets has the chosen colour; a
   * marker in the centre stays with the table or goes to the player.
   */
  lemma {:induction false} TakeHandsColour(centre: seq<Tile>, contents: seq<seq<Tile>>, source: nat, idx: nat)
    requires source <= |contents| && idx < 5
    ensures var r := TakeFromTable(centre, contents, source, idx);
      (StartingPlayer in r.taken <==> source == 0 && StartingPlayer in centre)
      && (StartingPlayer in centre ==> StartingPlayer in r.centre || StartingPlayer in r.taken)
      && OneColour(RemoveFirst(r.taken, StartingPlayer), TileOfIndex(idx))
  {
    var colour := TileOfIndex(idx);
    if source == 0 {
      MarkerAmongOthers(centre, colour);
      RemoveMarker(Matching(centre, colour), colour, StartingPlayer in Others(centre, colour));
    } else {
      RemoveMarker(Matching(contents[source - 1], colour), colour, false);
      assert Matching(contents[source - 1], colour) + [] == Matching(contents[source - 1], colour);
    }
  }

  /** Handing part of a list out and part of it to the centre, the rest unchanged, loses no tile. */
  lemma {:induction false} Regroup(taken: multiset<Tile>, centre: multiset<Tile>, others: multiset<Tile>, after: multiset<Tile>, rest: multiset<Tile>,
                list: multiset<Tile>, all: multiset<Tile>)
    requires taken + others == list && rest + list == all && after == centre + others
    ensures taken + after + rest == centre + all
  {
    calc {
      taken + after + rest;
      taken + (centre + others) + rest;
      centre + (taken + others) + rest;
      centre + (rest + list);
    }
  }

  /** Removing the marker from a run of one colour, with or without a marker after it, leaves that colour only. */
  lemma {:induction false} RemoveMarker(run: seq<Tile>, colour: Tile, marker: bool)
    requires IsColour(colour) && OneColour(run, colour)
    ensures var s := run + (if marker then [StartingPlayer] else []);
      (StartingPlayer in s <==> marker) && OneColour(RemoveFirst(s, StartingPlayer), colour)
  {
    var s := run + (if marker then [StartingPlayer] else []);
    var r := RemoveFirst(s, StartingPlayer);
    assert StartingPlayer !in run;
    forall i | 0 <= i < |r|
      ensures r[i] == colour
    {
      assert r[i] in multiset(r);
      if marker {
        assert multiset(s) == multiset(run) + multiset{StartingPlayer};
      }
      assert r[i] in multiset(run);
    }
  }

  /** With a colour taken, the marker stays among the other tiles. */
  lemma {:induction false} MarkerAmongOthers(s: seq<Tile>, colour: Tile)
    requires IsColour(colour)
    ensures StartingPlayer in Others(s, colour) <==> StartingPlayer in s
  {
    assert Count(Others(s, colour), StartingPlayer) == Count(s, StartingPlayer);
    assert StartingPlayer in s <==> StartingPlayer in multiset(s);
    assert StartingPlayer in Others(s, colour) <==> StartingPlayer in multiset(Others(s, colour));
  }
}
