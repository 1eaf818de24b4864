/**
 * A player's board: the floor, five pattern lines and the wall.
 *
 * Pattern line i (capacity i + 1) collects tiles of one colour during a
 * round. Tiles that do not fit, or that the line refuses, and the
 * starting-player marker drop to the floor. At the end of a round every
 * full pattern line moves one tile to its wall row, scores that placement
 * and hands the rest to the used-tiles store; the floor costs points for
 * every tile on it and empties into the used-tiles store as well.
 */
module AzulBoard {
  import opened AzulTypes
  import opened AzulWall
  import opened AzulScoring
  import opened AzulBag

  /** The penalty for n floor tiles: tile i costs pattern[i], tiles past the end cost the last entry. */
  function Penalty(pattern: seq<Points>, n: nat): int
    requires pattern != [] || n == 0
  {
    if n == 0 then 0 else Penalty(pattern, n - 1) + pattern[Min(n - 1, |pattern| - 1)].value
  }

  function Min(a: int, b: int): int
  {
    if a < b then a else b
  }

  /** Past the end of the pattern every further tile costs the last entry. */
  lemma {:induction false} PenaltyPastPattern(pattern: seq<Points>, extra: nat)
    requires pattern != []
    ensures Penalty(pattern, |pattern| + extra)
      == Penalty(pattern, |pattern|) + extra * pattern[|pattern| - 1].value
  {
    if extra > 0 {
      PenaltyPastPattern(pattern, extra - 1);
    }
  }

  /** The floor pattern of a board: 1, 1, 2, 2, 2, 3, 3. */
  const BoardFloorPattern: seq<Points> := [Points(1), Points(1), Points(2), Points(2), Points(2), Points(3), Points(3)]

  /** A board floor with seven or more tiles costs 14 points plus 3 for every tile past the seventh. */
  lemma {:induction false} BoardFloorPenalty(n: nat)
    ensures n <= 7 ==> Penalty(BoardFloorPattern, n) <= 14
    ensures n >= 7 ==> Penalty(BoardFloorPattern, n) == 14 + 3 * (n - 7)
  {
    var p := BoardFloorPattern;
    assert Penalty(p, 7) == 14 by {
      assert Penalty(p, 1) == 1 && Penalty(p, 2) == 2 && Penalty(p, 3) == 4;
      assert Penalty(p, 4) == 6 && Penalty(p, 5) == 8 && Penalty(p, 6) == 11;
    }
    if n >= 7 {
      PenaltyPastPattern(p, n - 7);
    } else {
      PenaltyBelowPattern(n);
    }
  }

  lemma {:induction false} PenaltyBelowPattern(n: nat)
    requires n < 7
    ensures Penalty(BoardFloorPattern, n) <= 14
  {
    var p := BoardFloorPattern;
    assert Penalty(p, 1) == 1 && Penalty(p, 2) == 2 && Penalty(p, 3) == 4;
    assert Penalty(p, 4) == 6 && Penalty(p, 5) == 8 && Penalty(p, 6) == 11;
  }

  /** With the pattern 1, 2, 3 four floor tiles cost 9 points and two cost 3. */
  lemma SmallFloorPenalty()
    ensures Penalty([Points(1), Points(2), Points(3)], 4) == 9
    ensures Penalty([Points(1), Points(2), Points(3)], 2) == 3
  {
  }

  /**
   * The floor. Its own source is not part of this model: it collects the
   * tiles dropped on it, and at the end of a round returns its penalty,
   * hands its tiles to the used-tiles store and empties.
   */
  class Floor {
    const pattern: seq<Points>
    var tiles: seq<Tile>
    const used: UsedTiles

    constructor(pattern: seq<Points>, used: UsedTiles)
      ensures this.pattern == pattern && this.used == used && tiles == []
    {
      this.pattern := pattern;
      this.used := used;
      tiles := [];
    }

    method Put(dropped: seq<Tile>)
      modifies this
      ensures tiles == old(tiles) + dropped
    {
      tiles := tiles + dropped;
    }

    /** The penalty of the tiles on the floor; they go to the used tiles and the floor empties. */
    method FinishRound() returns (p: Points)
      requires pattern != [] || tiles == []
      modifies this, used
      ensures p.value == Penalty(pattern, old(|tiles|))
      ensures tiles == [] && used.tiles == old(used.tiles) + RemoveFirst(old(tiles), StartingPlayer)
    {
      var sum := 0;
      var i := 0;
      while i < |tiles|
        invariant i <= |tiles| && sum == Penalty(pattern, i)
      {
        sum := sum + pattern[Min(i, |pattern| - 1)].value;
        i := i + 1;
      }
      p := Points(sum);
      used.Give(tiles);
      tiles := [];
    }
  }

  /** All tiles of s are the same tile. */
  predicate Uniform(s: seq<Tile>)
  {
    forall i :: 0 <= i < |s| ==> s[i] == s[0]
  }

  /** The tiles a pattern line keeps when it accepts `given` with `room` free places, and what overflows. */
  function Fits(given: seq<Tile>, room: int): (r: (seq<Tile>, seq<Tile>))
    ensures r.0 + r.1 == given && |r.0| == if room <= 0 then 0 else Min(|given|, room)
  {
    var k := if room <= 0 then 0 else Min(|given|, room);
    (given[..k], given[k..])
  }

  /**
   * What putting the marker-free list `rest` on a line holding `line`
   * leads to: the new line and the tiles dropped on the floor, in order.
   * `accepts` is whether the line takes `rest`.
   */
  function RestOutcome(line: seq<Tile>, accepts: bool, capacity: nat, rest: seq<Tile>): (seq<Tile>, seq<Tile>)
  {
    if rest == [] || !accepts then (line, rest)
    else
      var split := Fits(rest, capacity - |line|);
      (line + split.0, split.1)
  }

  /** The same for a list that may hold a starting-player marker: one marker drops to the floor first. */
  function PutOutcome(line: seq<Tile>, accepts: bool, capacity: nat, given: seq<Tile>): (seq<Tile>, seq<Tile>)
  {
    var outcome := RestOutcome(line, accepts, capacity, RemoveFirst(given, StartingPlayer));
    (outcome.0, (if StartingPlayer in given then [StartingPlayer] else []) + outcome.1)
  }

  lemma ConcatAssociates(a: seq<Tile>, b: seq<Tile>, c: seq<Tile>)
    ensures (a + b) + c == a + (b + c)
  {
  }

  /** Putting tiles on a line loses none and creates none: each ends up on the line or on the floor. */
  lemma {:induction false} PutKeepsTiles(line: seq<Tile>, accepts: bool, capacity: nat, given: seq<Tile>)
    ensures var outcome := PutOutcome(line, accepts, capacity, given);
      multiset(outcome.0) + multiset(outcome.1) == multiset(line) + multiset(given)
  {
    var rest := RemoveFirst(given, StartingPlayer);
    var marker := if StartingPlayer in given then [StartingPlayer] else [];
    assert multiset(marker) + multiset(rest) == multiset(given);
    var split := Fits(rest, capacity - |line|);
    assert multiset(split.0) + multiset(split.1) == multiset(rest) by {
      assert split.0 + split.1 == rest;
    }
    var outcome := PutOutcome(line, accepts, capacity, given);
    assert multiset(outcome.1) == multiset(marker) + multiset(RestOutcome(line, accepts, capacity, rest).1);
  }

  /**
   * A line that only ever takes tiles of its own type stays of one type:
   * given tiles of one type (besides one marker), an accepting line holds
   * tiles of one type afterwards, and the marker always goes to the floor.
   */
  lemma {:induction false} PutKeepsLineUniform(line: seq<Tile>, accepts: bool, capacity: nat, given: seq<Tile>)
    requires Uniform(line) && Uniform(RemoveFirst(given, StartingPlayer))
    requires accepts && line != [] && RemoveFirst(given, StartingPlayer) != [] ==> RemoveFirst(given, StartingPlayer)[0] == line[0]
    ensures Uniform(PutOutcome(line, accepts, capacity, given).0)
    ensures StartingPlayer in given ==> StartingPlayer in PutOutcome(line, accepts, capacity, given).1
  {
    var rest := RemoveFirst(given, StartingPlayer);
    if rest != [] && accepts {
      var kept := Fits(rest, capacity - |line|).0;
      assert kept == rest[..|kept|];
      var r := line + kept;
      forall i | 0 <= i < |r|
        ensures r[i] == r[0]
      {
        if i >= |line| {
          assert r[i] == rest[i - |line|];
        }
      }
    }
  }

  /** One pattern line of a board, tied to one row of the wall. */
  class PatternLine {
    const capacity: nat
    var tiles: seq<Tile>
    var currentType: Option<Tile>
    const floor: Floor
    const wall: Wall
    const row: nat
    const used: UsedTiles

    /** The line is within capacity; its type is its first tile, a colour, and None when it is empty. */
    ghost predicate Valid()
      reads this, wall
    {
      wall.Valid() && row < 5 && 1 <= capacity
      && |tiles| <= capacity
      && currentType == (if tiles == [] then None else Some(tiles[0]))
      && (tiles != [] ==> IsColour(tiles[0]))
    }

    constructor(capacity: nat, floor: Floor, wall: Wall, row: nat, used: UsedTiles)
      requires wall.Valid() && row < 5 && 1 <= capacity
      ensures Valid()
      ensures this.capacity == capacity && this.floor == floor && this.wall == wall
      ensures this.row == row && this.used == used && tiles == []
    {
      this.capacity := capacity;
      this.floor := floor;
      this.wall := wall;
      this.row := row;
      this.used := used;
      tiles := [];
      currentType := None;
    }

    /**
     * Whether the line takes the tiles: an empty line takes them when its
     * wall row has room for the first one; otherwise they must all be of
     * the line's type.
     */
    predicate CanPutTiles(given: seq<Tile>)
      requires Valid() && given != []
      requires currentType == None ==> IsColour(given[0])
      reads this, wall
    {
      (currentType == None && wall.CanPutTile(row, given[0]))
      || forall i :: 0 <= i < |given| ==> Some(given[i]) == currentType
    }

    /**
     * Puts tiles on the line. One starting-player marker goes to the floor;
     * tiles the line refuses go to the floor; the rest fill the line and
     * what does not fit goes to the floor. A tile list whose first tile
     * after that marker is another marker would crash the empty line's
     * wall lookup, so that case is excluded.
     */
    method Put(given: seq<Tile>)
      requires Valid()
      requires var rest := RemoveFirst(given, StartingPlayer);
        currentType == None && rest != [] ==> IsColour(rest[0])
      modifies this, floor
      ensures Valid()
      ensures var rest := RemoveFirst(given, StartingPlayer);
        var outcome := PutOutcome(old(tiles), rest != [] && old(CanPutTiles(rest)), capacity, given);
        tiles == outcome.0 && floor.tiles == old(floor.tiles) + outcome.1
    {
      ghost var marker := if StartingPlayer in given then [StartingPlayer] else [];
      var rest := given;
      if StartingPlayer in rest {
        rest := RemoveFirst(rest, StartingPlayer);
        floor.Put([StartingPlayer]);
      }
      assert rest == RemoveFirst(given, StartingPlayer);
      ghost var floorBefore := floor.tiles;
      PutRest(rest);
      ConcatAssociates(old(floor.tiles), marker, RestOutcome(old(tiles), rest != [] && old(CanPutTiles(rest)), capacity, rest).1);
    }

    /** Puts a list without marker: refused tiles go to the floor, accepted ones fill the line. */
    method PutRest(rest: seq<Tile>)
      requires Valid()
      requires currentType == None && rest != [] ==> IsColour(rest[0])
      modifies this, floor
      ensures Valid()
      ensures var outcome := RestOutcome(old(tiles), rest != [] && old(CanPutTiles(rest)), capacity, rest);
        tiles == outcome.0 && floor.tiles == old(floor.tiles) + outcome.1
    {
      if rest == [] {
        return;
      }
      if !CanPutTiles(rest) {
        floor.Put(rest);
        return;
      }
      AppendTiles(rest);
    }

    /** Appends tiles until the line is full; the remaining tiles go to the floor together. */
    method AppendTiles(given: seq<Tile>)
      requires Valid() && given != [] && (tiles == [] ==> IsColour(given[0]))
      modifies this, floor
      ensures Valid()
      ensures tiles == old(tiles) + Fits(given, capacity - old(|tiles|)).0
      ensures floor.tiles == old(floor.tiles) + Fits(given, capacity - old(|tiles|)).1
    {
      var i := 0;
      while i < |given|
        invariant i <= |given| && Valid()
        invariant tiles == old(tiles) + given[..i] && floor.tiles == old(floor.tiles)
      {
        if |tiles| == capacity {
          floor.Put(given[i..]);
          return;
        }
        tiles := tiles + [given[i]];
        if currentType == None {
          currentType := Some(given[i]);
        }
        i := i + 1;
      }
    }
  
    /**
     * At the end of a round a full line moves its first tile to its wall
     * row, scores that placement, hands the other tiles to the used-tiles
     * store and empties; a line that is not full stays as it is and scores 0.
     */
    method FinishRound() returns (p: Points)
      requires Valid()
      modifies this, used, wall
      ensures Valid()
      ensures old(|tiles|) < capacity ==>
        p == Points(0) && tiles == old(tiles) && wall.lines == old(wall.lines) && used.tiles == old(used.tiles)
      ensures old(|tiles|) >= capacity ==>
        tiles == [] && wall.lines == Placed(old(wall.lines), row, old(tiles[0]))
        && p.value == PlacementScore(wall.lines, row, ColumnOf(row, old(tiles[0])))
        && used.tiles == old(used.tiles) + RemoveFirst(old(tiles[1..]), StartingPlayer)
    {
      if |tiles| < capacity {
        return Points(0);
      }
      var tileToPut := tiles[0];
      var toGive := tiles[1..];
      used.Give(toGive);
      tiles := [];
      currentType := None;
      p := wall.PutTile(row, tileToPut);
    }

    /** Underscores for the free places, then the letters of the tiles on the line. */
    function State(): (text: string)
      requires Valid()
      reads this, wall
      ensures |text| == capacity
      ensures forall i :: 0 <= i < capacity - |tiles| ==> text[i] == '_'
      ensures DecodeTileList(text[capacity - |tiles|..]) == Some(tiles)
    {
      CompressRoundTrip(tiles);
      var text := seq(capacity - |tiles|, i => '_') + CompressTileList(tiles);
      assert text[capacity - |tiles|..] == CompressTileList(tiles);
      text
    }
  }

  /** The tiles on each pattern line, top to bottom. */
  function LineContents(lines: seq<PatternLine>): (r: seq<seq<Tile>>)
    reads set l | l in lines
    ensures |r| == |lines| && forall i :: 0 <= i < |lines| ==> r[i] == lines[i].tiles
  {
    seq(|lines|, i reads set l | l in lines requires 0 <= i < |lines| => lines[i].tiles)
  }

  /** Pattern line i is full once it holds i + 1 tiles; a full line's first tile is a colour. */
  predicate RoundReady(contents: seq<seq<Tile>>)
  {
    |contents| == 5 && forall i :: 0 <= i < 5 && |contents[i]| == i + 1 ==> IsColour(contents[i][0])
  }

  /** The wall after the first k pattern lines have finished the round, top to bottom. */
  function RoundWall(g: WallGrid, contents: seq<seq<Tile>>, k: nat): (r: WallGrid)
    requires WellFormed(g) && RoundReady(contents) && k <= 5
    ensures WellFormed(r)
  {
    if k == 0 then g
    else
      var before := RoundWall(g, contents, k - 1);
      if |contents[k - 1]| == k then Placed(before, k - 1, contents[k - 1][0]) else before
  }

  /** The points the first k pattern lines score at the end of a round. */
  function RoundPoints(g: WallGrid, contents: seq<seq<Tile>>, k: nat): int
    requires WellFormed(g) && RoundReady(contents) && k <= 5
  {
    if k == 0 then 0
    else
      RoundPoints(g, contents, k - 1)
      + if |contents[k - 1]| == k then PlacementScore(RoundWall(g, contents, k), k - 1, ColumnOf(k - 1, contents[k - 1][0])) else 0
  }

  /** The number of full lines among the first k. */
  function FullLines(contents: seq<seq<Tile>>, k: nat): nat
    requires |contents| == 5 && k <= 5
  {
    if k == 0 then 0 else FullLines(contents, k - 1) + if |contents[k - 1]| == k then 1 else 0
  }

  /** Every full line scores between 1 and 10 points, so a round scores at least one point per full line. */
  lemma {:induction false} RoundPointsBounds(g: WallGrid, contents: seq<seq<Tile>>, k: nat)
    requires WellFormed(g) && RoundReady(contents) && k <= 5
    ensures FullLines(contents, k) <= RoundPoints(g, contents, k) <= 10 * FullLines(contents, k)
  {
    if k > 0 {
      RoundPointsBounds(g, contents, k - 1);
      if |contents[k - 1]| == k {
        PlacementScoreBounds(RoundWall(g, contents, k), k - 1, ColumnOf(k - 1, contents[k - 1][0]));
      }
    }
  }

  /** Finishing a round only fills wall cells: a filled cell keeps its tile. */
  lemma {:induction false} RoundWallKeepsTiles(g: WallGrid, contents: seq<seq<Tile>>, k: nat)
    requires WellFormed(g) && Patterned(g) && RoundReady(contents) && k <= 5
    ensures Patterned(RoundWall(g, contents, k))
    ensures forall r, c :: 0 <= r < 5 && 0 <= c < 5 && g[r][c] != None ==> RoundWall(g, contents, k)[r][c] == g[r][c]
  {
    if k > 0 {
      RoundWallKeepsTiles(g, contents, k - 1);
    }
  }

  /** After the round every full line's colour sits in its wall row. */
  lemma {:induction false} RoundWallPlacesFullLines(g: WallGrid, contents: seq<seq<Tile>>, k: nat)
    requires WellFormed(g) && RoundReady(contents) && k <= 5
    ensures forall i :: 0 <= i < k && |contents[i]| == i + 1 ==>
      RoundWall(g, contents, k)[i][ColumnOf(i, contents[i][0])] == Some(contents[i][0])
  {
    if k > 0 {
      RoundWallPlacesFullLines(g, contents, k - 1);
    }
  }

  /** The tiles the first k pattern lines hand to the used-tiles store: a full line's tiles after its first. */
  function RoundDiscards(contents: seq<seq<Tile>>, k: nat): seq<Tile>
    requires |contents| == 5 && k <= 5
  {
    if k == 0 then []
    else RoundDiscards(contents, k - 1) + if |contents[k - 1]| == k then RemoveFirst(contents[k - 1][1..], StartingPlayer) else []
  }

  /** What pattern line i holds after the first k lines finished the round. */
  function RoundLine(contents: seq<seq<Tile>>, k: nat, i: nat): seq<Tile>
    requires |contents| == 5 && i < 5
  {
    if i < k && |contents[i]| == i + 1 then [] else contents[i]
  }

  /**
   * A player's board: five pattern lines of capacities 1 to 5, each tied to
   * the wall row of the same index, a floor with penalties 1, 1, 2, 2, 2,
   * 3, 3, and the player's points.
   */
  class Board {
    const floor: Floor
    const wall: Wall
    const lines: seq<PatternLine>
    const used: UsedTiles
    const finalPoints: PointsCalculation
    var points: Points

    ghost predicate Valid()
      reads this, wall, set l | l in lines
    {
      wall.Valid() && floor.pattern == BoardFloorPattern && floor.used == used
      && |lines| == 5
      && (forall i, j :: 0 <= i < j < 5 ==> lines[i] != lines[j])
      && forall i :: 0 <= i < 5 ==> LineFits(lines[i], i)
    }

    /** Line i of this board: capacity i + 1, wall row i, the board's floor, wall and used tiles. */
    ghost predicate LineFits(line: PatternLine, i: nat)
      reads this, wall, line
    {
      line.wall == wall && line.Valid() && line.capacity == i + 1 && line.row == i
      && line.floor == floor && line.used == used
    }

    /** A new board: empty wall, empty pattern lines, empty floor, no points. */
    constructor(finalPoints: PointsCalculation, used: UsedTiles)
      ensures Valid() && fresh(wall) && fresh(floor) && fresh(set l | l in lines)
      ensures this.used == used && this.finalPoints == finalPoints && points == Points(0)
      ensures floor.tiles == [] && forall i :: 0 <= i < 5 ==> lines[i].tiles == []
      ensures forall r, c :: 0 <= r < 5 && 0 <= c < 5 ==> wall.lines[r][c] == None
    {
      var f := new Floor(BoardFloorPattern, used);
      var w := new Wall();
      var l0 := new PatternLine(1, f, w, 0, used);
      var l1 := new PatternLine(2, f, w, 1, used);
      var l2 := new PatternLine(3, f, w, 2, used);
      var l3 := new PatternLine(4, f, w, 3, used);
      var l4 := new PatternLine(5, f, w, 4, used);
      floor := f;
      wall := w;
      lines := [l0, l1, l2, l3, l4];
      this.used := used;
      this.finalPoints := finalPoints;
      points := Points(0);
      new;
      forall i | 0 <= i < 5
        ensures LineFits(lines[i], i) && lines[i].tiles == []
      {
        var line := if i == 0 then l0 else if i == 1 then l1 else if i == 2 then l2 else if i == 3 then l3 else l4;
        assert lines[i] == line;
      }
    }

    /** Puts tiles on pattern line `destination` (0 is the top line); see PatternLine.Put. */
    method Put(destination: nat, given: seq<Tile>)
      requires Valid() && destination < 5
      requires var rest := RemoveFirst(given, StartingPlayer);
        lines[destination].currentType == None && rest != [] ==> IsColour(rest[0])
      modifies lines[destination], floor
      ensures Valid()
      ensures var outcome := old(PutResult(destination, given));
        lines[destination].tiles == outcome.0 && floor.tiles == old(floor.tiles) + outcome.1
    {
      lines[destination].Put(given);
    }

    /** What putting the tiles on line `destination` leaves on that line and drops on the floor. */
    ghost function PutResult(destination: nat, given: seq<Tile>): (seq<Tile>, seq<Tile>)
      requires Valid() && destination < 5
      requires var rest := RemoveFirst(given, StartingPlayer);
        lines[destination].currentType == None && rest != [] ==> IsColour(rest[0])
      reads this, wall, set l | l in lines
    {
      var line := lines[destination];
      assert LineFits(line, destination);
      var rest := RemoveFirst(given, StartingPlayer);
      PutOutcome(line.tiles, rest != [] && line.CanPutTiles(rest), line.capacity, given)
    }

    /**
     * The wall, lines and floor after finishing a round that started with
     * wall g0 and line contents contents0.
     */
    ghost predicate FinishedRoundFrom(g0: WallGrid, contents0: seq<seq<Tile>>)
      reads wall, floor, set l | l in lines
    {
      WellFormed(g0) && RoundReady(contents0) && |lines| == 5
      && wall.lines == RoundWall(g0, contents0, 5)
      && (forall i :: 0 <= i < 5 ==> lines[i].tiles == RoundLine(contents0, 5, i))
      && floor.tiles == []
    }

    /** The end-of-round state after the first k pattern lines finished, from the wall, lines and store at the start. */
    ghost predicate Progress(g0: WallGrid, contents: seq<seq<Tile>>, used0: seq<Tile>, k: nat)
      requires Valid() && WellFormed(g0) && RoundReady(contents) && k <= 5
      reads this, wall, used, set l | l in lines
    {
      wall.lines == RoundWall(g0, contents, k)
      && (forall i :: 0 <= i < 5 ==> lines[i].tiles == RoundLine(contents, k, i))
      && used.tiles == used0 + RoundDiscards(contents, k)
    }

    /**
     * Ends the round: every pattern line finishes, top to bottom, then the
     * floor; the points become the old points plus the lines' points minus
     * the floor penalty. The result says whether a wall row is complete.
     */
    method FinishRound() returns (r: FinishRoundResult)
      requires Valid()
      modifies this, wall, floor, used, set l | l in lines
      ensures Valid()
      ensures FinishedRoundFrom(old(wall.lines), old(LineContents(lines)))
      ensures points.value == old(points.value) + RoundPoints(old(wall.lines), old(LineContents(lines)), 5)
        - Penalty(BoardFloorPattern, old(|floor.tiles|))
      ensures used.tiles == old(used.tiles) + RoundDiscards(old(LineContents(lines)), 5) + RemoveFirst(old(floor.tiles), StartingPlayer)
      ensures r == GameFinished(wall.lines)
    {
      ghost var g0 := wall.lines;
      ghost var contents := LineContents(lines);
      var lineScores := FinishLines();
      assert wall.lines == RoundWall(g0, contents, 5);
      assert used.tiles == old(used.tiles) + RoundDiscards(contents, 5);
      var penalty := floor.FinishRound();
      var pointsToSum := lineScores + [Points(-penalty.value), points];
      SumAppend(lineScores, [Points(-penalty.value), points]);
      assert Sum([Points(-penalty.value), points]).value == -penalty.value + points.value;
      points := Sum(pointsToSum);
      ConcatAssociates(old(used.tiles), RoundDiscards(contents, 5), RemoveFirst(old(floor.tiles), StartingPlayer));
      r := GameFinished(wall.lines);
    }

    /** Adds the end-of-game bonus the final points calculation gives the wall to the points. */
    method EndGame()
      requires Valid()
      modifies this
      ensures Valid() && wall.lines == old(wall.lines)
      ensures points.value == old(points.value) + finalPoints.GetPoints(wall.lines).value
    {
      var finalScore := finalPoints.GetPoints(wall.lines);
      SumAppend([points], [finalScore]);
      points := Sum([points, finalScore]);
    }

    /** Every pattern line finishes the round, top to bottom; the result lists the points each scores. */
    method FinishLines() returns (lineScores: seq<Points>)
      requires Valid()
      modifies wall, used, set l | l in lines
      ensures Valid() && RoundReady(old(LineContents(lines))) && WellFormed(old(wall.lines))
      ensures Progress(old(wall.lines), old(LineContents(lines)), old(used.tiles), 5)
      ensures Sum(lineScores).value == RoundPoints(old(wall.lines), old(LineContents(lines)), 5)
    {
      ghost var g0 := wall.lines;
      ghost var contents := LineContents(lines);
      ghost var used0 := used.tiles;
      assert RoundReady(contents) by {
        forall i | 0 <= i < 5 && |contents[i]| == i + 1
          ensures IsColour(contents[i][0])
        {
          assert LineFits(lines[i], i);
        }
      }
      lineScores := [];
      var i := 0;
      while i < 5
        invariant i <= 5 && Valid() && Progress(g0, contents, used0, i)
        invariant Sum(lineScores).value == RoundPoints(g0, contents, i)
      {
        var p := FinishLine(i, g0, contents, used0);
        SumAppend(lineScores, [p]);
        lineScores := lineScores + [p];
        i := i + 1;
      }
    }

    /** Pattern line k finishes the round, moving the end-of-round state from k lines to k + 1. */
    method FinishLine(k: nat, ghost g0: WallGrid, ghost contents: seq<seq<Tile>>, ghost used0: seq<Tile>) returns (p: Points)
      requires Valid() && WellFormed(g0) && RoundReady(contents) && k < 5
      requires Progress(g0, contents, used0, k)
      modifies wall, used, lines[k]
      ensures Valid() && Progress(g0, contents, used0, k + 1)
      ensures p.value == RoundPoints(g0, contents, k + 1) - RoundPoints(g0, contents, k)
    {
      assert LineFits(lines[k], k);
      ghost var full := |contents[k]| == k + 1;
      ghost var discarded := if full then RemoveFirst(contents[k][1..], StartingPlayer) else [];
      ConcatAssociates(used0, RoundDiscards(contents, k), discarded);
      p := lines[k].FinishRound();
      assert used.tiles == used0 + RoundDiscards(contents, k + 1);
      assert forall i :: 0 <= i < 5 ==> lines[i].tiles == RoundLine(contents, k + 1, i);
    }
  }
}
