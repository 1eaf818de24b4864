/**
 * The game: players, turns, rounds and the final ranking.
 *
 * A game starts with two to four distinct player ids and sets up a bag of
 * 100 tiles, a table area with 5, 7 or 9 factories and one board per
 * player. Players take tiles in turn; taking the starting-player marker
 * from the centre makes that player start the next round. When the table
 * is empty every board finishes the round; the game ends when a board has
 * a complete wall row, otherwise the players are rotated so that the
 * starter is first and the table is refilled. At the end every board adds
 * its bonus, the boards are sorted by points and ranked densely.
 */
module AzulGame {
  import opened AzulTypes
  import opened AzulWall
  import opened AzulScoring
  import opened AzulBag
  import opened AzulTable
  import opened AzulBoard

  /** Five factories for two players, seven for three, nine for four. */
  function NumberOfFactories(players: nat): (n: nat)
    requires 2 <= players <= 4
    ensures n == 2 * players + 1
  {
    map[2 := 5, 3 := 7, 4 := 9][players]
  }

  /** The tiles of a new bag: black, blue, green, red and yellow, repeated twenty times. */
  function BagTiles(): (r: seq<Tile>)
    ensures |r| == 100 && StartingPlayer !in r
  {
    var round := [Black, Blue, Green, Red, Yellow];
    seq(100, i => round[i % 5])
  }

  /** No id occurs twice. */
  predicate DistinctIds(ids: seq<int>)
  {
    forall i, j :: 0 <= i < j < |ids| ==> ids[i] != ids[j]
  }

  /** The number of occurrences of x in ids. */
  function Occurrences(ids: seq<int>, x: int): nat
  {
    multiset(ids)[x]
  }

  /** ids are distinct exactly when every id occurs once. */
  lemma {:induction false} DistinctIffSingle(ids: seq<int>)
    ensures DistinctIds(ids) <==> forall i :: 0 <= i < |ids| ==> Occurrences(ids, ids[i]) == 1
  {
    if DistinctIds(ids) {
      forall i | 0 <= i < |ids|
        ensures Occurrences(ids, ids[i]) == 1
      {
        OccursOnce(ids, i);
      }
    } else {
      var i, j :| 0 <= i < j < |ids| && ids[i] == ids[j];
      TwoOccurrences(ids, i, j);
    }
  }

  lemma {:induction false} OccursOnce(ids: seq<int>, i: nat)
    requires DistinctIds(ids) && i < |ids|
    ensures Occurrences(ids, ids[i]) == 1
  {
    assert ids == ids[..i] + [ids[i]] + ids[i + 1..];
    assert ids[i] !in ids[..i] && ids[i] !in ids[i + 1..];
  }

  lemma {:induction false} TwoOccurrences(ids: seq<int>, i: nat, j: nat)
    requires i < j < |ids| && ids[i] == ids[j]
    ensures Occurrences(ids, ids[i]) >= 2
  {
    assert ids == ids[..i] + [ids[i]] + ids[i + 1..j] + [ids[j]] + ids[j + 1..];
  }

  /** Accepts the ids when no id occurs more than once, checking them in order. */
  method CheckIds(ids: seq<int>) returns (ok: bool)
    ensures ok <==> DistinctIds(ids)
  {
    DistinctIffSingle(ids);
    var i := 0;
    while i < |ids|
      invariant i <= |ids|
      invariant forall k :: 0 <= k < i ==> Occurrences(ids, ids[k]) <= 1
    {
      if Occurrences(ids, ids[i]) > 1 {
        return false;
      }
      i := i + 1;
    }
    forall k | 0 <= k < |ids|
      ensures Occurrences(ids, ids[k]) == 1
    {
      assert ids[k] in multiset(ids);
    }
    return true;
  }

  /** The players after rotating left k times: the player at k comes first, order kept. */
  function Rotated(players: seq<int>, k: nat): (r: seq<int>)
    requires k <= |players|
    ensures multiset(r) == multiset(players) && |r| == |players|
  {
    assert players == players[..k] + players[k..];
    players[k..] + players[..k]
  }

  /** The rotation by k starts with the player at index k. */
  lemma RotatedFront(players: seq<int>, k: nat)
    requires k < |players|
    ensures Rotated(players, k)[0] == players[k]
  {
  }

  /** One more left rotation moves the next player to the front. */
  lemma RotateOnceMore(players: seq<int>, k: nat)
    requires k < |players|
    ensures Rotated(players, k)[1..] + [Rotated(players, k)[0]] == Rotated(players, k + 1)
  {
  }

  /** A rotation keeps the ids distinct. */
  lemma {:induction false} RotatedDistinct(players: seq<int>, k: nat)
    requires k <= |players| && DistinctIds(players)
    ensures DistinctIds(Rotated(players, k))
  {
    var r := Rotated(players, k);
    forall i, j | 0 <= i < j < |r|
      ensures r[i] != r[j]
    {
      var n := |players|;
      var pi := if i < n - k then i + k else i - (n - k);
      var pj := if j < n - k then j + k else j - (n - k);
      assert r[i] == players[pi] && r[j] == players[pj] && pi != pj;
    }
  }

  /** A score entry: a player id and that player's points. */
  type Entry = (int, Points)

  /** Points never increase along the list. */
  predicate Descending(s: seq<Entry>)
  {
    forall i, j :: 0 <= i < j < |s| ==> s[j].1.value <= s[i].1.value
  }

  /** The entries with v points, in list order. */
  function WithPoints(s: seq<Entry>, v: int): seq<Entry>
  {
    if s == [] then []
    else (if s[0].1.value == v then [s[0]] else []) + WithPoints(s[1..], v)
  }

  /** Inserts x before the first entry that does not have more points than x. */
  function InsertByPoints(x: Entry, s: seq<Entry>): seq<Entry>
  {
    if s == [] || s[0].1.value <= x.1.value then [x] + s
    else [s[0]] + InsertByPoints(x, s[1..])
  }

  /** Inserting keeps every entry and adds x. */
  lemma {:induction false} InsertKeepsEntries(x: Entry, s: seq<Entry>)
    ensures multiset(InsertByPoints(x, s)) == multiset(s) + multiset{x}
  {
    if !(s == [] || s[0].1.value <= x.1.value) {
      InsertKeepsEntries(x, s[1..]);
      assert s == [s[0]] + s[1..];
    }
  }

  /** Inserting into a descending list keeps it descending. */
  lemma {:induction false} InsertKeepsDescending(x: Entry, s: seq<Entry>)
    requires Descending(s)
    ensures Descending(InsertByPoints(x, s))
  {
    var r := InsertByPoints(x, s);
    if !(s == [] || s[0].1.value <= x.1.value) {
      var t := InsertByPoints(x, s[1..]);
      InsertKeepsDescending(x, s[1..]);
      InsertKeepsEntries(x, s[1..]);
      assert r == [s[0]] + t;
      forall j | 0 < j < |r|
        ensures r[j].1.value <= r[0].1.value
      {
        assert r[j] in multiset(t);
        assert r[j] == x || r[j] in multiset(s[1..]);
      }
    }
  }

  /** Among the entries with x's points, an inserted x comes first; other groups are unchanged. */
  lemma {:induction false} InsertKeepsGroups(x: Entry, s: seq<Entry>, v: int)
    ensures WithPoints(InsertByPoints(x, s), v) == (if x.1.value == v then [x] else []) + WithPoints(s, v)
  {
    var r := InsertByPoints(x, s);
    if s == [] || s[0].1.value <= x.1.value {
      assert r[1..] == s;
    } else {
      InsertKeepsGroups(x, s[1..], v);
      assert r[1..] == InsertByPoints(x, s[1..]);
      if x.1.value == v {
        assert s[0].1.value != v;
      }
    }
  }

  /**
   * The scoreboard: the entries sorted by points, highest first; entries
   * with equal points keep their order.
   */
  function EvaluateScores(entries: seq<Entry>): (r: seq<Entry>)
    ensures Descending(r) && multiset(r) == multiset(entries)
    ensures forall v :: WithPoints(r, v) == WithPoints(entries, v)
  {
    if entries == [] then []
    else
      var rest := EvaluateScores(entries[1..]);
      InsertKeepsEntries(entries[0], rest);
      InsertKeepsDescending(entries[0], rest);
      forall v
        ensures WithPoints(InsertByPoints(entries[0], rest), v) == WithPoints(entries, v)
      {
        InsertKeepsGroups(entries[0], rest, v);
      }
      assert entries == [entries[0]] + entries[1..];
      InsertByPoints(entries[0], rest)
  }

  /** Equal points give the same rank, fewer points a later one, and ranks start at 1 with no gap. */
  predicate DenselyRanked(scoreboard: seq<Entry>, ranks: seq<nat>)
  {
    |ranks| == |scoreboard| && (ranks != [] ==> ranks[0] == 1)
    && (forall i :: 0 < i < |ranks| ==> ranks[i - 1] <= ranks[i] <= ranks[i - 1] + 1)
    && forall i, j :: 0 <= i < j < |ranks| ==>
      (ranks[i] == ranks[j] <==> scoreboard[i].1 == scoreboard[j].1)
  }

  /**
   * Ranks a scoreboard: the rank goes up by one each time the points
   * drop below the previous entry's points.
   */
  method DenseRanks(scoreboard: seq<Entry>) returns (ranks: seq<nat>)
    requires scoreboard != [] && Descending(scoreboard)
    ensures DenselyRanked(scoreboard, ranks)
  {
    var rank := 1;
    var previous := scoreboard[0].1;
    ranks := [];
    var i := 0;
    while i < |scoreboard|
      invariant i <= |scoreboard| && |ranks| == i
      invariant DenselyRanked(scoreboard[..i], ranks)
      invariant i > 0 ==> previous == scoreboard[i - 1].1 && rank == ranks[i - 1]
      invariant i == 0 ==> previous == scoreboard[0].1 && rank == 1
    {
      var score := scoreboard[i].1;
      if Less(score, previous) {
        rank := rank + 1;
      }
      previous := score;
      RankStep(scoreboard, ranks, i, rank);
      ranks := ranks + [rank];
      i := i + 1;
    }
    assert scoreboard[..i] == scoreboard;
  }

  /** Appending the next entry's rank keeps a descending prefix densely ranked. */
  lemma {:induction false} RankStep(scoreboard: seq<Entry>, ranks: seq<nat>, i: nat, rank: nat)
    requires Descending(scoreboard) && i < |scoreboard| && DenselyRanked(scoreboard[..i], ranks)
    requires i == 0 ==> rank == 1
    requires i > 0 ==> rank == ranks[i - 1] + (if Less(scoreboard[i].1, scoreboard[i - 1].1) then 1 else 0)
    ensures DenselyRanked(scoreboard[..i + 1], ranks + [rank])
  {
    var s, r := scoreboard[..i + 1], ranks + [rank];
    forall a, b | 0 <= a < b < |r|
      ensures r[a] == r[b] <==> s[a].1 == s[b].1
    {
      if b == i {
        NewRankMatches(scoreboard, ranks, i, rank, a);
      } else {
        assert s[a] == scoreboard[..i][a] && s[b] == scoreboard[..i][b];
      }
    }
  }

  /** The rank given to entry i equals an earlier entry's rank exactly when their points are equal. */
  lemma {:induction false} NewRankMatches(scoreboard: seq<Entry>, ranks: seq<nat>, i: nat, rank: nat, a: nat)
    requires Descending(scoreboard) && a < i < |scoreboard| && DenselyRanked(scoreboard[..i], ranks)
    requires rank == ranks[i - 1] + (if Less(scoreboard[i].1, scoreboard[i - 1].1) then 1 else 0)
    ensures ranks[a] == rank <==> scoreboard[a].1 == scoreboard[i].1
  {
    var prefix := scoreboard[..i];
    assert Descending(prefix);
    RanksClimb(prefix, ranks, a, i - 1);
    if a < i - 1 {
      assert ranks[a] == ranks[i - 1] <==> prefix[a].1 == prefix[i - 1].1;
    }
  }

  /** In a densely ranked descending list, rank a equals rank b exactly when the points do, and never exceeds it. */
  lemma {:induction false} RanksClimb(s: seq<Entry>, ranks: seq<nat>, a: nat, b: nat)
    requires Descending(s) && DenselyRanked(s, ranks) && a <= b < |s|
    ensures ranks[a] <= ranks[b]
    ensures s[b].1.value <= s[a].1.value
  {
    if a < b {
      RanksClimb(s, ranks, a, b - 1);
    }
  }

  /** The first position of x in s. */
  function IndexOf(s: seq<int>, x: int): (i: nat)
    requires x in s
    ensures i < |s| && s[i] == x && x !in s[..i]
  {
    if s[0] == x then 0
    else
      var j := IndexOf(s[1..], x);
      assert s[..j + 1] == [s[0]] + s[1..][..j];
      j + 1
  }

  /** A take ends the round when it leaves the centre and every factory empty. */
  predicate RoundOver(m: TakeOutcome)
  {
    m.centre == [] && forall i :: 0 <= i < |m.factories| ==> m.factories[i] == []
  }

  /** The next round's starter after a take by playerId: the taker if the marker came with the tiles. */
  function StarterAfter(m: TakeOutcome, playerId: int, starter: Option<int>): Option<int>
  {
    if StartingPlayer in m.taken then Some(playerId) else starter
  }

  /** A board's wall, line contents, floor tile count and points at the start of a round end. */
  datatype BoardSnapshot = BoardSnapshot(wall: WallGrid, contents: seq<seq<Tile>>, floorCount: nat, points: int)

  ghost function SnapshotOf(b: Board): BoardSnapshot
    reads BoardParts(b)
  {
    BoardSnapshot(b.wall.lines, LineContents(b.lines), |b.floor.tiles|, b.points.value)
  }

  /** The points after the round: the points before, the placed tiles' points and the floor penalty. */
  function RoundScore(s: BoardSnapshot): int
    requires WellFormed(s.wall) && RoundReady(s.contents)
  {
    s.points + RoundPoints(s.wall, s.contents, 5) - Penalty(BoardFloorPattern, s.floorCount)
  }

  /** The end-of-game bonus the calculation's components give a wall. */
  function Bonus(components: seq<Calculation>, wall: WallGrid): int
  {
    if FiveWide(wall) then ComponentsPoints(components, wall).value else 0
  }

  /**
   * A board that stood at s when the round ended now has the wall, the
   * pattern lines and the empty floor that finishing the round leaves, and
   * its points are the round's score plus `bonus`.
   */
  predicate RoundDone(now: BoardSnapshot, s: BoardSnapshot, bonus: int)
  {
    WellFormed(s.wall) && RoundReady(s.contents)
    && now.wall == RoundWall(s.wall, s.contents, 5)
    && |now.contents| == 5 && (forall i :: 0 <= i < 5 ==> now.contents[i] == RoundLine(s.contents, 5, i))
    && now.floorCount == 0 && now.points == RoundScore(s) + bonus
  }

  /** A board that stood at s has only gained the end-of-game bonus of its wall. */
  predicate BonusOn(now: BoardSnapshot, s: BoardSnapshot, components: seq<Calculation>)
  {
    now.wall == s.wall && now.contents == s.contents && now.floorCount == s.floorCount
    && now.points == s.points + Bonus(components, now.wall)
  }

  /**
   * The parts of a started game fit together: the table draws from the bag,
   * the bag refills from the used tiles, there are 2 to 4 players with the
   * matching number of factories, and one board per player, no two sharing
   * a part.
   */
  ghost predicate Setup(table: TableArea?, bag: Bag?, used: UsedTiles?, finalPoints: PointsCalculation?,
                        players: seq<int>, order: seq<int>, boards: map<int, Board>)
  {
    table != null && bag != null && used != null && finalPoints != null
    && table.bag == bag && bag.used == used && table.Valid() && bag.Valid()
    && 2 <= |players| <= 4 && |table.factories| == NumberOfFactories(|players|)
    && DistinctIds(order) && multiset(players) == multiset(order)
    && boards.Keys == (set id | id in order) && Apart(boards)
  }

  /** Every board is ready and shares the used tiles and the final points calculation. */
  ghost predicate AllBoardsOf(boards: map<int, Board>, finalPoints: PointsCalculation?, used: UsedTiles?)
    reads BoardsRepr(boards)
  {
    forall id :: id in boards ==> BoardOf(boards[id], finalPoints, used)
  }

  /** Puts the tiles on line destination of board id; the other boards are untouched. */
  method PutOnBoard(boards: map<int, Board>, id: int, destination: nat, given: seq<Tile>, colour: Tile,
                    finalPoints: PointsCalculation?, used: UsedTiles?)
    requires AllBoardsOf(boards, finalPoints, used) && Apart(boards) && id in boards && destination < 5
    requires IsColour(colour) && OneColour(RemoveFirst(given, StartingPlayer), colour)
    modifies boards[id].lines[destination], boards[id].floor
    ensures AllBoardsOf(boards, finalPoints, used)
    ensures var put := old(boards[id].PutResult(destination, given));
      boards[id].lines[destination].tiles == put.0 && boards[id].floor.tiles == old(boards[id].floor.tiles) + put.1
  {
    var b := boards[id];
    assert BoardOf(b, finalPoints, used);
    b.Put(destination, given);
    forall k | k in boards && k != id
      ensures BoardOf(boards[k], finalPoints, used)
    {
      assert BoardParts(boards[k]) !! BoardParts(b);
    }
  }

  /**
   * Takes colour idx from source sourceIdx of the table and puts the tiles
   * on line destination of board id.
   */
  method MoveTiles(table: TableArea, boards: map<int, Board>, finalPoints: PointsCalculation?, used: UsedTiles?,
                   id: int, sourceIdx: nat, idx: nat, destination: nat) returns (taken: seq<Tile>)
    requires table.Valid() && sourceIdx <= |table.factories| && idx < 5 && destination < 5
    requires AllBoardsOf(boards, finalPoints, used) && Apart(boards) && id in boards
    modifies table.centre, boards[id].lines[destination], boards[id].floor, set f | f in table.factories
    ensures var m := old(TakeFromTable(table.centre.tiles, Contents(table.factories), sourceIdx, idx));
      taken == m.taken && table.centre.tiles == m.centre && Contents(table.factories) == m.factories
    ensures AllBoardsOf(boards, finalPoints, used)
    ensures var put := old(boards[id].PutResult(destination, TakeFromTable(table.centre.tiles, Contents(table.factories), sourceIdx, idx).taken));
      boards[id].lines[destination].tiles == put.0 && boards[id].floor.tiles == old(boards[id].floor.tiles) + put.1
  {
    ghost var floorBefore := boards[id].floor.tiles;
    taken := TakeFromTableArea(table, boards, finalPoints, used, id, sourceIdx, idx, destination);
    PutOnBoard(boards, id, destination, taken, TileOfIndex(idx), finalPoints, used);
  }

  /** The take half of a move: the boards are untouched and keep what a put on board id would do. */
  method TakeFromTableArea(table: TableArea, boards: map<int, Board>, finalPoints: PointsCalculation?, used: UsedTiles?,
                           id: int, sourceIdx: nat, idx: nat, destination: nat) returns (taken: seq<Tile>)
    requires table.Valid() && sourceIdx <= |table.factories| && idx < 5 && destination < 5
    requires AllBoardsOf(boards, finalPoints, used) && id in boards
    modifies table.centre, set f | f in table.factories
    ensures var m := old(TakeFromTable(table.centre.tiles, Contents(table.factories), sourceIdx, idx));
      taken == m.taken && table.centre.tiles == m.centre && Contents(table.factories) == m.factories
    ensures AllBoardsOf(boards, finalPoints, used)
    ensures OneColour(RemoveFirst(taken, StartingPlayer), TileOfIndex(idx))
    ensures boards[id].PutResult(destination, taken)
      == old(boards[id].PutResult(destination, TakeFromTable(table.centre.tiles, Contents(table.factories), sourceIdx, idx).taken))
    ensures boards[id].floor.tiles == old(boards[id].floor.tiles)
  {
    assert BoardOf(boards[id], finalPoints, used);
    taken := TakeBesideBoard(table, boards[id], sourceIdx, idx, destination);
  }

  /** Taking from the table leaves board b as it was. */
  method TakeBesideBoard(table: TableArea, b: Board, sourceIdx: nat, idx: nat, destination: nat) returns (taken: seq<Tile>)
    requires table.Valid() && sourceIdx <= |table.factories| && idx < 5 && destination < 5
    requires b.Valid()
    modifies table.centre, set f | f in table.factories
    ensures var m := old(TakeFromTable(table.centre.tiles, Contents(table.factories), sourceIdx, idx));
      taken == m.taken && table.centre.tiles == m.centre && Contents(table.factories) == m.factories
    ensures b.Valid() && b.floor.tiles == old(b.floor.tiles)
    ensures OneColour(RemoveFirst(taken, StartingPlayer), TileOfIndex(idx))
    ensures b.PutResult(destination, taken)
      == old(b.PutResult(destination, TakeFromTable(table.centre.tiles, Contents(table.factories), sourceIdx, idx).taken))
  {
    taken := TakeKeepingBoard(table, b, sourceIdx, idx);
  }

  /** Taking from the table keeps board b valid and its floor as it was. */
  method TakeKeepingBoard(table: TableArea, b: Board, sourceIdx: nat, idx: nat) returns (taken: seq<Tile>)
    requires table.Valid() && sourceIdx <= |table.factories| && idx < 5
    requires b.Valid()
    modifies table.centre, set f | f in table.factories
    ensures var m := old(TakeFromTable(table.centre.tiles, Contents(table.factories), sourceIdx, idx));
      taken == m.taken && table.centre.tiles == m.centre && Contents(table.factories) == m.factories
    ensures b.Valid() && b.floor.tiles == old(b.floor.tiles)
    ensures OneColour(RemoveFirst(taken, StartingPlayer), TileOfIndex(idx))
  {
    TakeHandsColour(table.centre.tiles, Contents(table.factories), sourceIdx, idx);
    taken := table.Take(sourceIdx, idx);
  }

  /** The objects of a board that its operations change. */
  function BoardParts(b: Board): set<object>
  {
    {b, b.wall, b.floor} + set l | l in b.lines
  }

  /** The objects of all boards. */
  function BoardsRepr(boards: map<int, Board>): set<object>
  {
    set id, o | id in boards && o in BoardParts(boards[id]) :: o
  }

  /** The game and the table centre are not parts of any board. */
  lemma OutsideBoards(g: Game, table: TableArea, bag: Bag, boards: map<int, Board>)
    ensures g !in BoardsRepr(boards) && table.centre !in BoardsRepr(boards) && bag !in BoardsRepr(boards)
  {
  }

  /** The parts of a board are among the objects of all boards. */
  lemma PartsInRepr(boards: map<int, Board>, id: int)
    requires id in boards
    ensures BoardParts(boards[id]) <= BoardsRepr(boards)
  {
  }

  /** A board is among the boards' objects. */
  lemma BoardInObjects(boards: map<int, Board>, id: int)
    requires id in boards
    ensures boards[id] in BoardObjects(boards)
  {
  }

  /** The board of a player is ready and shares the used tiles and the final points calculation. */
  lemma BoardOfId(boards: map<int, Board>, finalPoints: PointsCalculation?, used: UsedTiles?, id: int)
    requires AllBoardsOf(boards, finalPoints, used) && id in boards
    ensures BoardOf(boards[id], finalPoints, used)
  {
  }

  /** Every board is among the objects of all boards. */
  lemma {:induction false} BoardsInRepr(boards: map<int, Board>)
    ensures BoardObjects(boards) <= BoardsRepr(boards)
  {
    forall b | b in BoardObjects(boards)
      ensures b in BoardsRepr(boards)
    {
      var id :| id in boards && boards[id] == b;
      assert b in BoardParts(boards[id]);
    }
  }

  /** Different players' boards share no part. */
  predicate Apart(boards: map<int, Board>)
  {
    forall a, b :: a in boards && b in boards && a != b ==> BoardParts(boards[a]) !! BoardParts(boards[b])
  }

  class Game {
    var started: bool
    var ended: bool
    /** The ids in turn order; rotated at the start of each round. */
    var players: seq<int>
    var playerOnTurn: nat
    var starterNext: Option<int>
    /** The ids in the order the boards were created, which is the order boards finish rounds. */
    var order: seq<int>
    var boards: map<int, Board>
    var table: TableArea?
    var bag: Bag?
    var used: UsedTiles?
    var finalPoints: PointsCalculation?
    /** The permutation generator the bag draws with. */
    const permutations: (nat, nat) -> seq<nat>

    ghost predicate Valid()
      reads this, BoardsRepr(boards), if table == null then {} else {table.centre}
    {
      (forall k, n :: IsPermutation(permutations(k, n), n))
      && (!started ==> !ended && players == [] && starterNext == None)
      && (started ==> Components() && BoardsReady() && StarterKnown())
    }

    /** The started game's parts fit together; the player on turn and the next starter are players. */
    ghost predicate Components()
      reads this
    {
      Setup(table, bag, used, finalPoints, players, order, boards)
      && playerOnTurn < |players| && (starterNext.Some? ==> starterNext.value in players)
    }

    /** Every board is ready and shares the used tiles and the final points calculation. */
    ghost predicate BoardsReady()
      reads this, BoardsRepr(boards)
    {
      AllBoardsOf(boards, finalPoints, used)
    }

    /**
     * While the game runs, the next round's starter is known or the marker
     * is still in the centre, so a round never ends without a starter.
     */
    ghost predicate StarterKnown()
      reads this, if table == null then {} else {table.centre}
    {
      table != null && (!ended ==> StartingPlayer in table.centre.tiles || starterNext.Some?)
    }

    /** A game before start: no players, not started, not ended. */
    constructor(permutations: (nat, nat) -> seq<nat>)
      requires forall k, n :: IsPermutation(permutations(k, n), n)
      ensures Valid() && !started && !ended && players == [] && starterNext == None
      ensures this.permutations == permutations
    {
      this.permutations := permutations;
      started := false;
      ended := false;
      players := [];
      playerOnTurn := 0;
      starterNext := None;
      order := [];
      boards := map[];
      table := null;
      bag := null;
      used := null;
      finalPoints := null;
    }

    /**
     * Starts the game with the given ids in turn order. Refused, changing
     * nothing, when the game has ended or already started, the player count
     * is not 2 to 4, the number of ids differs from it, or an id repeats.
     * Otherwise the game is set up and the first round is dealt.
     */
    method Start(count: int, ids: seq<int>) returns (ok: bool)
      requires Valid()
      modifies this
      ensures Valid()
      ensures ok <==> !old(ended) && !old(started) && 2 <= count <= 4 && |ids| == count && DistinctIds(ids)
      ensures !ok ==> unchanged(this)
      ensures ok ==> started && !ended && players == ids && playerOnTurn == 0 && starterNext == None
      ensures ok ==> (table.centre.tiles == [StartingPlayer]
        && (forall i :: 0 <= i < |table.factories| ==> |table.factories[i].tiles| == 4)
        && |bag.tiles| + |used.tiles| == 100 - 4 * |table.factories|)
      ensures ok ==> boards.Keys == (set id | id in ids) && forall id :: id in boards ==> boards[id].points == Points(0)
    {
      ok := !ended && !(count < 2 || count > 4 || started) && |ids| == count;
      if ok {
        ok := CheckIds(ids);
      }
      if ok {
        Begin(ids);
      }
    }

    /** Records the players in the given order, sets the game up and deals the first round. */
    method Begin(ids: seq<int>)
      requires Valid() && !started && 2 <= |ids| <= 4 && DistinctIds(ids)
      modifies this
      ensures Valid()
      ensures started && !ended && players == ids && playerOnTurn == 0 && starterNext == None
      ensures table.centre.tiles == [StartingPlayer]
      ensures forall i :: 0 <= i < |table.factories| ==> |table.factories[i].tiles| == 4
      ensures |bag.tiles| + |used.tiles| == 100 - 4 * |table.factories|
      ensures boards.Keys == (set id | id in ids) && forall id :: id in boards ==> boards[id].points == Points(0)
    {
      players := ids;
      playerOnTurn := 0;
      started := true;
      CreateGame();
      RefillTable(table, bag, used, boards, finalPoints);
    }

    /**
     * Sets up the parts: used tiles, a bag of 100 tiles, the final bonus
     * calculation, a table area with the players' number of factories and
     * a board for every player.
     */
    method CreateGame()
      requires (forall k, n :: IsPermutation(permutations(k, n), n))
      requires 2 <= |players| <= 4 && DistinctIds(players) && playerOnTurn < |players|
      requires starterNext == None && !ended
      modifies this
      ensures started == old(started) && ended == old(ended) && players == old(players)
      ensures playerOnTurn == old(playerOnTurn) && starterNext == old(starterNext)
      ensures Components() && BoardsReady() && order == players
      ensures fresh(table) && fresh(table.centre) && fresh(bag) && fresh(used) && fresh(finalPoints)
      ensures forall f :: f in table.factories ==> fresh(f)
      ensures table.centre.tiles == [] && used.tiles == [] && bag.tiles == BagTiles()
      ensures forall i :: 0 <= i < |table.factories| ==> table.factories[i].tiles == []
      ensures finalPoints.components == [Composite([HorizontalRow, VerticalColumn, Colour])]
      ensures forall id :: id in boards ==> boards[id].points == Points(0)
    {
      var u, b, fp, t := NewParts(|players|, permutations);
      used, bag, finalPoints, table, order := u, b, fp, t, players;
      boards := NewBoards(players, fp, u);
    }

    /** The game's parts, which stay the same once it has started. */
    ghost function Parts(): (TableArea?, Bag?, UsedTiles?, PointsCalculation?, map<int, Board>, seq<int>)
      reads this
    {
      (table, bag, used, finalPoints, boards, order)
    }

    /** The centre and the factories. */
    ghost function TableRepr(): set<object>
      reads this
    {
      if table == null then {} else {table.centre as object} + set f: object | f in table.factories
    }

    /** What taking colour idx from source sourceIdx would give and leave now. */
    ghost function Outcome(sourceIdx: nat, idx: nat): (m: TakeOutcome)
      requires table != null && sourceIdx <= |table.factories| && idx < 5
      reads this, TableRepr()
      ensures StartingPlayer in table.centre.tiles ==> StartingPlayer in m.centre || StartingPlayer in m.taken
      ensures OneColour(RemoveFirst(m.taken, StartingPlayer), TileOfIndex(idx))
      ensures StartingPlayer in m.taken <==> sourceIdx == 0 && StartingPlayer in table.centre.tiles
    {
      TakeHandsColour(table.centre.tiles, Contents(table.factories), sourceIdx, idx);
      TakeFromTable(table.centre.tiles, Contents(table.factories), sourceIdx, idx)
    }

    /** The centre and the factories hold what the outcome left. */
    ghost predicate TableIs(m: TakeOutcome)
      reads this, TableRepr()
    {
      table != null && table.centre.tiles == m.centre && Contents(table.factories) == m.factories
    }

    /**
     * A player's move: takes colour idx from source sourceIdx and puts the
     * tiles on pattern line destination of the player's board. Taking the
     * marker makes the player the next round's starter.
     */
    method Move(playerId: int, sourceIdx: nat, idx: nat, destination: nat)
      requires Valid() && started && !ended && playerId in boards
      requires sourceIdx <= |table.factories| && idx < 5 && destination < 5
      modifies this, TableRepr(), BoardParts(boards[playerId])
      ensures Valid() && Parts() == old(Parts()) && started && !ended
      ensures players == old(players) && playerOnTurn == old(playerOnTurn)
      ensures TableIs(old(Outcome(sourceIdx, idx)))
      ensures starterNext == StarterAfter(old(Outcome(sourceIdx, idx)), playerId, old(starterNext))
      ensures var put := old(boards[playerId].PutResult(destination, Outcome(sourceIdx, idx).taken));
        boards[playerId].lines[destination].tiles == put.0
        && boards[playerId].floor.tiles == old(boards[playerId].floor.tiles) + put.1
    {
      ghost var outcome := Outcome(sourceIdx, idx);
      var taken := MoveTiles(table, boards, finalPoints, used, playerId, sourceIdx, idx, destination);
      if StartingPlayer in taken {
        assert playerId in multiset(order);
        SetStarter(Some(playerId), outcome);
      }
    }

    /**
     * The player on turn takes colour idx from source sourceIdx (0 the
     * centre, 1..n the factories) onto pattern line destination. Refused,
     * changing nothing, after the end of the game, for another player or
     * for an index out of range. When the take empties the table the round
     * ends; otherwise the next player is on turn.
     */
    method Take(playerId: int, sourceIdx: int, idx: int, destination: int) returns (ok: bool)
      requires Valid() && started
      modifies this, TableRepr(), bag, used, BoardsRepr(boards)
      ensures Valid() && Parts() == old(Parts()) && started
      ensures ok <==> (!old(ended) && playerId == old(players[playerOnTurn])
        && 0 <= sourceIdx <= |table.factories| && 0 <= idx <= 4 && 0 <= destination <= 4)
      ensures !ok ==> unchanged(this, bag, used) && unchanged(TableRepr()) && unchanged(BoardsRepr(boards))
      ensures ok ==> playerId in boards
      ensures ok ==> Played(old(Outcome(sourceIdx, idx)), playerId, old(starterNext), old(players), old(playerOnTurn))
      ensures ok && !RoundOver(old(Outcome(sourceIdx, idx))) ==>
        var put := old(boards[playerId].PutResult(destination, Outcome(sourceIdx, idx).taken));
        boards[playerId].lines[destination].tiles == put.0
        && boards[playerId].floor.tiles == old(boards[playerId].floor.tiles) + put.1
    {
      ok := !ended;
      if ok {
        ok := playerId == players[playerOnTurn] && 0 <= sourceIdx <= NumberOfFactories(|players|)
          && 0 <= idx <= 4 && 0 <= destination <= 4;
      }
      if ok {
        assert playerId in boards by {
          assert playerId in multiset(players);
        }
        Play(playerId, sourceIdx, idx, destination);
      }
    }

    /**
     * After a move that took outcome m: when m leaves the table empty the
     * round has ended, and the game with it exactly when some wall has a
     * complete row, otherwise the players are rotated to the starter and
     * the centre holds the marker again; when tiles remain the next player
     * is on turn.
     */
    ghost predicate Played(m: TakeOutcome, playerId: int, starter: Option<int>, players0: seq<int>, turn0: nat)
      reads this, TableRepr(), set id | id in boards :: boards[id].wall
    {
      if !RoundOver(m) then
        !ended && players == players0 && players0 != [] && playerOnTurn == (turn0 + 1) % |players0|
        && starterNext == StarterAfter(m, playerId, starter) && TableIs(m)
      else
        (ended <==> exists id :: id in boards && GameFinished(boards[id].wall.lines) == GAME_FINISHED)
        && (!ended ==>
          var next := StarterAfter(m, playerId, starter);
          next.Some? && next.value in players0
          && players == Rotated(players0, IndexOf(players0, next.value))
          && playerOnTurn == 0 && starterNext == None && table != null && table.centre.tiles == [StartingPlayer])
    }

    /** The move of an accepted take, then the end of the round or the next player's turn. */
    method Play(playerId: int, sourceIdx: nat, idx: nat, destination: nat)
      requires Valid() && started && !ended && playerId in boards
      requires sourceIdx <= |table.factories| && idx < 5 && destination < 5
      modifies this, TableRepr(), bag, used, BoardsRepr(boards)
      ensures Valid() && Parts() == old(Parts()) && started
      ensures Played(old(Outcome(sourceIdx, idx)), playerId, old(starterNext), old(players), old(playerOnTurn))
      ensures !RoundOver(old(Outcome(sourceIdx, idx))) ==>
        var put := old(boards[playerId].PutResult(destination, Outcome(sourceIdx, idx).taken));
        boards[playerId].lines[destination].tiles == put.0
        && boards[playerId].floor.tiles == old(boards[playerId].floor.tiles) + put.1
    {
      ghost var m := Outcome(sourceIdx, idx);
      ghost var put := boards[playerId].PutResult(destination, m.taken);
      ghost var floor := boards[playerId].floor.tiles + put.1;
      ghost var starter := starterNext;
      ghost var players0 := players;
      ghost var turn0 := playerOnTurn;
      OutsideMove(boards[playerId]);
      Move(playerId, sourceIdx, idx, destination);
      Conclude(m, playerId, starter, players0, turn0, destination, put.0, floor);
    }

    /** After the move: the end of the round when the table is empty, otherwise the next player's turn. */
    method Conclude(ghost m: TakeOutcome, ghost playerId: int, ghost starter: Option<int>, ghost players0: seq<int>,
                    ghost turn0: nat, ghost destination: nat, ghost line: seq<Tile>, ghost floor: seq<Tile>)
      requires Valid() && started && !ended && TableIs(m)
      requires starterNext == StarterAfter(m, playerId, starter) && players == players0 && playerOnTurn == turn0
      requires StartingPlayer in m.taken ==> playerId in players0
      requires playerId in boards && destination < 5
      requires boards[playerId].lines[destination].tiles == line && boards[playerId].floor.tiles == floor
      modifies this, TableRepr(), bag, used, BoardsRepr(boards)
      ensures Valid() && Parts() == old(Parts()) && started
      ensures Played(m, playerId, starter, players0, turn0)
      ensures !RoundOver(m) ==> boards[playerId].lines[destination].tiles == line && boards[playerId].floor.tiles == floor
    {
      if table.IsRoundEnd() {
        EndRound(m, playerId, starter, players0, turn0);
      } else {
        NextTurn(m, playerId, starter, players0, turn0, destination, line, floor);
      }
    }

    /** The move emptied the table: the round ends. */
    method EndRound(ghost m: TakeOutcome, ghost playerId: int, ghost starter: Option<int>, ghost players0: seq<int>,
                    ghost turn0: nat)
      requires Valid() && started && !ended && TableIs(m) && RoundOver(m)
      requires starterNext == StarterAfter(m, playerId, starter) && players == players0 && playerOnTurn == turn0
      requires StartingPlayer in m.taken ==> playerId in players0
      modifies this, TableRepr(), bag, used, BoardsRepr(boards)
      ensures Valid() && Parts() == old(Parts()) && started
      ensures Played(m, playerId, starter, players0, turn0)
    {
      StartNewRound();
    }

    /** Tiles remain on the table: the next player is on turn and the boards stay as they are. */
    method NextTurn(ghost m: TakeOutcome, ghost playerId: int, ghost starter: Option<int>, ghost players0: seq<int>,
                    ghost turn0: nat, ghost destination: nat, ghost line: seq<Tile>, ghost floor: seq<Tile>)
      requires Valid() && started && !ended && TableIs(m) && !RoundOver(m)
      requires starterNext == StarterAfter(m, playerId, starter) && players == players0 && playerOnTurn == turn0
      requires playerId in boards && destination < 5
      requires boards[playerId].lines[destination].tiles == line && boards[playerId].floor.tiles == floor
      modifies this
      ensures Valid() && Parts() == old(Parts()) && started
      ensures Played(m, playerId, starter, players0, turn0)
      ensures boards[playerId].lines[destination].tiles == line && boards[playerId].floor.tiles == floor
    {
      PassTurn();
    }

    /** The game, the bag and the used tiles are neither parts of the table nor of a board. */
    lemma OutsideMove(b: Board)
      ensures bag !in TableRepr() && used !in TableRepr() && bag !in BoardParts(b) && used !in BoardParts(b)
      ensures this !in TableRepr() && this !in BoardParts(b)
    {
    }

    /** Records the next round's starter; the parts and the boards stay as they are. */
    method SetStarter(s: Option<int>, ghost m: TakeOutcome)
      requires AllBoardsOf(boards, finalPoints, used) && TableIs(m)
      modifies this
      ensures AllBoardsOf(boards, finalPoints, used) && starterNext == s && TableIs(m)
      ensures Parts() == old(Parts()) && started == old(started) && ended == old(ended)
      ensures players == old(players) && playerOnTurn == old(playerOnTurn)
    {
      starterNext := s;
    }

    /** The next player is on turn; the parts and the boards stay as they are. */
    method PassTurn()
      requires AllBoardsOf(boards, finalPoints, used) && players != []
      modifies this
      ensures AllBoardsOf(boards, finalPoints, used) && playerOnTurn == (old(playerOnTurn) + 1) % old(|players|)
      ensures Parts() == old(Parts()) && started == old(started) && ended == old(ended)
      ensures players == old(players) && starterNext == old(starterNext)
    {
      playerOnTurn := (playerOnTurn + 1) % |players|;
    }

    /**
     * Ends the round: every board finishes it; the game ends when a board
     * has a complete wall row. Otherwise the players are rotated until the
     * starter is first, the starter is first on turn and the table is
     * refilled.
     */
    method StartNewRound()
      requires Valid() && started && !ended && table.IsRoundEnd()
      modifies this, TableRepr(), bag, used, BoardsRepr(boards)
      ensures Valid() && Parts() == old(Parts()) && started
      ensures forall id :: id in boards ==>
        RoundDone(SnapshotOf(boards[id]), old(SnapshotOf(boards[id])), if ended then Bonus(finalPoints.components, boards[id].wall.lines) else 0)
      ensures ended <==> exists id :: id in boards && GameFinished(boards[id].wall.lines) == GAME_FINISHED
      ensures ended ==> players == old(players) && playerOnTurn == old(playerOnTurn) && starterNext == old(starterNext)
      ensures !ended ==> (old(starterNext).Some? && old(starterNext).value in old(players)
        && players == Rotated(old(players), IndexOf(old(players), old(starterNext).value))
        && playerOnTurn == 0 && starterNext == None && table.centre.tiles == [StartingPlayer])
    {
      ghost var before := map id | id in boards :: SnapshotOf(boards[id]);
      var results := FinishBoards();
      ghost var finished := map id | id in boards :: SnapshotOf(boards[id]);
      if GAME_FINISHED in results {
        var scoreboard, ranks := EndGame();
        forall id | id in boards
          ensures RoundDone(SnapshotOf(boards[id]), before[id], Bonus(finalPoints.components, boards[id].wall.lines))
        {
          assert RoundDone(finished[id], before[id], 0) && BonusOn(SnapshotOf(boards[id]), finished[id], finalPoints.components);
        }
      } else {
        NextRound();
      }
    }

    /** Every board finishes the round; the table, the bag and the players stay as they are. */
    method FinishBoards() returns (results: seq<FinishRoundResult>)
      requires Valid() && started && !ended
      modifies used, BoardsRepr(boards)
      ensures Valid() && Parts() == old(Parts()) && started && !ended
      ensures table.centre.tiles == old(table.centre.tiles)
      ensures players == old(players) && playerOnTurn == old(playerOnTurn) && starterNext == old(starterNext)
      ensures forall id :: id in boards ==> RoundDone(SnapshotOf(boards[id]), old(SnapshotOf(boards[id])), 0)
      ensures (GAME_FINISHED in results) <==> exists id :: id in boards && GameFinished(boards[id].wall.lines) == GAME_FINISHED
    {
      OutsideBoards(this, table, bag, boards);
      results := FinishAllBoards(boards, order, finalPoints, used);
    }

    /** Rotates the players to the starter and refills the table; the boards stay as they are. */
    method NextRound()
      requires Valid() && started && !ended && StartingPlayer !in table.centre.tiles
      modifies this, TableRepr(), bag, used
      ensures Valid() && Parts() == old(Parts()) && started && !ended
      ensures forall id :: id in boards ==> SnapshotOf(boards[id]) == old(SnapshotOf(boards[id]))
      ensures old(starterNext).Some? && old(starterNext).value in old(players)
        && players == Rotated(old(players), IndexOf(old(players), old(starterNext).value))
        && playerOnTurn == 0 && starterNext == None && table.centre.tiles == old(table.centre.tiles) + [StartingPlayer]
      ensures old(4 * |table.factories| <= |bag.tiles| + |used.tiles|) ==>
        Refilled4(old(Contents(table.factories)), Contents(table.factories), |table.factories|)
        && |bag.tiles| + |used.tiles| == old(|bag.tiles| + |used.tiles|) - 4 * |table.factories|
      ensures old(4 * |table.factories| > |bag.tiles| + |used.tiles|) ==>
        Short() && Contents(table.factories) == old(Contents(table.factories))
    {
      OutsideBoards(this, table, bag, boards);
      var rotated := RotateToStarter(players, starterNext.value);
      NextRoundOrder(rotated);
      DealRound(table, bag, used, boards, finalPoints);
    }

    /**
     * The bag and the used tiles together hold fewer than four tiles for
     * every factory once the boards have discarded: the centre has the
     * marker again, but refilling the factories cannot finish (the bag
     * keeps asking the used tiles for more), so the factories stay empty.
     */
    ghost predicate Short()
      reads this, table, bag, used
    {
      table != null && bag != null && used != null && |bag.tiles| + |used.tiles| < 4 * |table.factories|
    }

    /** The players in the next round's order: the starter first and on turn, no starter recorded. */
    method NextRoundOrder(rotated: seq<int>)
      requires AllBoardsOf(boards, finalPoints, used) && |rotated| == |players|
      modifies this
      ensures Parts() == old(Parts()) && started == old(started) && ended == old(ended)
      ensures AllBoardsOf(boards, finalPoints, used)
      ensures forall id :: id in boards ==> SnapshotOf(boards[id]) == old(SnapshotOf(boards[id]))
      ensures players == rotated && playerOnTurn == 0 && starterNext == None
    {
      players := rotated;
      starterNext := None;
      playerOnTurn := 0;
    }

    /**
     * Ends the game: every board adds its bonus, in the order the boards
     * were created; the scoreboard sorts the players by points and the
     * ranks are dense.
     */
    method EndGame() returns (scoreboard: seq<Entry>, ranks: seq<nat>)
      requires Valid() && started
      modifies this, BoardsRepr(boards)
      ensures Valid() && Parts() == old(Parts()) && started && ended
      ensures players == old(players) && playerOnTurn == old(playerOnTurn) && starterNext == old(starterNext)
      ensures forall id :: id in boards ==> BonusOn(SnapshotOf(boards[id]), old(SnapshotOf(boards[id])), finalPoints.components)
      ensures scoreboard == EvaluateScores(Standings(order, boards)) && DenselyRanked(scoreboard, ranks)
    {
      BoardsInRepr(boards);
      var entries := EndAllBoards(boards, order, finalPoints, used);
      scoreboard := EvaluateScores(entries);
      ranks := DetermineWinner(scoreboard, entries);
    }

    /** Ranks the scoreboard densely and ends the game; the parts and the boards stay as they are. */
    method DetermineWinner(scoreboard: seq<Entry>, ghost standings: seq<Entry>) returns (ranks: seq<nat>)
      requires scoreboard != [] && Descending(scoreboard)
      requires AllBoardsOf(boards, finalPoints, used)
      requires (forall i :: 0 <= i < |order| ==> order[i] in boards) && standings == Standings(order, boards)
      modifies this
      ensures Parts() == old(Parts()) && started == old(started) && players == old(players)
      ensures DenselyRanked(scoreboard, ranks) && ended
      ensures AllBoardsOf(boards, finalPoints, used) && standings == Standings(order, boards)
      ensures forall id :: id in boards ==> SnapshotOf(boards[id]) == old(SnapshotOf(boards[id]))
      ensures playerOnTurn == old(playerOnTurn) && starterNext == old(starterNext)
    {
      ranks := DenseRanks(scoreboard);
      ended := true;
    }
  }

  /** The players' points in the order of ids. */
  ghost function Standings(ids: seq<int>, boards: map<int, Board>): (r: seq<Entry>)
    requires forall i :: 0 <= i < |ids| ==> ids[i] in boards
    reads BoardObjects(boards)
    ensures |r| == |ids| && forall i :: 0 <= i < |ids| ==> r[i] == (ids[i], boards[ids[i]].points)
  {
    seq(|ids|, i reads BoardObjects(boards) requires 0 <= i < |ids| =>
      BoardInObjects(boards, ids[i]); (ids[i], boards[ids[i]].points))
  }

  /** Rotates the players left until the starter is first. */
  method RotateToStarter(players: seq<int>, starter: int) returns (rotated: seq<int>)
    requires starter in players
    ensures rotated == Rotated(players, IndexOf(players, starter))
  {
    rotated := players;
    ghost var k := 0;
    ghost var target := IndexOf(players, starter);
    while rotated[0] != starter
      invariant k <= target && rotated == Rotated(players, k)
      decreases target - k
    {
      RotatedFront(players, k);
      RotateOnceMore(players, k);
      rotated := rotated[1..] + [rotated[0]];
      k := k + 1;
    }
    RotatedFront(players, k);
  }

  /** Refills the table for the next round; the boards stay as they are. */
  method RefillTable(table: TableArea, bag: Bag, used: UsedTiles, boards: map<int, Board>, finalPoints: PointsCalculation?)
    requires table.Valid() && table.bag == bag && bag.used == used && bag.Valid()
    requires 4 * |table.factories| <= |bag.tiles| + |used.tiles|
    requires AllBoardsOf(boards, finalPoints, used)
    modifies table.centre, bag, used, set f | f in table.factories
    ensures AllBoardsOf(boards, finalPoints, used)
    ensures forall id :: id in boards ==> SnapshotOf(boards[id]) == old(SnapshotOf(boards[id]))
    ensures table.centre.tiles == old(table.centre.tiles) + [StartingPlayer]
    ensures Refilled4(old(Contents(table.factories)), Contents(table.factories), |table.factories|)
    ensures |bag.tiles| + |used.tiles| == old(|bag.tiles| + |used.tiles|) - 4 * |table.factories|
  {
    table.StartNewRound();
  }

  /**
   * Deals the next round: the marker goes to the centre, then four bag
   * tiles to every factory when the bag and the used tiles hold enough;
   * otherwise the factories are left as they were. The boards stay as they are.
   */
  method DealRound(table: TableArea, bag: Bag, used: UsedTiles, boards: map<int, Board>, finalPoints: PointsCalculation?)
    requires table.Valid() && table.bag == bag && bag.used == used && bag.Valid()
    requires AllBoardsOf(boards, finalPoints, used)
    modifies table.centre, bag, used, set f | f in table.factories
    ensures AllBoardsOf(boards, finalPoints, used)
    ensures forall id :: id in boards ==> SnapshotOf(boards[id]) == old(SnapshotOf(boards[id]))
    ensures table.centre.tiles == old(table.centre.tiles) + [StartingPlayer]
    ensures old(4 * |table.factories| <= |bag.tiles| + |used.tiles|) ==>
      Refilled4(old(Contents(table.factories)), Contents(table.factories), |table.factories|)
      && |bag.tiles| + |used.tiles| == old(|bag.tiles| + |used.tiles|) - 4 * |table.factories|
    ensures old(4 * |table.factories| > |bag.tiles| + |used.tiles|) ==>
      |bag.tiles| + |used.tiles| < 4 * |table.factories| && Contents(table.factories) == old(Contents(table.factories))
  {
    if 4 * |table.factories| <= |bag.tiles| + |used.tiles| {
      RefillTable(table, bag, used, boards, finalPoints);
    } else {
      table.centre.StartNewRound();
    }
  }

  /** While finishing the round, boards order[..i] have finished it and the others are as they were. */
  ghost predicate FinishingAt(boards: map<int, Board>, order: seq<int>, finalPoints: PointsCalculation?, used: UsedTiles?,
                              i: nat, snaps: map<int, BoardSnapshot>, results: seq<FinishRoundResult>)
    reads BoardsRepr(boards)
  {
    AllBoardsOf(boards, finalPoints, used) && i <= |order| && |results| == i && snaps.Keys == boards.Keys
    && forall j :: 0 <= j < |order| ==> (order[j] in boards
      && (PartsInRepr(boards, order[j]);
        if j < i then RoundDone(SnapshotOf(boards[order[j]]), snaps[order[j]], 0) && results[j] == RoundVerdict(snaps[order[j]])
        else SnapshotOf(boards[order[j]]) == snaps[order[j]]))
  }

  /** Whether a board that stood at s has a complete wall row once the round is finished. */
  function RoundVerdict(s: BoardSnapshot): FinishRoundResult
  {
    if WellFormed(s.wall) && RoundReady(s.contents) then GameFinished(RoundWall(s.wall, s.contents, 5)) else NORMAL
  }

  /** Every board finishes the round, in the order the boards were created. */
  method FinishAllBoards(boards: map<int, Board>, order: seq<int>, finalPoints: PointsCalculation?, used: UsedTiles?)
    returns (results: seq<FinishRoundResult>)
    requires AllBoardsOf(boards, finalPoints, used) && Apart(boards)
    requires DistinctIds(order) && boards.Keys == (set id | id in order) && used != null
    modifies used, BoardsRepr(boards)
    ensures AllBoardsOf(boards, finalPoints, used) && |used.tiles| >= old(|used.tiles|)
    ensures forall id :: id in boards ==> RoundDone(SnapshotOf(boards[id]), old(SnapshotOf(boards[id])), 0)
    ensures |results| == |order| && forall i :: 0 <= i < |order| ==> results[i] == GameFinished(boards[order[i]].wall.lines)
    ensures (GAME_FINISHED in results) <==> exists id :: id in boards && GameFinished(boards[id].wall.lines) == GAME_FINISHED
  {
    ghost var snaps := map id | id in boards :: SnapshotOf(boards[id]);
    results := [];
    var i := 0;
    while i < |order|
      invariant FinishingAt(boards, order, finalPoints, used, i, snaps, results)
      invariant |used.tiles| >= old(|used.tiles|)
    {
      var r := FinishBoardAt(boards, order, finalPoints, used, i, snaps, results);
      results := results + [r];
      i := i + 1;
    }
    forall id | id in boards
      ensures RoundDone(SnapshotOf(boards[id]), snaps[id], 0)
    {
      var j :| 0 <= j < |order| && order[j] == id;
    }
    forall i | 0 <= i < |order|
      ensures results[i] == GameFinished(boards[order[i]].wall.lines)
    {
      assert RoundDone(SnapshotOf(boards[order[i]]), snaps[order[i]], 0);
    }
    if GAME_FINISHED in results {
      var i :| 0 <= i < |results| && results[i] == GAME_FINISHED;
      assert order[i] in boards;
    }
    if exists id :: id in boards && GameFinished(boards[id].wall.lines) == GAME_FINISHED {
      var id :| id in boards && GameFinished(boards[id].wall.lines) == GAME_FINISHED;
      var j :| 0 <= j < |order| && order[j] == id;
      assert results[j] == GAME_FINISHED;
    }
  }

  /** Board order[i] finishes the round. */
  method FinishBoardAt(boards: map<int, Board>, order: seq<int>, finalPoints: PointsCalculation?, used: UsedTiles?,
                       i: nat, ghost snaps: map<int, BoardSnapshot>, ghost results: seq<FinishRoundResult>)
    returns (r: FinishRoundResult)
    requires FinishingAt(boards, order, finalPoints, used, i, snaps, results) && i < |order|
    requires Apart(boards) && DistinctIds(order) && used != null
    modifies used, BoardParts(boards[order[i]])
    ensures FinishingAt(boards, order, finalPoints, used, i + 1, snaps, results + [r])
    ensures |used.tiles| >= old(|used.tiles|)
  {
    var b := boards[order[i]];
    BoardOfId(boards, finalPoints, used, order[i]);
    r := FinishOne(b);
    forall j | 0 <= j < |order| && j != i
      ensures BoardParts(boards[order[j]]) !! BoardParts(b)
    {
      assert order[j] != order[i];
    }
  }

  /** One board finishes the round. */
  method FinishOne(b: Board) returns (r: FinishRoundResult)
    requires b.Valid()
    modifies b.used, BoardParts(b)
    ensures b.Valid() && RoundDone(SnapshotOf(b), old(SnapshotOf(b)), 0) && r == GameFinished(b.wall.lines)
    ensures |b.used.tiles| >= old(|b.used.tiles|)
  {
    r := b.FinishRound();
  }

  /** While ending the game, boards order[..i] have their bonus and are listed in entries. */
  ghost predicate EndingAt(boards: map<int, Board>, order: seq<int>, finalPoints: PointsCalculation?, used: UsedTiles?,
                           i: nat, snaps: map<int, BoardSnapshot>, entries: seq<Entry>)
    reads BoardsRepr(boards), finalPoints
  {
    AllBoardsOf(boards, finalPoints, used) && finalPoints != null
    && i <= |order| && |entries| == i && snaps.Keys == boards.Keys
    && forall j :: 0 <= j < |order| ==> (order[j] in boards
      && (PartsInRepr(boards, order[j]);
        if j < i then BonusOn(SnapshotOf(boards[order[j]]), snaps[order[j]], finalPoints.components)
          && entries[j] == (order[j], boards[order[j]].points)
        else SnapshotOf(boards[order[j]]) == snaps[order[j]]))
  }

  /** Every board adds its bonus, in the order the boards were created; the entries list their points. */
  method EndAllBoards(boards: map<int, Board>, order: seq<int>, finalPoints: PointsCalculation?, used: UsedTiles?)
    returns (entries: seq<Entry>)
    requires AllBoardsOf(boards, finalPoints, used) && Apart(boards) && finalPoints != null
    requires DistinctIds(order) && boards.Keys == (set id | id in order)
    modifies BoardObjects(boards)
    ensures AllBoardsOf(boards, finalPoints, used)
    ensures forall id :: id in boards ==> BonusOn(SnapshotOf(boards[id]), old(SnapshotOf(boards[id])), finalPoints.components)
    ensures entries == Standings(order, boards)
  {
    ghost var snaps := map id | id in boards :: SnapshotOf(boards[id]);
    entries := [];
    var i := 0;
    while i < |order|
      invariant EndingAt(boards, order, finalPoints, used, i, snaps, entries)
    {
      var entry := EndBoardAt(boards, order, finalPoints, used, i, snaps, entries);
      entries := entries + [entry];
      i := i + 1;
    }
    forall id | id in boards
      ensures BonusOn(SnapshotOf(boards[id]), snaps[id], finalPoints.components)
    {
      var j :| 0 <= j < |order| && order[j] == id;
    }
  }

  /** Board order[i] adds its bonus. */
  method EndBoardAt(boards: map<int, Board>, order: seq<int>, finalPoints: PointsCalculation?, used: UsedTiles?,
                    i: nat, ghost snaps: map<int, BoardSnapshot>, ghost entries: seq<Entry>)
    returns (entry: Entry)
    requires EndingAt(boards, order, finalPoints, used, i, snaps, entries) && i < |order|
    requires Apart(boards) && DistinctIds(order)
    modifies boards[order[i]]
    ensures EndingAt(boards, order, finalPoints, used, i + 1, snaps, entries + [entry])
  {
    var b := boards[order[i]];
    BoardOfId(boards, finalPoints, used, order[i]);
    b.EndGame();
    entry := (order[i], b.points);
    forall j | 0 <= j < |order| && j != i
      ensures BoardParts(boards[order[j]]) !! BoardParts(b)
    {
      assert order[j] != order[i];
    }
  }

  /** The boards themselves. */
  function BoardObjects(boards: map<int, Board>): set<Board>
  {
    set id | id in boards :: boards[id]
  }

  /**
   * The shared parts of a new game: empty used tiles, a bag of 100 tiles,
   * the final bonus calculation and a table area with the players' number
   * of empty factories.
   */
  method NewParts(count: nat, permutations: (nat, nat) -> seq<nat>)
    returns (used: UsedTiles, bag: Bag, finalPoints: PointsCalculation, table: TableArea)
    requires 2 <= count <= 4 && forall k, n :: IsPermutation(permutations(k, n), n)
    ensures fresh(used) && fresh(bag) && fresh(finalPoints) && fresh(table) && fresh(table.centre)
    ensures forall f :: f in table.factories ==> fresh(f)
    ensures table.bag == bag && bag.used == used && table.Valid() && bag.Valid()
    ensures |table.factories| == NumberOfFactories(count)
    ensures table.centre.tiles == [] && used.tiles == [] && bag.tiles == BagTiles()
    ensures forall i :: 0 <= i < |table.factories| ==> table.factories[i].tiles == []
    ensures finalPoints.components == [Composite([HorizontalRow, VerticalColumn, Colour])]
  {
    used := new UsedTiles();
    bag := new Bag(BagTiles(), used, permutations);
    finalPoints := new PointsCalculation();
    finalPoints.AddComponent([Composite([HorizontalRow, VerticalColumn, Colour])]);
    table := new TableArea(NumberOfFactories(count), bag);
  }

  /** Adding a board that shares no part with the others keeps the boards apart. */
  lemma ApartAdd(boards: map<int, Board>, id: int, b: Board)
    requires Apart(boards) && id !in boards
    requires forall k :: k in boards ==> BoardParts(boards[k]) !! BoardParts(b)
    ensures Apart(boards[id := b])
  {
  }

  /** A fresh board for each id, with no points, sharing the final points calculation and the used tiles. */
  method NewBoards(ids: seq<int>, finalPoints: PointsCalculation, used: UsedTiles) returns (boards: map<int, Board>)
    requires DistinctIds(ids)
    ensures boards.Keys == (set id | id in ids) && Apart(boards)
    ensures forall id :: id in boards ==> NewBoard(boards[id], finalPoints, used)
  {
    boards := map[];
    var i := 0;
    while i < |ids|
      invariant i <= |ids| && boards.Keys == (set id | id in ids[..i]) && Apart(boards)
      invariant forall id :: id in boards ==> NewBoard(boards[id], finalPoints, used)
    {
      assert ids[..i + 1] == ids[..i] + [ids[i]];
      assert ids[i] !in boards by {
        assert ids[i] !in ids[..i];
      }
      boards := AddBoard(boards, ids[i], finalPoints, used);
      i := i + 1;
    }
    assert ids[..i] == ids;
  }

  /** A ready board that shares the game's final points calculation and used tiles. */
  ghost predicate BoardOf(b: Board, finalPoints: PointsCalculation?, used: UsedTiles?)
    reads BoardParts(b)
  {
    b.Valid() && b.used == used && b.finalPoints == finalPoints
  }

  /** A board as its constructor leaves it. */
  ghost predicate NewBoard(b: Board, finalPoints: PointsCalculation, used: UsedTiles)
    reads BoardParts(b)
  {
    BoardOf(b, finalPoints, used) && b.points == Points(0)
  }

  /** Adds a new board for id; it shares no part with the boards already there. */
  method AddBoard(boards: map<int, Board>, id: int, finalPoints: PointsCalculation, used: UsedTiles) returns (r: map<int, Board>)
    requires Apart(boards) && id !in boards
    requires forall k :: k in boards ==> NewBoard(boards[k], finalPoints, used)
    ensures r.Keys == boards.Keys + {id} && (forall k :: k in boards ==> r[k] == boards[k])
    ensures Apart(r) && forall k :: k in r ==> NewBoard(r[k], finalPoints, used)
  {
    var b := new Board(finalPoints, used);
    forall k | k in boards
      ensures BoardParts(boards[k]) !! BoardParts(b)
    {
      var other := boards[k];
      assert other !in BoardParts(b) && other.wall !in BoardParts(b) && other.floor !in BoardParts(b);
      assert forall l :: l in other.lines ==> l !in BoardParts(b);
    }
    ApartAdd(boards, id, b);
    r := boards[id := b];
  }
}
