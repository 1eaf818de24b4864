/**
 * The wall of an Azul board and the points a newly placed tile scores.
 *
 * The wall is five rows of five cells. Every row accepts each colour in
 * exactly one column: row r holds the base order blue, yellow, red, black,
 * green rotated right by r. Each row is a wall line; the line above and the
 * line below it are simply the neighbouring rows, with none above row 0 and
 * none below row 4.
 *
 * A placed tile scores 1 when no tile touches it horizontally or vertically.
 * Otherwise it scores the length of its horizontal run if it has a horizontal
 * neighbour, plus the length of its vertical run if it has a vertical
 * neighbour.
 */
module AzulWall {
  import opened AzulTypes

  /** A wall as the board hands it to the round-result checks: rows of cells, None for empty. */
  type WallGrid = seq<seq<Option<Tile>>>

  /** The colour order of each wall row. */
  const WallPattern: seq<seq<Tile>> := [
    [Blue, Yellow, Red, Black, Green],
    [Green, Blue, Yellow, Red, Black],
    [Black, Green, Blue, Yellow, Red],
    [Red, Black, Green, Blue, Yellow],
    [Yellow, Red, Black, Green, Blue]
  ]

  /** The base colour order, that of row 0. */
  function Base(i: nat): Tile
    requires i < 5
  {
    WallPattern[0][i]
  }

  /** Row r is the base order rotated right by r: row r, column c holds base[(c - r) mod 5]. */
  lemma PatternIsRotation()
    ensures forall r, c :: 0 <= r < 5 && 0 <= c < 5 ==> WallPattern[r][c] == Base((c - r) % 5)
  {
    forall r, c | 0 <= r < 5 && 0 <= c < 5
      ensures WallPattern[r][c] == Base((c - r) % 5)
    {
      assert r == 0 || r == 1 || r == 2 || r == 3 || r == 4;
      assert c == 0 || c == 1 || c == 2 || c == 3 || c == 4;
    }
  }

  /** The column of colour t in a row: the index of t in that row's colour order. */
  function ColumnOf(row: nat, t: Tile): (c: nat)
    requires row < 5 && IsColour(t)
    ensures c < 5 && WallPattern[row][c] == t
    ensures forall d :: 0 <= d < 5 && WallPattern[row][d] == t ==> d == c
  {
    var base := match t
      case Blue => 0
      case Yellow => 1
      case Red => 2
      case Black => 3
      case Green => 4;
    (base + row) % 5
  }

  predicate WellFormed(g: WallGrid)
  {
    |g| == 5 && forall r :: 0 <= r < 5 ==> |g[r]| == 5
  }

  /** Every filled cell holds the colour the wall pattern gives that cell. */
  predicate Patterned(g: WallGrid)
    requires WellFormed(g)
  {
    forall r, c :: 0 <= r < 5 && 0 <= c < 5 && g[r][c] != None ==> g[r][c] == Some(WallPattern[r][c])
  }

  /** Number of filled cells directly before index i, stopping at the first empty one. */
  function FilledBefore(cells: seq<Option<Tile>>, i: nat): nat
    requires i <= |cells|
  {
    if i == 0 || cells[i - 1] == None then 0 else 1 + FilledBefore(cells, i - 1)
  }

  /** Number of filled cells from index i onwards, stopping at the first empty one. */
  function FilledFrom(cells: seq<Option<Tile>>, i: nat): nat
    decreases |cells| - i
  {
    if i >= |cells| || cells[i] == None then 0 else 1 + FilledFrom(cells, i + 1)
  }

  /** Column c of a grid, top to bottom. */
  function Column(g: WallGrid, c: nat): (col: seq<Option<Tile>>)
    requires WellFormed(g) && c < 5
    ensures |col| == 5 && forall r :: 0 <= r < 5 ==> col[r] == g[r][c]
  {
    seq(5, r requires 0 <= r < 5 => g[r][c])
  }

  /** The cells before i that FilledBefore counts are all filled and the one before them is not. */
  lemma {:induction false} FilledBeforeRun(cells: seq<Option<Tile>>, i: nat)
    requires i <= |cells|
    ensures FilledBefore(cells, i) <= i
    ensures forall j :: i - FilledBefore(cells, i) <= j < i ==> cells[j] != None
    ensures FilledBefore(cells, i) < i ==> cells[i - FilledBefore(cells, i) - 1] == None
  {
    if i > 0 && cells[i - 1] != None {
      FilledBeforeRun(cells, i - 1);
    }
  }

  /** The cells from i that FilledFrom counts are all filled and the one after them is not. */
  lemma {:induction false} FilledFromRun(cells: seq<Option<Tile>>, i: nat)
    requires i <= |cells|
    ensures i + FilledFrom(cells, i) <= |cells|
    ensures forall j :: i <= j < i + FilledFrom(cells, i) ==> cells[j] != None
    ensures i + FilledFrom(cells, i) < |cells| ==> cells[i + FilledFrom(cells, i)] == None
    decreases |cells| - i
  {
    if i < |cells| && cells[i] != None {
      FilledFromRun(cells, i + 1);
    }
  }

  /**
   * The length of the run of filled cells through index i: a maximal block
   * of filled cells around i, bounded by empty cells or the ends.
   */
  function RunThrough(cells: seq<Option<Tile>>, i: nat): nat
    requires i < |cells|
  {
    FilledBefore(cells, i) + FilledFrom(cells, i)
  }

  /** Through a filled cell, the run is the maximal block of filled cells containing it. */
  lemma {:induction false} RunIsMaximal(cells: seq<Option<Tile>>, i: nat)
    requires i < |cells| && cells[i] != None
    ensures var lo, hi := i - FilledBefore(cells, i), i + FilledFrom(cells, i);
      0 <= lo <= i < hi <= |cells| && hi - lo == RunThrough(cells, i)
      && (forall j :: lo <= j < hi ==> cells[j] != None)
      && (lo == 0 || cells[lo - 1] == None)
      && (hi == |cells| || cells[hi] == None)
  {
    FilledBeforeRun(cells, i);
    FilledFromRun(cells, i);
  }

  /** The horizontal run through (row, col). */
  function RowRun(g: WallGrid, row: nat, col: nat): nat
    requires WellFormed(g) && row < 5 && col < 5
  {
    RunThrough(g[row], col)
  }

  /** The vertical run through (row, col). */
  function ColumnRun(g: WallGrid, row: nat, col: nat): nat
    requires WellFormed(g) && row < 5 && col < 5
  {
    RunThrough(Column(g, col), row)
  }

  /**
   * The Azul placement score of the tile at (row, col): each run of length at
   * least two scores its length, and a tile in no such run scores 1.
   */
  function PlacementScore(g: WallGrid, row: nat, col: nat): int
    requires WellFormed(g) && row < 5 && col < 5
  {
    var h, v := RowRun(g, row, col), ColumnRun(g, row, col);
    if h <= 1 && v <= 1 then 1
    else (if h > 1 then h else 0) + (if v > 1 then v else 0)
  }

  /** A placement scores at least 1 and at most the two full runs, 10. */
  lemma {:induction false} PlacementScoreBounds(g: WallGrid, row: nat, col: nat)
    requires WellFormed(g) && row < 5 && col < 5 && g[row][col] != None
    ensures 1 <= PlacementScore(g, row, col) <= 10
  {
    RunIsMaximal(g[row], col);
    RunIsMaximal(Column(g, col), row);
  }

  /** Whether a horizontally adjacent cell is filled. */
  predicate HasRowNeighbour(cells: seq<Option<Tile>>, col: nat)
    requires col < |cells|
  {
    (col > 0 && cells[col - 1] != None) || (col < |cells| - 1 && cells[col + 1] != None)
  }

  /** Through a filled cell, a neighbour exists exactly when the run is longer than one. */
  lemma {:induction false} NeighbourIffLongRun(cells: seq<Option<Tile>>, i: nat)
    requires i < |cells| && cells[i] != None
    ensures HasRowNeighbour(cells, i) <==> RunThrough(cells, i) > 1
  {
    assert FilledFrom(cells, i) == 1 + FilledFrom(cells, i + 1);
  }

  /** A tile with no filled neighbour in either direction scores exactly 1. */
  lemma {:induction false} IsolatedScoresOne(g: WallGrid, row: nat, col: nat)
    requires WellFormed(g) && row < 5 && col < 5 && g[row][col] != None
    requires !HasRowNeighbour(g[row], col) && !HasRowNeighbour(Column(g, col), row)
    ensures PlacementScore(g, row, col) == 1
  {
    NeighbourIffLongRun(g[row], col);
    NeighbourIffLongRun(Column(g, col), row);
  }

  /** A tile with neighbours in both directions scores its row run plus its column run. */
  lemma {:induction false} CrossScoresBothRuns(g: WallGrid, row: nat, col: nat)
    requires WellFormed(g) && row < 5 && col < 5 && g[row][col] != None
    requires HasRowNeighbour(g[row], col) && HasRowNeighbour(Column(g, col), row)
    ensures PlacementScore(g, row, col) == RowRun(g, row, col) + ColumnRun(g, row, col)
  {
    NeighbourIffLongRun(g[row], col);
    NeighbourIffLongRun(Column(g, col), row);
  }

  /**
   * Row points of a tile placed at col: the tiles of its horizontal run,
   * found as the cells between the last empty cell before col and the
   * first empty cell at or after col.
   */
  method CountRowPoints(cells: seq<Option<Tile>>, col: nat) returns (p: Points)
    requires col < |cells|
    ensures p.value == RunThrough(cells, col)
  {
    var emptyBefore: int := -1;
    var i := 0;
    while i < col
      invariant 0 <= i <= col
      invariant -1 <= emptyBefore < i
      invariant emptyBefore >= 0 ==> cells[emptyBefore] == None
      invariant forall j :: emptyBefore < j < i ==> cells[j] != None
    {
      if cells[i] == None {
        emptyBefore := i;
      }
      i := i + 1;
    }
    BeforeFromLastEmpty(cells, col, emptyBefore);
    var emptyAfter := |cells|;
    i := col;
    while i < |cells|
      invariant col <= i <= |cells|
      invariant forall j :: col <= j < i ==> cells[j] != None
    {
      if cells[i] == None {
        emptyAfter := i;
        break;
      }
      i := i + 1;
    }
    AfterFromFirstEmpty(cells, col, emptyAfter);
    p := Points(emptyAfter - emptyBefore - 1);
  }

  /** FilledBefore measured from the last empty cell before i. */
  lemma {:induction false} BeforeFromLastEmpty(cells: seq<Option<Tile>>, i: nat, e: int)
    requires i <= |cells| && -1 <= e < i
    requires e >= 0 ==> cells[e] == None
    requires forall j :: e < j < i ==> cells[j] != None
    ensures FilledBefore(cells, i) == i - e - 1
  {
    if i - 1 > e {
      BeforeFromLastEmpty(cells, i - 1, e);
    }
  }

  /** FilledFrom measured up to the first empty cell at or after i. */
  lemma {:induction false} AfterFromFirstEmpty(cells: seq<Option<Tile>>, i: nat, e: nat)
    requires i <= e <= |cells|
    requires e < |cells| ==> cells[e] == None
    requires forall j :: i <= j < e ==> cells[j] != None
    ensures FilledFrom(cells, i) == e - i
    decreases e - i
  {
    if i < e {
      AfterFromFirstEmpty(cells, i + 1, e);
    }
  }

  /**
   * Column points of a tile placed at row: 1 for the tile plus the filled
   * cells met walking up from the row above and down from the row below
   * until an empty cell.
   */
  method CountColumnPoints(g: WallGrid, row: nat, col: nat) returns (p: Points)
    requires WellFormed(g) && row < 5 && col < 5
    ensures p.value == 1 + FilledBefore(Column(g, col), row) + FilledFrom(Column(g, col), row + 1)
  {
    var points := 1;
    var up: int := row as int - 1;
    while up >= 0 && g[up][col] != None
      invariant -1 <= up < row
      invariant forall j :: up < j < row ==> g[j][col] != None
      invariant points == row - up
    {
      points := points + 1;
      up := up - 1;
    }
    BeforeFromLastEmpty(Column(g, col), row, up);
    var down := row + 1;
    while down < 5 && g[down][col] != None
      invariant row + 1 <= down <= 5
      invariant forall j :: row + 1 <= j < down ==> g[j][col] != None
      invariant points == row - up + down - row - 1
    {
      points := points + 1;
      down := down + 1;
    }
    AfterFromFirstEmpty(Column(g, col), row + 1, down);
    p := Points(points);
  }

  /**
   * The points for the tile just placed at (row, col): 1 without any
   * neighbour, otherwise the row points when it has a horizontal neighbour
   * plus the column points when it has a vertical one.
   */
  method CountPointsAfterPut(g: WallGrid, row: nat, col: nat) returns (p: Points)
    requires WellFormed(g) && row < 5 && col < 5 && g[row][col] != None
    ensures p.value == PlacementScore(g, row, col)
  {
    var hasAdjRow := HasRowNeighbour(g[row], col);
    var hasAdjVertical := (row > 0 && g[row - 1][col] != None) || (row < 4 && g[row + 1][col] != None);
    assert hasAdjVertical == HasRowNeighbour(Column(g, col), row);
    NeighbourIffLongRun(g[row], col);
    NeighbourIffLongRun(Column(g, col), row);
    if hasAdjRow || hasAdjVertical {
      p := Points(0);
      if hasAdjRow {
        var rowPoints := CountRowPoints(g[row], col);
        p := Sum([p, rowPoints]);
      }
      if hasAdjVertical {
        var columnPoints := CountColumnPoints(g, row, col);
        p := Sum([p, columnPoints]);
      }
      return;
    }
    p := Points(1);
  }

  /** The wall after t is placed in row `row`, in the column of its colour. */
  function Placed(g: WallGrid, row: nat, t: Tile): (r: WallGrid)
    requires WellFormed(g) && row < 5 && IsColour(t)
    ensures WellFormed(r) && r[row][ColumnOf(row, t)] == Some(t)
    ensures forall i, c :: 0 <= i < 5 && 0 <= c < 5 && (i, c) != (row, ColumnOf(row, t)) ==> r[i][c] == g[i][c]
    ensures Patterned(g) ==> Patterned(r)
  {
    g[row := g[row][ColumnOf(row, t) := Some(t)]]
  }

  class Wall {
    var lines: WallGrid

    ghost predicate Valid()
      reads this
    {
      WellFormed(lines) && Patterned(lines)
    }

    /** A new wall has every cell empty. */
    constructor()
      ensures Valid()
      ensures forall r, c :: 0 <= r < 5 && 0 <= c < 5 ==> lines[r][c] == None
    {
      var empty := [None, None, None, None, None];
      lines := [empty, empty, empty, empty, empty];
    }

    /** Whether line `row` still has room for colour t. */
    function CanPutTile(row: nat, t: Tile): (b: bool)
      requires Valid() && row < 5 && IsColour(t)
      reads this
      ensures b <==> forall c :: 0 <= c < 5 && WallPattern[row][c] == t ==> lines[row][c] == None
    {
      lines[row][ColumnOf(row, t)] == None
    }

    /** Places t in line `row` in its colour's column and returns the points it scores. */
    method PutTile(row: nat, t: Tile) returns (p: Points)
      requires Valid() && row < 5 && IsColour(t)
      modifies this
      ensures Valid()
      ensures lines == Placed(old(lines), row, t)
      ensures p.value == PlacementScore(lines, row, ColumnOf(row, t))
      ensures !CanPutTile(row, t)
    {
      var col := ColumnOf(row, t);
      lines := lines[row := lines[row][col := Some(t)]];
      p := CountPointsAfterPut(lines, row, col);
    }

    /** The tile in a cell of a wall line, None if empty. */
    function TileInColumn(row: nat, column: nat): Option<Tile>
      requires Valid() && row < 5 && column < 5
      reads this
    {
      lines[row][column]
    }

    /** A wall line as text: the tile's letter for a filled cell, the lower-case colour letter for an empty one. */
    function State(row: nat): (s: string)
      requires Valid() && row < 5
      reads this
      ensures |s| == 5
      ensures forall c :: 0 <= c < 5 ==> (lines[row][c] == None <==> s[c] == Lower(Code(WallPattern[row][c])))
      ensures forall c :: 0 <= c < 5 && lines[row][c] != None ==> s[c] == Code(lines[row][c].value)
    {
      var line := lines[row];
      seq(5, c requires 0 <= c < 5 => CellText(line[c], WallPattern[row][c]))
    }
  }

  function Lower(c: char): char
  {
    if 'A' <= c <= 'Z' then (c as int + 32) as char else c
  }

  /** The text of one wall cell whose colour slot is `slot`. */
  function CellText(cell: Option<Tile>, slot: Tile): (c: char)
    ensures cell == None ==> c == Lower(Code(slot))
    ensures cell != None ==> c == Code(cell.value) && c != Lower(Code(slot))
  {
    if cell == None then Lower(Code(slot)) else Code(cell.value)
  }
}
