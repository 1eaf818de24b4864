/**
 * The crossword grid and its word slots.
 *
 * A grid is a list of rows of characters: '#' is a blocked cell, ' ' an open
 * cell, and any other character a letter already written. A slot is a run of
 * cells read either along a row ("right") or down a column ("down"). Slots are
 * found by scanning each row and each column for runs of open cells; a run is
 * only recognised when a blocked cell closes it, so runs touching the right
 * or bottom edge of the grid are not slots.
 */
module CrosswordGrid {

  /** The two reading directions, with steps (0, 1) for Right and (1, 0) for Down. */
  datatype Direction = Down | Right

  /** A word slot: start row, start column, length and direction. */
  datatype Slot = Slot(row: nat, col: nat, length: nat, dir: Direction)

  type Grid = seq<seq<char>>

  /** A cell as (row, column). */
  type Cell = (nat, nat)

  const Blocked: char := '#'
  const Open: char := ' '

  /** The i-th cell of slot p. */
  function CellAt(p: Slot, i: nat): Cell
  {
    if p.dir == Down then (p.row + i, p.col) else (p.row, p.col + i)
  }

  /** The set of cells slot p covers. */
  function Cells(p: Slot): set<Cell>
  {
    set i | 0 <= i < p.length :: CellAt(p, i)
  }

  /** Offset of a cell inside slot p, measured along p's direction. */
  function OffsetIn(p: Slot, c: Cell): int
  {
    if p.dir == Down then c.0 - p.row else c.1 - p.col
  }

  lemma OffsetOfCell(p: Slot, c: Cell)
    requires c in Cells(p)
    ensures 0 <= OffsetIn(p, c) < p.length && CellAt(p, OffsetIn(p, c)) == c
  {
    var i :| 0 <= i < p.length && CellAt(p, i) == c;
  }

  predicate InGrid(g: Grid, c: Cell)
  {
    c.0 < |g| && c.1 < |g[c.0]|
  }

  function At(g: Grid, c: Cell): char
    requires InGrid(g, c)
  {
    g[c.0][c.1]
  }

  /** Every cell of slot p lies inside the grid. */
  predicate SlotFits(g: Grid, p: Slot)
  {
    forall i :: 0 <= i < p.length ==> InGrid(g, CellAt(p, i))
  }

  /** Two grids with the same rows of the same lengths. */
  predicate SameShape(g: Grid, h: Grid)
  {
    |g| == |h| && forall r :: 0 <= r < |g| ==> |g[r]| == |h[r]|
  }

  /** The text currently written in slot p. */
  function TextIn(g: Grid, p: Slot): (t: string)
    requires SlotFits(g, p)
    ensures |t| == p.length
    ensures forall i :: 0 <= i < p.length ==> t[i] == At(g, CellAt(p, i))
  {
    seq(p.length, i requires 0 <= i < p.length => At(g, CellAt(p, i)))
  }

  /** The set of open cells of a grid; it shrinks with every word written into an open cell. */
  function OpenCells(g: Grid): set<Cell>
  {
    set r, c | 0 <= r < |g| && 0 <= c < |g[r]| && g[r][c] == Open :: (r, c)
  }

  /** No cell of the grid is open. */
  predicate Filled(g: Grid)
  {
    forall r, c :: 0 <= r < |g| && 0 <= c < |g[r]| ==> g[r][c] != Open
  }

  lemma FilledIffNoOpenCell(g: Grid)
    ensures Filled(g) <==> OpenCells(g) == {}
  {
    if !Filled(g) {
      var r, c :| 0 <= r < |g| && 0 <= c < |g[r]| && g[r][c] == Open;
      assert (r, c) in OpenCells(g);
    }
  }

  // ---------------------------------------------------------------------------
  // Runs of a single line (check_line)
  // ---------------------------------------------------------------------------

  /** Index of the last blocked cell of line before index e, or -1 if there is none. */
  function PrevBlocked(line: seq<char>, e: nat): (h: int)
    requires e <= |line|
    ensures -1 <= h < e
    ensures h >= 0 ==> line[h] == Blocked
    ensures forall k :: h < k < e ==> line[k] != Blocked
  {
    if e == 0 then -1 else if line[e - 1] == Blocked then e - 1 else PrevBlocked(line, e - 1)
  }

  /**
   * (s, n) is a run of the line: a blocked cell closes it at s + n, no cell
   * inside it is blocked, it starts at the first open cell after the previous
   * blocked cell (letters before that open cell do not start it), and it is at
   * least two cells long.
   */
  predicate IsRun(line: seq<char>, s: nat, n: nat)
  {
    s + n < |line| && line[s + n] == Blocked
    && PrevBlocked(line, s + n) < s
    && line[s] == Open
    && (forall k :: PrevBlocked(line, s + n) < k < s ==> line[k] != Open)
    && n >= 2
  }

  /** Two different runs of a line never share a cell. */
  lemma RunsDisjoint(line: seq<char>, s1: nat, n1: nat, s2: nat, n2: nat)
    requires IsRun(line, s1, n1) && IsRun(line, s2, n2) && (s1, n1) != (s2, n2)
    ensures s1 + n1 <= s2 || s2 + n2 <= s1
  {
  }

  /** A blocked cell at i closes the run that started at the first open cell of the current gap. */
  lemma ClosedRun(line: seq<char>, i: nat, start: nat)
    requires i < |line| && line[i] == Blocked
    requires PrevBlocked(line, i) < start < i && line[start] == Open
    requires forall k :: PrevBlocked(line, i) < k < start ==> line[k] != Open
    ensures i - start >= 2 ==> IsRun(line, start, i - start)
    ensures forall s: nat, n: nat :: IsRun(line, s, n) && s + n == i ==> s == start && n == i - start
  {
  }

  /** A blocked cell at i closes no run when the gap before it has no open cell. */
  lemma NoRunClosed(line: seq<char>, i: nat)
    requires i < |line| && line[i] == Blocked
    requires forall k :: PrevBlocked(line, i) < k < i ==> line[k] != Open
    ensures forall s: nat, n: nat :: IsRun(line, s, n) ==> s + n != i
  {
  }

  /** Runs listed left to right, each ending before the next one starts. */
  predicate Increasing(runs: seq<(nat, nat)>)
  {
    forall a, b :: 0 <= a < b < |runs| ==> runs[a].0 + runs[a].1 < runs[b].0
  }

  lemma AppendIncreasing(runs: seq<(nat, nat)>, x: (nat, nat))
    requires Increasing(runs)
    requires runs != [] ==> runs[|runs| - 1].0 + runs[|runs| - 1].1 < x.0
    ensures Increasing(runs + [x])
  {
  }

  /**
   * check_line: one left-to-right pass that remembers where the current run
   * of open cells started and emits it when a blocked cell closes it.
   */
  method CheckLine(line: seq<char>) returns (runs: seq<(nat, nat)>)
    ensures forall r :: r in runs <==> IsRun(line, r.0, r.1)
    ensures Increasing(runs)
  {
    runs := [];
    var start: nat, wasOpen := 0, false;
    var i := 0;
    while i < |line|
      invariant i <= |line| && Scanning(line, i, runs, start, wasOpen)
    {
      runs, start, wasOpen := ScanCell(line, i, runs, start, wasOpen);
      i := i + 1;
    }
  }

  /**
   * The state of check_line's pass before position i: when inside a gap with
   * an open cell, start is that gap's first open cell; runs lists the runs
   * ending before i, left to right, none of them past the last blocked cell.
   */
  ghost predicate Scanning(line: seq<char>, i: nat, runs: seq<(nat, nat)>, start: nat, wasOpen: bool)
    requires i <= |line|
  {
    start <= i
    && (wasOpen ==> PrevBlocked(line, i) < start < i && line[start] == Open)
    && (wasOpen ==> forall k :: PrevBlocked(line, i) < k < start ==> line[k] != Open)
    && (!wasOpen ==> forall k :: PrevBlocked(line, i) < k < i ==> line[k] != Open)
    && Listed(line, runs, i)
    && Increasing(runs)
    && (runs != [] ==> runs[|runs| - 1].0 + runs[|runs| - 1].1 <= PrevBlocked(line, i))
  }

  /**
   * One step of check_line at cell i: a blocked cell closes the current run
   * (emitting it when it is at least two long), an open cell outside a run
   * starts one.
   */
  method ScanCell(line: seq<char>, i: nat, runs: seq<(nat, nat)>, start: nat, wasOpen: bool)
    returns (runs': seq<(nat, nat)>, start': nat, wasOpen': bool)
    requires i < |line| && Scanning(line, i, runs, start, wasOpen)
    ensures Scanning(line, i + 1, runs', start', wasOpen')
  {
    assert PrevBlocked(line, i + 1) == if line[i] == Blocked then i else PrevBlocked(line, i);
    runs', start', wasOpen' := runs, start, wasOpen;
    ghost var closed: seq<(nat, nat)> := [];
    if line[i] == Blocked && wasOpen {
      ClosedRun(line, i, start);
      wasOpen' := false;
      var length: nat := i - start;
      if length > 1 {
        closed := [(start, length)];
        AppendIncreasing(runs, (start, length));
        runs' := runs + [(start, length)];
      }
    } else if line[i] == Open && !wasOpen {
      start' := i;
      wasOpen' := true;
    } else if line[i] == Blocked {
      NoRunClosed(line, i);
    }
    ListedNext(line, runs, i, closed);
  }

  /** runs lists exactly the runs of the line that end before position i. */
  ghost predicate Listed(line: seq<char>, runs: seq<(nat, nat)>, i: nat)
  {
    forall r :: r in runs <==> IsRun(line, r.0, r.1) && r.0 + r.1 < i
  }

  /** Moving past position i adds to the list the runs that a blocked cell at i closes. */
  lemma ListedNext(line: seq<char>, runs: seq<(nat, nat)>, i: nat, closed: seq<(nat, nat)>)
    requires Listed(line, runs, i)
    requires forall r :: r in closed <==> IsRun(line, r.0, r.1) && r.0 + r.1 == i
    ensures Listed(line, runs + closed, i + 1)
  {
  }

  // ---------------------------------------------------------------------------
  // Slots of a grid (get_positions)
  // ---------------------------------------------------------------------------

  /**
   * Columns are taken for every index of the first row, so the grid must
   * have a first row and no row may be shorter than it.
   */
  predicate ColumnsDefined(g: Grid)
  {
    |g| > 0 && forall r :: 0 <= r < |g| ==> |g[0]| <= |g[r]|
  }

  /** Column c of the grid, read top to bottom. */
  function Column(g: Grid, c: nat): (col: seq<char>)
    requires forall r :: 0 <= r < |g| ==> c < |g[r]|
    ensures |col| == |g| && forall r :: 0 <= r < |g| ==> col[r] == g[r][c]
  {
    seq(|g|, r requires 0 <= r < |g| => g[r][c])
  }

  /** p is a slot of the grid: a run of its row (Right) or of its column (Down). */
  predicate IsSlotOf(g: Grid, p: Slot)
    requires ColumnsDefined(g)
  {
    match p.dir
    case Right => p.row < |g| && IsRun(g[p.row], p.col, p.length)
    case Down => p.col < |g[0]| && IsRun(Column(g, p.col), p.row, p.length)
  }

  function RowSlots(r: nat, runs: seq<(nat, nat)>): (s: seq<Slot>)
    ensures forall p :: p in s <==> p.dir == Right && p.row == r && (p.col, p.length) in runs
  {
    if runs == [] then [] else [Slot(r, runs[0].0, runs[0].1, Right)] + RowSlots(r, runs[1..])
  }

  function ColumnSlots(c: nat, runs: seq<(nat, nat)>): (s: seq<Slot>)
    ensures forall p :: p in s <==> p.dir == Down && p.col == c && (p.row, p.length) in runs
  {
    if runs == [] then [] else [Slot(runs[0].0, c, runs[0].1, Down)] + ColumnSlots(c, runs[1..])
  }

  /**
   * get_positions: the row runs of every row, tagged Right, followed by the
   * column runs of every column, tagged Down.
   */
  method GetPositions(g: Grid) returns (poss: seq<Slot>)
    requires ColumnsDefined(g)
    ensures forall p :: p in poss <==> IsSlotOf(g, p)
    ensures forall a, b :: 0 <= a < b < |poss| && poss[b].dir == Right ==> poss[a].dir == Right
  {
    poss := [];
    for r := 0 to |g|
      invariant forall p :: p in poss <==> p.dir == Right && p.row < r && IsRun(g[p.row], p.col, p.length)
      invariant forall k :: 0 <= k < |poss| ==> poss[k].dir == Right
    {
      var runs := CheckLine(g[r]);
      poss := poss + RowSlots(r, runs);
    }
    ghost var rowPart := poss;
    for c := 0 to |g[0]|
      invariant forall p :: p in poss <==> (p in rowPart || (p.dir == Down && p.col < c && IsRun(Column(g, p.col), p.row, p.length)))
      invariant |rowPart| <= |poss| && poss[..|rowPart|] == rowPart
      invariant forall k :: |rowPart| <= k < |poss| ==> poss[k].dir == Down
    {
      var column := seq(|g|, r requires 0 <= r < |g| => g[r][c]);
      assert column == Column(g, c);
      var runs := CheckLine(column);
      poss := poss + ColumnSlots(c, runs);
    }
    forall a, b | 0 <= a < b < |poss| && poss[b].dir == Right
      ensures poss[a].dir == Right
    {
      assert b < |rowPart|;
      assert poss[a] == rowPart[a];
    }
  }

  /** Every slot of a grid lies inside the grid, is at least two cells long and has no blocked cell. */
  lemma SlotOfGridFacts(g: Grid, p: Slot)
    requires ColumnsDefined(g) && IsSlotOf(g, p)
    ensures p.length >= 2 && SlotFits(g, p)
    ensures forall i :: 0 <= i < p.length ==> At(g, CellAt(p, i)) != Blocked
  {
    if p.dir == Right {
      var line := g[p.row];
      assert PrevBlocked(line, p.col + p.length) < p.col;
    } else {
      var line := Column(g, p.col);
      assert PrevBlocked(line, p.row + p.length) < p.row;
      forall i | 0 <= i < p.length ensures InGrid(g, CellAt(p, i)) {
        assert |g[0]| <= |g[p.row + i]|;
      }
    }
  }

  /**
   * Two different slots of a grid meet in at most one cell: slots of the same
   * direction are disjoint, and a row slot and a column slot can only share the
   * cell where the row and the column cross.
   */
  lemma {:induction false} CrossingIsUnique(g: Grid, p: Slot, q: Slot, c1: Cell, c2: Cell)
    requires ColumnsDefined(g) && IsSlotOf(g, p) && IsSlotOf(g, q) && p != q
    requires c1 in Cells(p) * Cells(q) && c2 in Cells(p) * Cells(q)
    ensures c1 == c2
  {
    OffsetOfCell(p, c1);
    OffsetOfCell(q, c1);
    OffsetOfCell(p, c2);
    OffsetOfCell(q, c2);
    if p.dir == q.dir {
      if p.dir == Right && p.row == q.row {
        RunsDisjoint(g[p.row], p.col, p.length, q.col, q.length);
      } else if p.dir == Down && p.col == q.col {
        RunsDisjoint(Column(g, p.col), p.row, p.length, q.row, q.length);
      }
      assert false;
    }
  }
}
