/**
 * Round and game results computed from a wall.
 *
 * After each round a board asks whether the game has finished: it has once
 * some wall row is complete. At the end of the game the wall earns bonus
 * points: 2 for every complete row, 7 for every complete column and 10 for
 * every colour all of whose five cells are filled. Colour i occupies the
 * cells (j, (i + j) mod 5) of rows j = 0..4. Calculations are combined
 * into composites whose points are the sum of their components' points.
 */
module AzulScoring {
  import opened AzulTypes
  import opened AzulWall

  /** Every row has the five cells the column-wise checks read. */
  predicate FiveWide(wall: WallGrid)
  {
    forall j :: 0 <= j < |wall| ==> |wall[j]| >= 5
  }

  predicate RowComplete(wall: WallGrid, j: nat)
    requires j < |wall|
  {
    None !in wall[j]
  }

  predicate ColumnComplete(wall: WallGrid, c: nat)
    requires FiveWide(wall) && c < 5
  {
    forall j :: 0 <= j < |wall| ==> wall[j][c] != None
  }

  /** Colour i of the base order sits at column (i + j) mod 5 of row j. */
  predicate ColourComplete(wall: WallGrid, i: nat)
    requires FiveWide(wall) && i < 5
  {
    forall j :: 0 <= j < |wall| ==> wall[j][(i + j) % 5] != None
  }

  /** GAME_FINISHED as soon as a row has no empty cell, NORMAL when none does. */
  function GameFinished(wall: WallGrid): (r: FinishRoundResult)
    ensures r == GAME_FINISHED <==> exists j :: 0 <= j < |wall| && RowComplete(wall, j)
    ensures r == NORMAL <==> forall j :: 0 <= j < |wall| ==> !RowComplete(wall, j)
  {
    if wall == [] then NORMAL
    else if None !in wall[0] then
      assert RowComplete(wall, 0);
      GAME_FINISHED
    else
      var r := GameFinished(wall[1..]);
      assert forall j :: 1 <= j < |wall| ==> (RowComplete(wall, j) <==> RowComplete(wall[1..], j - 1));
      assert forall j :: 0 <= j < |wall| - 1 ==> (RowComplete(wall[1..], j) <==> RowComplete(wall, j + 1));
      r
  }

  /** A wall whose first column is full but whose rows all have a gap does not end the game. */
  lemma ColumnsAloneDoNotFinish()
    ensures GameFinished(seq(5, j => [Some(Red), None, None, None, None])) == NORMAL
  {
    var wall := seq(5, j => [Some(Red), None, None, None, None]);
    assert forall j :: 0 <= j < 5 ==> wall[j][1] == None;
  }

  /** The number of true entries of a list. */
  function Tally(flags: seq<bool>): nat
  {
    if flags == [] then 0 else Tally(flags[..|flags| - 1]) + (if flags[|flags| - 1] then 1 else 0)
  }

  /** Tally counts the indices whose flag is set. */
  lemma {:induction false} TallyIsCardinality(flags: seq<bool>)
    ensures Tally(flags) == |set i | 0 <= i < |flags| && flags[i]|
  {
    if flags != [] {
      var n := |flags| - 1;
      TallyIsCardinality(flags[..n]);
      var before := set i | 0 <= i < n && flags[..n][i];
      var all := set i | 0 <= i < |flags| && flags[i];
      if flags[n] {
        assert all == before + {n};
      } else {
        assert all == before;
      }
    }
  }

  /** 2 points for every complete row. */
  function HorizontalRowPoints(wall: WallGrid): (p: Points)
    ensures p.value == 2 * |set j | 0 <= j < |wall| && RowComplete(wall, j)|
  {
    var flags := seq(|wall|, j requires 0 <= j < |wall| => RowComplete(wall, j));
    TallyIsCardinality(flags);
    assert (set j | 0 <= j < |flags| && flags[j]) == set j | 0 <= j < |wall| && RowComplete(wall, j);
    Points(2 * Tally(flags))
  }

  /** 7 points for every complete column. */
  function VerticalColumnPoints(wall: WallGrid): (p: Points)
    requires FiveWide(wall)
    ensures p.value == 7 * |set c | 0 <= c < 5 && ColumnComplete(wall, c)|
  {
    var flags := seq(5, c requires 0 <= c < 5 => ColumnComplete(wall, c));
    TallyIsCardinality(flags);
    assert (set c | 0 <= c < |flags| && flags[c]) == set c | 0 <= c < 5 && ColumnComplete(wall, c);
    Points(7 * Tally(flags))
  }

  /** 10 points for every colour whose five cells are all filled. */
  function ColorPoints(wall: WallGrid): (p: Points)
    requires FiveWide(wall)
    ensures p.value == 10 * |set i | 0 <= i < 5 && ColourComplete(wall, i)|
  {
    var flags := seq(5, i requires 0 <= i < 5 => ColourComplete(wall, i));
    TallyIsCardinality(flags);
    assert (set i | 0 <= i < |flags| && flags[i]) == set i | 0 <= i < 5 && ColourComplete(wall, i);
    Points(10 * Tally(flags))
  }

  /** The bonus calculations and composites of them. */
  datatype Calculation =
    | HorizontalRow
    | VerticalColumn
    | Colour
    | Composite(components: seq<Calculation>)

  /** The points a calculation gives a wall; a composite sums its components. */
  function CalculationPoints(calculation: Calculation, wall: WallGrid): Points
    requires FiveWide(wall)
    decreases calculation, 1
  {
    match calculation
    case HorizontalRow => HorizontalRowPoints(wall)
    case VerticalColumn => VerticalColumnPoints(wall)
    case Colour => ColorPoints(wall)
    case Composite(cs) => ComponentsPoints(cs, wall)
  }

  /** The sum of the points of a list of calculations. */
  function ComponentsPoints(cs: seq<Calculation>, wall: WallGrid): Points
    requires FiveWide(wall)
    decreases cs, 0
  {
    if cs == [] then Points(0)
    else Points(CalculationPoints(cs[0], wall).value + ComponentsPoints(cs[1..], wall).value)
  }

  /** The points of a concatenation of components add up. */
  lemma {:induction false} ComponentsAppend(a: seq<Calculation>, b: seq<Calculation>, wall: WallGrid)
    requires FiveWide(wall)
    ensures ComponentsPoints(a + b, wall).value == ComponentsPoints(a, wall).value + ComponentsPoints(b, wall).value
  {
    if a != [] {
      assert (a + b)[0] == a[0];
      assert (a + b)[1..] == a[1..] + b;
      ComponentsAppend(a[1..], b, wall);
    } else {
      assert a + b == b;
    }
  }

  /** The end-of-game bonus as the game wires it: one composite holding a composite of the three bonuses. */
  const StandardBonus: Calculation := Composite([Composite([HorizontalRow, VerticalColumn, Colour])])

  /** The standard bonus is the sum of the row, column and colour bonuses. */
  lemma {:induction false} StandardBonusIsSum(wall: WallGrid)
    requires FiveWide(wall)
    ensures CalculationPoints(StandardBonus, wall).value
      == HorizontalRowPoints(wall).value + VerticalColumnPoints(wall).value + ColorPoints(wall).value
  {
    var inner := [HorizontalRow, VerticalColumn, Colour];
    assert inner[1..][1..][1..] == [];
    assert [Composite(inner)][1..] == [];
  }

  /** The wall of the bonus example: one complete row, two complete columns, one complete colour. */
  const ExampleWall: WallGrid := [
    [None, Some(Yellow), Some(Red), None, None],
    [None, Some(Blue), Some(Yellow), Some(Red), None],
    [None, Some(Green), Some(Blue), None, Some(Red)],
    [Some(Red), Some(Black), Some(Green), Some(Blue), Some(Yellow)],
    [None, Some(Red), Some(Black), Some(Green), None]
  ]

  /** Only row 3 of the example wall is complete: 2 points. */
  lemma ExampleWallRows()
    ensures HorizontalRowPoints(ExampleWall) == Points(2)
  {
    var w := ExampleWall;
    assert (set j | 0 <= j < 5 && RowComplete(w, j)) == {3} by {
      assert None in w[0] && None in w[1] && None in w[2] && None in w[4];
    }
  }

  /** Columns 1 and 2 of the example wall are complete: 14 points. */
  lemma ExampleWallColumns()
    ensures VerticalColumnPoints(ExampleWall) == Points(14)
  {
    var w := ExampleWall;
    assert (set c | 0 <= c < 5 && ColumnComplete(w, c)) == {1, 2} by {
      assert w[0][0] == None && w[0][3] == None && w[0][4] == None;
    }
  }

  /** Only colour 2 (red) of the example wall is complete: 10 points. */
  lemma ExampleWallColours()
    ensures ColorPoints(ExampleWall) == Points(10)
  {
    var w := ExampleWall;
    assert (set i | 0 <= i < 5 && ColourComplete(w, i)) == {2} by {
      assert w[0][0] == None && w[2][3] == None && w[0][3] == None && w[0][4] == None;
    }
  }

  /** The example wall scores 2 + 14 + 10 = 26 with the standard bonus. */
  lemma ExampleWallScores26()
    ensures CalculationPoints(StandardBonus, ExampleWall) == Points(26)
  {
    ExampleWallRows();
    ExampleWallColumns();
    ExampleWallColours();
    StandardBonusIsSum(ExampleWall);
  }

  /**
   * A composite calculation: the list of components is filled by
   * add_component, and its points are the sum of its components' points.
   */
  class PointsCalculation {
    var components: seq<Calculation>

    constructor()
      ensures components == []
    {
      components := [];
    }

    method AddComponent(cs: seq<Calculation>)
      modifies this
      ensures components == old(components) + cs
      ensures forall w :: FiveWide(w) ==>
        ComponentsPoints(components, w).value == ComponentsPoints(old(components), w).value + ComponentsPoints(cs, w).value
    {
      var i := 0;
      while i < |cs|
        invariant i <= |cs| && components == old(components) + cs[..i]
      {
        components := components + [cs[i]];
        i := i + 1;
      }
      assert cs[..i] == cs;
      forall w | FiveWide(w)
        ensures ComponentsPoints(components, w).value == ComponentsPoints(old(components), w).value + ComponentsPoints(cs, w).value
      {
        ComponentsAppend(old(components), cs, w);
      }
    }

    /** The sum of the components' points; 0 with no components. */
    function GetPoints(wall: WallGrid): (p: Points)
      requires FiveWide(wall)
      reads this
      ensures components == [] ==> p == Points(0)
    {
      ComponentsPoints(components, wall)
    }
  }
}
