/**
 * The shortest-path search of the delivery map. A table holds, for every
 * city, the shortest distance found so far from the start city (-1 while
 * none is known) and the city before it on that path. Each step relaxes the
 * roads out of the current city and moves to the next city; the path is then
 * read backwards from the end city through the recorded predecessors.
 */
module DeliveryDijkstra {
  import opened DeliveryGraph

  /** The distance found so far to a city (-1 for none) and the city before it on that path (None for no such city). */
  datatype Tentative = Tentative(distance: int, previous: Option<string>)

  type Table = map<string, Tentative>

  /** The table before the search: distance 0 to the start city, none to any other, no predecessors. */
  function Initial(g: Graph, begin: string): Table
  {
    map c | c in g :: Tentative(if c == begin then 0 else -1, None)
  }

  /**
   * The table after relaxing the roads out of current: a neighbour whose
   * distance is unknown or longer than the one through current takes the
   * distance through current, with current as its predecessor.
   */
  function Relaxed(g: Graph, t: Table, current: string): Table
    requires current in g && current in t
  {
    map c | c in t ::
      if c in g[current] && (t[c].distance == -1 || t[c].distance > t[current].distance + g[current][c])
      then Tentative(t[current].distance + g[current][c], Some(current))
      else t[c]
  }

  /** No walk from begin to v is shorter than d. */
  ghost predicate Shortest(g: Graph, begin: string, v: string, d: int)
  {
    forall p {:trigger Length(g, p)} :: Walk(g, p) && |p| > 0 && p[0] == begin && p[|p| - 1] == v ==> d <= Length(g, p)
  }

  /** Builds the table of the search, city by city. */
  method StartTable(g: Graph, begin: string) returns (t: Table)
    ensures t == Initial(g, begin)
  {
    t := map[];
    var todo := g.Keys;
    while todo != {}
      invariant todo <= g.Keys
      invariant t.Keys == g.Keys - todo
      invariant forall c :: c in t ==> t[c] == Initial(g, begin)[c]
      decreases todo
    {
      var c :| c in todo;
      var distance := -1;
      if c == begin {
        distance := 0;
      }
      t := t[c := Tentative(distance, None)];
      todo := todo - {c};
    }
  }

  /** Relaxes the roads out of current, one neighbour at a time. */
  method Relax(g: Graph, t: Table, current: string) returns (r: Table)
    requires Closed(g) && t.Keys == g.Keys && current in g && current !in g[current]
    ensures r == Relaxed(g, t, current)
  {
    var currentDistance := t[current].distance;
    r := t;
    var todo := g[current].Keys;
    while todo != {}
      invariant todo <= g[current].Keys
      invariant r.Keys == t.Keys
      invariant forall c :: c in t ==> r[c] == if c in g[current] && c !in todo then Relaxed(g, t, current)[c] else t[c]
      decreases todo
    {
      var n :| n in todo;
      var distanceBefore := r[n].distance;
      var distanceAfter := currentDistance + g[current][n];
      if distanceBefore == -1 || distanceBefore > distanceAfter {
        r := r[n := Tentative(distanceAfter, Some(current))];
      }
      todo := todo - {n};
    }
  }

  /** The city with the smallest known distance among the reached cities not yet visited. */
  method ClosestUnvisited(t: Table, visited: seq<string>) returns (next: string)
    requires exists c :: c in t && c !in visited && t[c].distance != -1
    ensures next in t && next !in visited && t[next].distance != -1
    ensures forall c :: c in t && c !in visited && t[c].distance != -1 ==> t[next].distance <= t[c].distance
  {
    next := "";
    var found := false;
    var todo := t.Keys;
    while todo != {}
      invariant todo <= t.Keys
      invariant found ==> next in t && next !in visited && t[next].distance != -1
      invariant forall c :: c in t && c !in todo && c !in visited && t[c].distance != -1 ==> found && t[next].distance <= t[c].distance
      decreases todo
    {
      var c :| c in todo;
      if c !in visited && t[c].distance != -1 && (!found || t[c].distance < t[next].distance) {
        next, found := c, true;
      }
      todo := todo - {c};
    }
  }

  /** The choice the search makes as written: an unvisited neighbour of current with the smallest distance in the table. */
  predicate NeighbourChoice(g: Graph, t: Table, visited: seq<string>, current: string, next: string)
    requires current in g && Closed(g) && t.Keys == g.Keys
  {
    next in g[current] && next !in visited
    && forall n :: n in g[current] && n !in visited ==> t[next].distance <= t[n].distance
  }

  /**
   * The move of a search step as written: the last unvisited neighbour met,
   * then any unvisited neighbour with a strictly smaller distance. The city
   * starts out as no city at all and is only defined when current has an
   * unvisited neighbour.
   */
  method NeighbourStep(g: Graph, t: Table, visited: seq<string>, current: string) returns (next: string)
    requires current in g && Closed(g) && t.Keys == g.Keys
    requires exists n :: n in g[current] && n !in visited
    ensures NeighbourChoice(g, t, visited, current, next)
  {
    next := "";
    var found := false;
    var todo := g[current].Keys;
    while todo != {}
      invariant todo <= g[current].Keys
      invariant found ==> next in g[current] && next !in visited
      invariant forall n :: n in g[current] && n !in todo && n !in visited ==> found
      decreases todo
    {
      var n :| n in todo;
      if n !in visited {
        next, found := n, true;
      }
      todo := todo - {n};
    }
    var moveDistance := t[next].distance;
    todo := g[current].Keys;
    while todo != {}
      invariant todo <= g[current].Keys
      invariant next in g[current] && next !in visited && moveDistance == t[next].distance
      invariant forall n :: n in g[current] && n !in todo && n !in visited ==> moveDistance <= t[n].distance
      decreases todo
    {
      var n :| n in todo;
      if t[n].distance < moveDistance && n !in visited {
        next := n;
        moveDistance := t[next].distance;
      }
      todo := todo - {n};
    }
  }

  /** A search step as written: relax the roads out of the last visited city, then move to a neighbour of it. */
  method DijkstraStepAsWritten(g: Graph, t: Table, visited: seq<string>) returns (r: Table, after: seq<string>, next: string)
    requires Roads(g) && t.Keys == g.Keys && |visited| > 0 && visited[|visited| - 1] in g
    requires exists n :: n in g[visited[|visited| - 1]] && n !in visited
    ensures r == Relaxed(g, t, visited[|visited| - 1])
    ensures NeighbourChoice(g, r, visited, visited[|visited| - 1], next) && after == visited + [next]
  {
    var current := visited[|visited| - 1];
    r := Relax(g, t, current);
    next := NeighbourStep(g, r, visited, current);
    after := visited + [next];
  }

  /** A map with one city joined to two others. */
  function StarMap(): Graph
  {
    map["A" := map["B" := 1, "C" := 1], "B" := map["A" := 1], "C" := map["A" := 1]]
  }

  /** The star map has well-formed roads and a single component. */
  lemma StarMapConnected()
    ensures Roads(StarMap()) && Connected(StarMap())
  {
    var g := StarMap();
    assert "A" != "B" && "A" != "C" && "B" != "C" by {
      assert "A"[0] != "B"[0] && "A"[0] != "C"[0] && "B"[0] != "C"[0];
    }
    assert g.Keys == {"A", "B", "C"};
    forall a, b | a in g && b in g
      ensures Reachable(g, a, b)
    {
      var p := if a == b then [a] else if a == "A" || b == "A" then [a, b] else [a, "A", b];
      assert Walk(g, p) && p[0] == a && p[|p| - 1] == b;
    }
  }

  /**
   * On the star map, a search from the centre moves to a leaf after one
   * step, and from there the step as written has no unvisited neighbour to
   * move to although a city is still unvisited.
   */
  lemma StarMapStrandsSearch(next: string)
    requires NeighbourChoice(StarMap(), Relaxed(StarMap(), Initial(StarMap(), "A"), "A"), ["A"], "A", next)
    ensures |["A", next]| < |StarMap()|
    ensures next in StarMap() && forall n :: n in StarMap()[next] ==> n in ["A", next]
  {
    var g := StarMap();
    assert "A" != "B" && "A" != "C" && "B" != "C" by {
      assert "A"[0] != "B"[0] && "A"[0] != "C"[0] && "B"[0] != "C"[0];
    }
    assert g.Keys == {"A", "B", "C"};
    assert next == "B" || next == "C";
  }

  /**
   * A run of the search as written from begin: visited[0] is begin with
   * the initial table, and each later city was chosen by the step as
   * written from the city before it, tables[i] being the table that step
   * left.
   */
  ghost predicate RunAsWritten(g: Graph, begin: string, visited: seq<string>, tables: seq<Table>)
  {
    Closed(g) && |visited| == |tables| > 0 && visited[0] == begin && tables[0] == Initial(g, begin)
    && (forall i :: 0 <= i < |visited| ==> visited[i] in g && tables[i].Keys == g.Keys)
    && forall i :: 0 < i < |visited| ==>
      tables[i] == Relaxed(g, tables[i - 1], visited[i - 1])
      && NeighbourChoice(g, tables[i], visited[..i], visited[i - 1], visited[i])
  }

  /** A run as written goes on by one step: relax the roads out of its last city, then move to a closest unvisited neighbour. */
  lemma RunAsWrittenStep(g: Graph, begin: string, visited: seq<string>, tables: seq<Table>, t: Table, next: string)
    requires RunAsWritten(g, begin, visited, tables)
    requires t == Relaxed(g, tables[|tables| - 1], visited[|visited| - 1]) && t.Keys == g.Keys
    requires NeighbourChoice(g, t, visited, visited[|visited| - 1], next)
    ensures RunAsWritten(g, begin, visited + [next], tables + [t])
  {
    var v, ts := visited + [next], tables + [t];
    forall i | 0 <= i < |v|
      ensures v[i] in g && ts[i].Keys == g.Keys
    {
      if i < |visited| {
        assert v[i] == visited[i] && ts[i] == tables[i];
      }
    }
    forall i | 0 < i < |v|
      ensures ts[i] == Relaxed(g, ts[i - 1], v[i - 1]) && NeighbourChoice(g, ts[i], v[..i], v[i - 1], v[i])
    {
      if i < |visited| {
        assert v[..i] == visited[..i];
        assert v[i] == visited[i] && ts[i] == tables[i] && v[i - 1] == visited[i - 1] && ts[i - 1] == tables[i - 1];
      } else {
        assert v[..i] == visited;
      }
    }
  }

  /** Every recorded predecessor is a neighbour of the city it is recorded for. */
  predicate LinkedBack(g: Graph, t: Table)
  {
    forall c :: c in t && t[c].previous.Some? ==> Adjacent(g, t[c].previous.value, c)
  }

  /** Relaxing the roads out of a city keeps every recorded predecessor a neighbour. */
  lemma RelaxedLinkedBack(g: Graph, t: Table, current: string)
    requires Closed(g) && current in g && current in t && LinkedBack(g, t)
    ensures LinkedBack(g, Relaxed(g, t, current))
  {
  }

  /**
   * The search as written: from begin, relax the roads out of the current
   * city and move to an unvisited neighbour of it with the smallest
   * distance, until every city is visited. When the current city has no
   * unvisited neighbour although some city is unvisited, the step has no
   * city to move to (the search reads an unset pointer there) and the
   * result is None.
   */
  method ExploreAsWritten(g: Graph, begin: string)
    returns (r: Option<Table>, visited: seq<string>, ghost tables: seq<Table>)
    requires Roads(g) && begin in g
    ensures RunAsWritten(g, begin, visited, tables) && LinkedBack(g, tables[|tables| - 1])
    ensures r.Some? ==> |visited| >= |g.Keys| && r.value == tables[|tables| - 1]
    ensures r.None? ==>
      |visited| < |g.Keys| && forall n :: n in g[visited[|visited| - 1]] ==> n in visited
  {
    var t := StartTable(g, begin);
    var current := begin;
    visited, tables := [begin], [t];
    while |visited| < |g.Keys|
      invariant RunAsWritten(g, begin, visited, tables) && LinkedBack(g, t)
      invariant t == tables[|tables| - 1] && current == visited[|visited| - 1]
      decreases |g.Keys| - |visited|
    {
      t := Relax(g, t, current);
      RelaxedLinkedBack(g, tables[|tables| - 1], current);
      if forall n :: n in g[current] ==> n in visited {
        return None, visited, tables;
      }
      var next := NeighbourStep(g, t, visited, current);
      RunAsWrittenStep(g, begin, visited, tables, t, next);
      visited, tables := visited + [next], tables + [t];
      current := next;
    }
    r := Some(t);
  }

  /** Each city of the path is recorded in the table as the predecessor of the next one. */
  predicate Followed(t: Table, path: seq<string>)
  {
    forall i :: 0 < i < |path| ==> path[i] in t && t[path[i]].previous == Some(path[i - 1])
  }

  /** A path that follows recorded predecessors, each a neighbour, is a walk. */
  lemma FollowedWalk(g: Graph, t: Table, path: seq<string>)
    requires LinkedBack(g, t) && Followed(t, path)
    ensures Walk(g, path)
  {
    forall i | 0 <= i < |path| - 1
      ensures Adjacent(g, path[i], path[i + 1])
    {
      assert t[path[i + 1]].previous == Some(path[i]);
    }
  }

  /**
   * The path read back as written: from end, step to the recorded
   * predecessor until begin is met. A city without a predecessor ends the
   * reading with None, as does a chain longer than the table, which would
   * come back to a city already read.
   */
  method MakePathAsWritten(t: Table, begin: string, end: string) returns (r: Option<seq<string>>)
    ensures r.Some? ==>
      |r.value| > 0 && r.value[0] == begin && r.value[|r.value| - 1] == end && Followed(t, r.value)
      && forall i :: 0 < i < |r.value| ==> r.value[i] != begin
  {
    var current := end;
    var path := [end];
    var steps := 0;
    while current != begin
      invariant |path| == steps + 1 && path[0] == current && path[|path| - 1] == end && Followed(t, path)
      invariant forall i :: 0 < i < |path| ==> path[i] != begin
      decreases |t| - steps
    {
      if steps >= |t| || current !in t || t[current].previous.None? {
        return None;
      }
      current := t[current].previous.value;
      path := [current] + path;
      steps := steps + 1;
    }
    return Some(path);
  }

  /**
   * findShortestPath as written: the search as written, then the path read
   * back; when both succeed the path is a walk from begin to end that
   * follows the final table of the run.
   */
  method ShortestPathAsWritten(g: Graph, begin: string, end: string)
    returns (r: Option<seq<string>>, visited: seq<string>, ghost tables: seq<Table>)
    requires Roads(g) && begin in g && end in g
    ensures RunAsWritten(g, begin, visited, tables)
    ensures r.Some? ==>
      |visited| >= |g.Keys| && |r.value| > 0 && r.value[0] == begin && r.value[|r.value| - 1] == end
      && Walk(g, r.value) && Followed(tables[|tables| - 1], r.value)
  {
    var explored;
    explored, visited, tables := ExploreAsWritten(g, begin);
    if explored.None? {
      return None, visited, tables;
    }
    r := MakePathAsWritten(explored.value, begin, end);
    if r.Some? {
      FollowedWalk(g, explored.value, r.value);
    }
  }

  /** Four cities: A-B of length 1, A-C of 2, B-D of 10 and C-D of 1. */
  function Diamond(): Graph
  {
    map["A" := map["B" := 1, "C" := 2], "B" := map["A" := 1, "D" := 10],
        "C" := map["A" := 2, "D" := 1], "D" := map["B" := 10, "C" := 1]]
  }

  /**
   * On the diamond, the search as written from A visits A, B, D and C, in
   * that order, and records B as the predecessor of D at distance 11 and A
   * as that of B, although A-C-D has length 3.
   */
  lemma DiamondRun(visited: seq<string>, tables: seq<Table>)
    requires RunAsWritten(Diamond(), "A", visited, tables) && |visited| >= 4
    ensures |visited| == 4 && visited == ["A", "B", "D", "C"]
    ensures tables[3]["D"] == Tentative(11, Some("B")) && tables[3]["B"] == Tentative(1, Some("A"))
    ensures tables[3]["A"].previous == None
  {
    var g := Diamond();
    RunStep(g, "A", visited, tables, 1);
    RunStep(g, "A", visited, tables, 2);
    RunStep(g, "A", visited, tables, 3);
    FirstFour(visited);
    DiamondSteps(visited[1], visited[2], visited[3], tables[0], tables[1], tables[2], tables[3]);
    if |visited| > 4 {
      RunStep(g, "A", visited, tables, 4);
      DiamondFromC(tables[4], visited[4]);
      assert false;
    }
  }

  /** The i-th step of a run as written: relax the roads out of the city before, then move to a closest unvisited neighbour. */
  lemma RunStep(g: Graph, begin: string, visited: seq<string>, tables: seq<Table>, i: nat)
    requires RunAsWritten(g, begin, visited, tables) && 0 < i < |visited|
    ensures Closed(g) && visited[i - 1] in g && visited[i] in g && tables[i - 1].Keys == g.Keys && tables[i].Keys == g.Keys
    ensures tables[i] == Relaxed(g, tables[i - 1], visited[i - 1])
    ensures NeighbourChoice(g, tables[i], visited[..i], visited[i - 1], visited[i])
  {
  }

  /** The prefixes of a sequence of at least four cities, element by element. */
  lemma FirstFour(s: seq<string>)
    requires |s| >= 4
    ensures s[..1] == [s[0]] && s[..2] == [s[0], s[1]] && s[..3] == [s[0], s[1], s[2]]
    ensures s[..4] == [s[0], s[1], s[2], s[3]]
  {
  }

  /** The first three steps as written from A on the diamond move to B, D and C. */
  lemma DiamondSteps(v1: string, v2: string, v3: string, t0: Table, t1: Table, t2: Table, t3: Table)
    requires t0 == Initial(Diamond(), "A") && t1 == Relaxed(Diamond(), t0, "A")
    requires v1 in Diamond() && t1.Keys == Diamond().Keys && NeighbourChoice(Diamond(), t1, ["A"], "A", v1)
    requires t2 == Relaxed(Diamond(), t1, v1)
    requires v2 in Diamond() && t2.Keys == Diamond().Keys && NeighbourChoice(Diamond(), t2, ["A", v1], v1, v2)
    requires t3 == Relaxed(Diamond(), t2, v2)
    requires v3 in Diamond() && t3.Keys == Diamond().Keys && NeighbourChoice(Diamond(), t3, ["A", v1, v2], v2, v3)
    ensures v1 == "B" && v2 == "D" && v3 == "C"
    ensures t3["D"] == Tentative(11, Some("B")) && t3["B"] == Tentative(1, Some("A")) && t3["A"].previous == None
  {
    DiamondFirst(t0, t1);
    DiamondFromA(t1, v1);
    DiamondSecond(t1, t2);
    DiamondFromB(t2, v2);
    DiamondThird(t2, t3);
    DiamondFromD(t3, v3);
  }

  /** From A, with B at 1 and C at 2, the step as written moves to B. */
  lemma DiamondFromA(t1: Table, next: string)
    requires t1.Keys == Diamond().Keys && t1["B"].distance == 1 && t1["C"].distance == 2
    requires NeighbourChoice(Diamond(), t1, ["A"], "A", next)
    ensures next == "B"
  {
    DiamondNames();
  }

  /** From B, with A visited, the step as written moves to D. */
  lemma DiamondFromB(t2: Table, next: string)
    requires t2.Keys == Diamond().Keys && NeighbourChoice(Diamond(), t2, ["A", "B"], "B", next)
    ensures next == "D"
  {
    DiamondNames();
  }

  /** From D, with B visited, the step as written moves to C. */
  lemma DiamondFromD(t3: Table, next: string)
    requires t3.Keys == Diamond().Keys && NeighbourChoice(Diamond(), t3, ["A", "B", "D"], "D", next)
    ensures next == "C"
  {
    DiamondNames();
  }

  /** From C, once the four cities are visited, no neighbour is left to move to. */
  lemma DiamondFromC(t4: Table, next: string)
    requires t4.Keys == Diamond().Keys
    ensures !NeighbourChoice(Diamond(), t4, ["A", "B", "D", "C"], "C", next)
  {
    DiamondNames();
  }

  /** Relaxing the roads out of A at the start gives B distance 1 and C distance 2, both through A. */
  lemma DiamondFirst(t0: Table, t1: Table)
    requires t0 == Initial(Diamond(), "A") && t1 == Relaxed(Diamond(), t0, "A")
    ensures t1.Keys == Diamond().Keys
    ensures t1["A"] == Tentative(0, None) && t1["B"] == Tentative(1, Some("A"))
    ensures t1["C"] == Tentative(2, Some("A")) && t1["D"] == Tentative(-1, None)
  {
    DiamondNames();
    assert t0["A"] == Tentative(0, None) && t0["B"].distance == -1 && t0["C"].distance == -1;
    assert t0["D"] == Tentative(-1, None);
  }

  /** Relaxing the roads out of B then gives D distance 11 through B. */
  lemma DiamondSecond(t1: Table, t2: Table)
    requires t1.Keys == Diamond().Keys
    requires t1["A"] == Tentative(0, None) && t1["B"] == Tentative(1, Some("A"))
    requires t1["C"] == Tentative(2, Some("A")) && t1["D"] == Tentative(-1, None)
    requires t2 == Relaxed(Diamond(), t1, "B")
    ensures t2.Keys == Diamond().Keys
    ensures t2["A"] == Tentative(0, None) && t2["B"] == Tentative(1, Some("A"))
    ensures t2["C"] == Tentative(2, Some("A")) && t2["D"] == Tentative(11, Some("B"))
  {
    DiamondNames();
  }

  /** Relaxing the roads out of D then changes nothing: B at 1 and C at 2 are already closer. */
  lemma DiamondThird(t2: Table, t3: Table)
    requires t2.Keys == Diamond().Keys
    requires t2["A"] == Tentative(0, None) && t2["B"] == Tentative(1, Some("A"))
    requires t2["C"] == Tentative(2, Some("A")) && t2["D"] == Tentative(11, Some("B"))
    requires t3 == Relaxed(Diamond(), t2, "D")
    ensures t3["A"] == Tentative(0, None) && t3["B"] == Tentative(1, Some("A"))
    ensures t3["C"] == Tentative(2, Some("A")) && t3["D"] == Tentative(11, Some("B"))
  {
    DiamondNames();
  }

  /**
   * The diamond has well-formed roads, and the search as written from A to
   * D, when it returns a path, returns A-B-D, of length 11, while A-C-D is a
   * walk of length 3.
   */
  lemma DiamondAsWritten(visited: seq<string>, tables: seq<Table>, path: seq<string>)
    requires RunAsWritten(Diamond(), "A", visited, tables) && |visited| >= 4
    requires |path| > 0 && path[0] == "A" && path[|path| - 1] == "D" && Followed(tables[|tables| - 1], path)
    ensures Roads(Diamond())
    ensures path == ["A", "B", "D"] && Length(Diamond(), path) == 11
    ensures Walk(Diamond(), ["A", "C", "D"]) && Length(Diamond(), ["A", "C", "D"]) == 3
  {
    DiamondRoads();
    DiamondRun(visited, tables);
    DiamondBack(tables[3], path);
    DiamondLengths();
  }

  /** Following the predecessors B of D and A of B back to A, which has none, gives A-B-D. */
  lemma DiamondBack(t: Table, path: seq<string>)
    requires t.Keys == Diamond().Keys
    requires t["D"] == Tentative(11, Some("B")) && t["B"] == Tentative(1, Some("A")) && t["A"].previous == None
    requires |path| > 0 && path[0] == "A" && path[|path| - 1] == "D" && Followed(t, path)
    ensures path == ["A", "B", "D"]
  {
    var n := |path|;
    assert "A" != "B" && "A" != "D" && "B" != "D" by {
      assert "A"[0] != "B"[0] && "A"[0] != "D"[0] && "B"[0] != "D"[0];
    }
    assert n >= 2;
    assert t[path[n - 1]].previous == Some(path[n - 2]);
    assert path[n - 2] == "B" && n >= 3;
    assert t[path[n - 2]].previous == Some(path[n - 3]);
    assert path[n - 3] == "A";
    assert n == 3 by {
      if n > 3 {
        FollowedAt(t, path, n - 3);
        assert false;
      }
    }
  }

  /** One link of a followed path: the city at i records the one before it as its predecessor. */
  lemma FollowedAt(t: Table, path: seq<string>, i: nat)
    requires Followed(t, path) && 0 < i < |path|
    ensures path[i] in t && t[path[i]].previous == Some(path[i - 1])
  {
  }

  /** On the diamond, A-B-D is a walk of length 11 and A-C-D one of length 3. */
  lemma DiamondLengths()
    ensures Walk(Diamond(), ["A", "B", "D"]) && Length(Diamond(), ["A", "B", "D"]) == 11
    ensures Walk(Diamond(), ["A", "C", "D"]) && Length(Diamond(), ["A", "C", "D"]) == 3
  {
    var g := Diamond();
    assert Walk(g, ["A", "B", "D"]);
    assert ["A", "B", "D"][..2] == ["A", "B"] && ["A", "B"][..1] == ["A"];
    assert Walk(g, ["A", "C", "D"]);
    assert ["A", "C", "D"][..2] == ["A", "C"] && ["A", "C"][..1] == ["A"];
  }

  /** The diamond's roads go both ways with the same lengths, which are not negative, and no road is a loop. */
  lemma DiamondRoads()
    ensures Roads(Diamond())
  {
    var g := Diamond();
    DiamondNames();
    assert g.Keys == {"A", "B", "C", "D"};
    forall a, b | a in g && b in g[a]
      ensures b in g && a in g[b] && g[b][a] == g[a][b] && g[a][b] >= 0 && a != b
    {
      if a == "A" {
        assert b == "B" || b == "C";
      } else if a == "B" {
        assert b == "A" || b == "D";
      } else if a == "C" {
        assert b == "A" || b == "D";
      } else {
        assert a == "D" && (b == "B" || b == "C");
      }
    }
  }

  /** The four city names of the diamond are distinct. */
  lemma DiamondNames()
    ensures "A" != "B" && "A" != "C" && "A" != "D" && "B" != "C" && "B" != "D" && "C" != "D"
  {
    assert "A"[0] != "B"[0] && "A"[0] != "C"[0] && "A"[0] != "D"[0];
    assert "B"[0] != "C"[0] && "B"[0] != "D"[0] && "C"[0] != "D"[0];
  }

  /** Every visited city is numbered by its place in visited. */
  predicate Numbered(visited: seq<string>, rank: map<string, nat>)
  {
    (forall i :: 0 <= i < |visited| ==> visited[i] in rank && rank[visited[i]] == i)
    && forall c :: c in rank ==> rank[c] < |visited| && visited[rank[c]] == c
  }

  /** The table covers the map, the start city keeps distance 0 and no predecessor, and -1 is the only negative distance. */
  predicate Tabled(g: Graph, begin: string, t: Table)
  {
    t.Keys == g.Keys && begin in t && t[begin] == Tentative(0, None)
    && forall c :: c in t ==> t[c].distance >= -1
  }

  /** Every visited city has a known distance. */
  predicate Settled(t: Table, rank: map<string, nat>)
  {
    forall v :: v in rank ==> v in t && t[v].distance >= 0
  }

  /**
   * Every reached city other than the start city has a visited predecessor,
   * a neighbour whose distance plus the road between them is its distance;
   * a visited city was visited after its predecessor.
   */
  predicate Linked(g: Graph, begin: string, t: Table, rank: map<string, nat>)
  {
    forall c :: c in t && c != begin && t[c].distance != -1 ==>
      t[c].previous.Some?
      && var p := t[c].previous.value;
      p in rank && p in t && Adjacent(g, p, c) && t[c].distance == t[p].distance + g[p][c]
      && (c in rank ==> rank[p] < rank[c])
  }

  /** No visited city is further than current or than any reached unvisited city. */
  predicate Ordered(t: Table, rank: map<string, nat>, current: string)
  {
    current in t
    && (forall v :: v in rank ==> v in t && t[v].distance <= t[current].distance)
    && forall v, u :: v in rank && u in t && u !in rank && t[u].distance != -1 ==> v in t && t[v].distance <= t[u].distance
  }

  /** The roads out of v have been relaxed: its neighbours are reached, at most as far as through v. */
  predicate RelaxedFrom(g: Graph, t: Table, v: string)
  {
    v in g && v in t
    && forall n :: n in g[v] ==> n in t && t[n].distance != -1 && t[n].distance <= t[v].distance + g[v][n]
  }

  /** The roads out of every visited city except current have been relaxed. */
  predicate RelaxedBut(g: Graph, t: Table, rank: map<string, nat>, current: string)
  {
    forall v :: v in rank && v != current ==> RelaxedFrom(g, t, v)
  }

  /** The distance of every visited city is the shortest there is. */
  ghost predicate AllShortest(g: Graph, begin: string, t: Table, rank: map<string, nat>)
  {
    forall v :: v in rank && v in t ==> Shortest(g, begin, v, t[v].distance)
  }

  /** The state of the search between two steps; current is the last city visited. */
  ghost predicate Search(g: Graph, begin: string, t: Table, visited: seq<string>, rank: map<string, nat>)
  {
    Roads(g) && begin in g && |visited| > 0 && visited[0] == begin
    && (forall i :: 0 <= i < |visited| ==> visited[i] in g)
    && Numbered(visited, rank) && Tabled(g, begin, t) && Settled(t, rank) && Linked(g, begin, t, rank)
    && Ordered(t, rank, visited[|visited| - 1]) && AllShortest(g, begin, t, rank)
  }

  /** No walk has a negative length, so distance 0 is the shortest from the start city to itself. */
  lemma BeginIsShortest(g: Graph, begin: string)
    requires NonNegative(g)
    ensures Shortest(g, begin, begin, 0)
  {
    forall p | Walk(g, p) && |p| > 0 && p[0] == begin && p[|p| - 1] == begin
      ensures 0 <= Length(g, p)
    {
      LengthNonNegative(g, p);
    }
  }

  /** Relaxing from current changes no visited city: none is further than current. */
  lemma {:induction false} RelaxKeepsVisited(g: Graph, t: Table, rank: map<string, nat>, current: string)
    requires NonNegative(g) && current in g && Settled(t, rank) && Ordered(t, rank, current) && current in rank
    ensures forall v :: v in rank ==> v in Relaxed(g, t, current) && Relaxed(g, t, current)[v] == t[v]
  {
  }

  /** Relaxing never loses a reached city and never lengthens a distance. */
  lemma RelaxNoFurther(g: Graph, t: Table, current: string)
    requires NonNegative(g) && current in g && current in t && t[current].distance >= 0
    ensures forall c :: c in t ==> c in Relaxed(g, t, current)
    ensures forall c :: c in t && t[c].distance != -1 ==> Relaxed(g, t, current)[c].distance != -1 && Relaxed(g, t, current)[c].distance <= t[c].distance
  {
  }

  /** Relaxing from current keeps the roads out of the other visited cities relaxed, and relaxes those out of current. */
  lemma {:induction false} RelaxKeepsRelaxed(g: Graph, t: Table, rank: map<string, nat>, current: string)
    requires Closed(g) && NonNegative(g) && t.Keys == g.Keys && current in g && current in rank
    requires Settled(t, rank) && Ordered(t, rank, current) && RelaxedBut(g, t, rank, current)
    ensures RelaxedBut(g, Relaxed(g, t, current), rank, current) && RelaxedFrom(g, Relaxed(g, t, current), current)
  {
    var r := Relaxed(g, t, current);
    RelaxKeepsVisited(g, t, rank, current);
    RelaxNoFurther(g, t, current);
    forall v | v in rank && v != current
      ensures RelaxedFrom(g, r, v)
    {
      assert RelaxedFrom(g, t, v);
      assert r[v] == t[v];
    }
  }

  /** Relaxing from current keeps every predecessor a visited neighbour that accounts for the distance. */
  lemma {:induction false} RelaxKeepsLinked(g: Graph, begin: string, t: Table, rank: map<string, nat>, current: string)
    requires NonNegative(g) && current in g && current in rank && t.Keys == g.Keys && begin in t && t[begin].distance == 0
    requires Settled(t, rank) && Ordered(t, rank, current) && Linked(g, begin, t, rank)
    ensures Linked(g, begin, Relaxed(g, t, current), rank)
  {
    RelaxKeepsVisited(g, t, rank, current);
  }

  /** Relaxing from current keeps visited cities no further than current or any reached unvisited city. */
  lemma {:induction false} RelaxKeepsOrdered(g: Graph, t: Table, rank: map<string, nat>, current: string)
    requires NonNegative(g) && current in g && current in rank && Settled(t, rank) && Ordered(t, rank, current)
    ensures Ordered(Relaxed(g, t, current), rank, current)
  {
    RelaxKeepsVisited(g, t, rank, current);
  }

  /** Relaxing from current keeps the start city at 0 and the distances of visited cities, the shortest there are. */
  lemma {:induction false} RelaxKeepsSettled(g: Graph, begin: string, t: Table, rank: map<string, nat>, current: string)
    requires NonNegative(g) && current in g && current in rank && begin in rank && Tabled(g, begin, t)
    requires Settled(t, rank) && Ordered(t, rank, current) && AllShortest(g, begin, t, rank)
    ensures Tabled(g, begin, Relaxed(g, t, current)) && Settled(Relaxed(g, t, current), rank)
    ensures AllShortest(g, begin, Relaxed(g, t, current), rank)
  {
    RelaxKeepsVisited(g, t, rank, current);
  }

  /** Relaxing from current keeps the state of the search and relaxes current. */
  lemma {:induction false} RelaxStep(g: Graph, begin: string, t: Table, visited: seq<string>, rank: map<string, nat>)
    requires Search(g, begin, t, visited, rank) && RelaxedBut(g, t, rank, visited[|visited| - 1])
    ensures var r := Relaxed(g, t, visited[|visited| - 1]);
      Search(g, begin, r, visited, rank) && forall v :: v in rank ==> RelaxedFrom(g, r, v)
  {
    var current := visited[|visited| - 1];
    assert current in rank;
    var r := Relaxed(g, t, current);
    RelaxKeepsVisited(g, t, rank, current);
    RelaxKeepsLinked(g, begin, t, rank, current);
    RelaxKeepsOrdered(g, t, rank, current);
    RelaxKeepsRelaxed(g, t, rank, current);
    assert begin in rank;
    RelaxKeepsSettled(g, begin, t, rank, current);
  }

  /** The numbered cities are the visited ones. */
  lemma NumberedMembers(visited: seq<string>, rank: map<string, nat>)
    requires Numbered(visited, rank)
    ensures forall c :: c in rank <==> c in visited
  {
    forall c | c in visited
      ensures c in rank
    {
      var i :| 0 <= i < |visited| && visited[i] == c;
    }
  }

  /** Once every city inside is relaxed, a map with a single component has a reached city outside while some city is outside. */
  lemma {:induction false} ReachedOutside(g: Graph, begin: string, t: Table, inside: set<string>)
    requires Connected(g) && begin in inside && inside <= g.Keys && |inside| < |g.Keys|
    requires forall v :: v in inside ==> RelaxedFrom(g, t, v)
    ensures exists c :: c in t && c !in inside && t[c].distance != -1
  {
    if g.Keys <= inside {
      SubsetSize(g.Keys, inside);
      assert false;
    }
    var u :| u in g && u !in inside;
    assert Reachable(g, begin, u);
    var p :| Walk(g, p) && |p| > 0 && p[0] == begin && p[|p| - 1] == u;
    WalkLeaves(g, p, inside);
    var i :| 0 <= i < |p| - 1 && p[i] in inside && p[i + 1] !in inside && Adjacent(g, p[i], p[i + 1]);
    assert RelaxedFrom(g, t, p[i]);
  }

  /** A walk from begin to next leaves the cities inside along a relaxed road, so it is at least as long as next is far. */
  lemma {:induction false} WalkNoShorter(g: Graph, begin: string, t: Table, inside: set<string>, next: string, p: seq<string>)
    requires NonNegative(g) && begin in inside
    requires forall v :: v in inside ==> RelaxedFrom(g, t, v) && Shortest(g, begin, v, t[v].distance)
    requires next in t && next !in inside
    requires forall c :: c in t && c !in inside && t[c].distance != -1 ==> t[next].distance <= t[c].distance
    requires Walk(g, p) && |p| > 0 && p[0] == begin && p[|p| - 1] == next
    ensures t[next].distance <= Length(g, p)
  {
    WalkLeaves(g, p, inside);
    var i :| 0 <= i < |p| - 1 && p[i] in inside && p[i + 1] !in inside && Adjacent(g, p[i], p[i + 1]);
    var v, u := p[i], p[i + 1];
    assert RelaxedFrom(g, t, v) && Shortest(g, begin, v, t[v].distance);
    LengthPrefix(g, p, i + 2);
    LengthExtend(g, p, i + 1);
    var before := p[..i + 1];
    assert before[0] == begin && before[i] == v;
    assert t[v].distance <= Length(g, before);
  }

  /** Once every city inside is relaxed, the closest reached city outside has the shortest distance. */
  lemma {:induction false} NextShortest(g: Graph, begin: string, t: Table, inside: set<string>, next: string)
    requires NonNegative(g) && begin in inside
    requires forall v :: v in inside ==> RelaxedFrom(g, t, v) && Shortest(g, begin, v, t[v].distance)
    requires next in t && next !in inside
    requires forall c :: c in t && c !in inside && t[c].distance != -1 ==> t[next].distance <= t[c].distance
    ensures Shortest(g, begin, next, t[next].distance)
  {
    forall p | Walk(g, p) && |p| > 0 && p[0] == begin && p[|p| - 1] == next
      ensures t[next].distance <= Length(g, p)
    {
      WalkNoShorter(g, begin, t, inside, next, p);
    }
  }

  /** Visiting a new city keeps the numbering and the start city first. */
  lemma {:induction false} AppendNumbered(g: Graph, begin: string, visited: seq<string>, rank: map<string, nat>, next: string)
    requires Numbered(visited, rank) && next !in rank && next in g
    requires |visited| > 0 && visited[0] == begin && forall i :: 0 <= i < |visited| ==> visited[i] in g
    ensures Numbered(visited + [next], rank[next := |visited|])
    ensures var after := visited + [next];
      after[0] == begin && after[|after| - 1] == next && forall i :: 0 <= i < |after| ==> after[i] in g
    ensures |rank[next := |visited|].Keys| == |rank.Keys| + 1
  {
    assert rank[next := |visited|].Keys == rank.Keys + {next};
  }

  /** Visiting a city whose distance is the shortest keeps every visited distance the shortest. */
  lemma {:induction false} AppendShortest(g: Graph, begin: string, t: Table, rank: map<string, nat>, next: string, k: nat)
    requires AllShortest(g, begin, t, rank) && next in t && Shortest(g, begin, next, t[next].distance)
    ensures AllShortest(g, begin, t, rank[next := k])
  {
  }

  /** Visiting the closest reached city keeps the predecessors and the order of the search. */
  lemma {:induction false} AppendLinked(g: Graph, begin: string, t: Table, visited: seq<string>, rank: map<string, nat>, next: string)
    requires |visited| > 0 && Numbered(visited, rank) && Settled(t, rank) && Linked(g, begin, t, rank)
    requires Ordered(t, rank, visited[|visited| - 1])
    requires next in t && next !in rank && next != begin && t[next].distance != -1
    requires forall c :: c in t && c !in rank && t[c].distance != -1 ==> t[next].distance <= t[c].distance
    ensures Settled(t, rank[next := |visited|]) && Linked(g, begin, t, rank[next := |visited|])
    ensures Ordered(t, rank[next := |visited|], next)
  {
  }

  /** Visiting the closest reached city keeps the state of the search, with that city as current. */
  lemma {:induction false} AppendStep(g: Graph, begin: string, t: Table, visited: seq<string>, rank: map<string, nat>, next: string)
    requires Search(g, begin, t, visited, rank)
    requires forall v :: v in rank ==> RelaxedFrom(g, t, v)
    requires next in t && next !in visited && t[next].distance != -1
    requires forall c :: c in t && c !in visited && t[c].distance != -1 ==> t[next].distance <= t[c].distance
    ensures Search(g, begin, t, visited + [next], rank[next := |visited|])
    ensures RelaxedBut(g, t, rank[next := |visited|], next)
    ensures |rank[next := |visited|].Keys| == |rank.Keys| + 1
  {
    NumberedMembers(visited, rank);
    assert begin in rank && next in g;
    NextShortest(g, begin, t, rank.Keys, next);
    AppendNumbered(g, begin, visited, rank, next);
    AppendLinked(g, begin, t, visited, rank, next);
    AppendShortest(g, begin, t, rank, next, |visited|);
  }

  /** After relaxing from current, every visited city is relaxed and, while some city is unvisited, a reached city is unvisited. */
  lemma {:induction false} RelaxedThenReached(g: Graph, begin: string, t: Table, visited: seq<string>, rank: map<string, nat>)
    requires Connected(g) && Search(g, begin, t, visited, rank) && RelaxedBut(g, t, rank, visited[|visited| - 1])
    requires |rank.Keys| < |g.Keys|
    ensures var r := Relaxed(g, t, visited[|visited| - 1]);
      Search(g, begin, r, visited, rank) && (forall v :: v in rank ==> RelaxedFrom(g, r, v))
      && exists c :: c in r && c !in visited && r[c].distance != -1
  {
    var r := Relaxed(g, t, visited[|visited| - 1]);
    RelaxStep(g, begin, t, visited, rank);
    NumberedMembers(visited, rank);
    assert begin in rank && rank.Keys <= g.Keys;
    ReachedOutside(g, begin, r, rank.Keys);
  }

  /**
   * One step of the search: relax the roads out of the last visited city,
   * then visit the closest reached city not yet visited.
   */
  method DijkstraStep(g: Graph, ghost begin: string, t: Table, visited: seq<string>, ghost rank: map<string, nat>)
    returns (r: Table, after: seq<string>, next: string, ghost rank': map<string, nat>)
    requires Connected(g) && Search(g, begin, t, visited, rank) && RelaxedBut(g, t, rank, visited[|visited| - 1])
    requires |rank.Keys| == |visited| < |g.Keys|
    ensures r == Relaxed(g, t, visited[|visited| - 1]) && after == visited + [next] && next !in visited
    ensures Search(g, begin, r, after, rank') && RelaxedBut(g, r, rank', next)
    ensures |rank'.Keys| == |after|
  {
    var current := visited[|visited| - 1];
    r := Relax(g, t, current);
    RelaxedThenReached(g, begin, t, visited, rank);
    next := ClosestUnvisited(r, visited);
    AppendStep(g, begin, r, visited, rank, next);
    after := visited + [next];
    rank' := rank[next := |visited|];
  }

  /** The search starts in its state: only the start city visited, at distance 0, and nothing else reached. */
  lemma {:induction false} InitialSearch(g: Graph, begin: string)
    requires Roads(g) && begin in g
    ensures Search(g, begin, Initial(g, begin), [begin], map[begin := 0])
    ensures RelaxedBut(g, Initial(g, begin), map[begin := 0], begin)
  {
    BeginIsShortest(g, begin);
  }

  /** The part of the path read back so far: a walk from current to end of strictly increasing ranks, as long as end is further than current. */
  predicate ReadBack(g: Graph, t: Table, rank: map<string, nat>, end: string, current: string, path: seq<string>)
  {
    current in rank && current in t && end in t
    && Walk(g, [current] + path) && RankedIncreasing([current] + path, rank)
    && ([current] + path)[|path|] == end
    && Length(g, [current] + path) + t[current].distance == t[end].distance
  }

  /** Stepping back from current to its predecessor extends the part read back. */
  lemma {:induction false} BackStep(g: Graph, begin: string, t: Table, rank: map<string, nat>, end: string, current: string, path: seq<string>)
    requires Tabled(g, begin, t) && Settled(t, rank) && Linked(g, begin, t, rank)
    requires ReadBack(g, t, rank, end, current, path) && current != begin
    ensures t[current].previous.Some? && t[current].previous.value in rank
    ensures rank[t[current].previous.value] < rank[current]
    ensures ReadBack(g, t, rank, end, t[current].previous.value, [current] + path)
  {
    var before := t[current].previous.value;
    PrependStep(g, before, current, path, rank);
  }

  /**
   * Reads the path backwards from end through the recorded predecessors
   * until it meets begin; its length is the distance recorded for end.
   */
  method MakePath(g: Graph, begin: string, end: string, t: Table, ghost rank: map<string, nat>) returns (path: seq<string>)
    requires Tabled(g, begin, t) && Settled(t, rank) && Linked(g, begin, t, rank) && end in rank
    ensures |path| > 0 && path[0] == begin && path[|path| - 1] == end
    ensures Walk(g, path) && RankedIncreasing(path, rank) && Length(g, path) == t[end].distance
    ensures begin == end ==> path == [begin]
  {
    var current := end;
    path := [];
    ReadBackStart(g, t, rank, end);
    while current != begin
      invariant ReadBack(g, t, rank, end, current, path)
      invariant begin == end ==> path == []
      decreases rank[current]
    {
      BackStep(g, begin, t, rank, end, current, path);
      path := [current] + path;
      current := t[current].previous.value;
    }
    ReadBackDone(g, t, rank, end, begin, path);
    path := [current] + path;
  }

  /** Reading back starts at end itself, with nothing read yet. */
  lemma {:induction false} ReadBackStart(g: Graph, t: Table, rank: map<string, nat>, end: string)
    requires end in rank && end in t
    ensures ReadBack(g, t, rank, end, end, [])
  {
    assert [end] + [] == [end];
  }

  /** Once reading back meets the start city, at distance 0, the walk read is the whole path to end. */
  lemma {:induction false} ReadBackDone(g: Graph, t: Table, rank: map<string, nat>, end: string, begin: string, path: seq<string>)
    requires ReadBack(g, t, rank, end, begin, path) && t[begin].distance == 0
    ensures var p := [begin] + path;
      p[0] == begin && p[|p| - 1] == end && Walk(g, p) && RankedIncreasing(p, rank) && Length(g, p) == t[end].distance
  {
  }

  /** Putting a city's predecessor in front of a walk read back from end keeps it a walk of strictly increasing ranks. */
  lemma {:induction false} PrependStep(g: Graph, before: string, current: string, path: seq<string>, rank: map<string, nat>)
    requires Adjacent(g, before, current) && before in rank && current in rank && rank[before] < rank[current]
    requires Walk(g, [current] + path) && RankedIncreasing([current] + path, rank)
    ensures Walk(g, [before] + ([current] + path)) && RankedIncreasing([before] + ([current] + path), rank)
    ensures Length(g, [before] + ([current] + path)) == g[before][current] + Length(g, [current] + path)
  {
    var q := [current] + path;
    var r := [before] + q;
    assert r[1..] == q;
    forall i | 0 <= i < |r| - 1
      ensures Adjacent(g, r[i], r[i + 1])
    {
      if i > 0 {
        assert r[i] == q[i - 1] && r[i + 1] == q[i];
      }
    }
    forall i, j | 0 <= i < j < |r|
      ensures rank[r[i]] < rank[r[j]]
    {
      if i > 0 {
        assert r[i] == q[i - 1] && r[j] == q[j - 1];
      } else if j > 1 {
        assert r[j] == q[j - 1] && q[0] == current;
      }
    }
    LengthCons(g, before, q);
  }

  /**
   * Takes search steps from begin while some city is unvisited. Every city
   * ends up visited, with the shortest distance there is and a predecessor
   * chain back to begin.
   */
  method Explore(g: Graph, begin: string) returns (t: Table, ghost rank: map<string, nat>)
    requires Roads(g) && Connected(g) && begin in g
    ensures Tabled(g, begin, t) && Settled(t, rank) && Linked(g, begin, t, rank)
    ensures rank.Keys == g.Keys && AllShortest(g, begin, t, rank)
  {
    t := StartTable(g, begin);
    var current := begin;
    var visited := [begin];
    rank := map[begin := 0];
    InitialSearch(g, begin);
    assert rank.Keys == {begin};
    while |visited| < |g.Keys|
      invariant Search(g, begin, t, visited, rank) && current == visited[|visited| - 1]
      invariant RelaxedBut(g, t, rank, current)
      invariant |rank.Keys| == |visited| && rank.Keys <= g.Keys
      decreases |g.Keys| - |visited|
    {
      t, visited, current, rank := DijkstraStep(g, begin, t, visited, rank);
      VisitedInMap(g, visited, rank);
    }
    SubsetOfSameSize(rank.Keys, g.Keys);
  }

  /**
   * The shortest-path search: explore the map from begin, then read the
   * path back from end. On a map with a single component the path is a walk
   * from begin to end through distinct cities and no walk between them is
   * shorter.
   */
  method ShortestPath(g: Graph, begin: string, end: string) returns (path: seq<string>)
    requires Roads(g) && Connected(g) && begin in g && end in g
    ensures |path| > 0 && path[0] == begin && path[|path| - 1] == end && Walk(g, path)
    ensures forall i, j :: 0 <= i < j < |path| ==> path[i] != path[j]
    ensures Shortest(g, begin, end, Length(g, path))
    ensures begin == end ==> path == [begin]
  {
    var t, rank := Explore(g, begin);
    path := MakePath(g, begin, end, t, rank);
    RankedDistinct(path, rank);
  }

  /** The numbered cities of a search are cities of the map. */
  lemma VisitedInMap(g: Graph, visited: seq<string>, rank: map<string, nat>)
    requires Numbered(visited, rank) && forall i :: 0 <= i < |visited| ==> visited[i] in g
    ensures rank.Keys <= g.Keys
  {
  }
}
