/**
 * The map of the delivery service: the cities by name, the roads created
 * between them, the length of a path, and the shortest-path search (a
 * Dijkstra search over a table of tentative distances and predecessors,
 * followed by a walk back from the end city through the predecessors).
 */
module DeliveryMap {
  import opened DeliveryGraph
  import opened DeliveryCity
  import opened DeliveryDijkstra

  /** A line of the map file: two city names and the distance between them. */
  datatype Road = Road(first: string, second: string, distance: int)

  /** The graph with a city of that name, added without neighbours if it was missing. */
  function WithCity(g: Graph, n: string): (r: Graph)
    ensures r.Keys == g.Keys + {n}
    ensures forall c :: c in g ==> r[c] == g[c]
    ensures n !in g ==> r[n] == map[]
  {
    if n in g then g else g[n := map[]]
  }

  /** City a takes b as a neighbour at distance d, by the rules of City.AddNeighbour. */
  function Link(g: Graph, a: string, b: string, d: int): (r: Graph)
    requires a in g
    ensures r.Keys == g.Keys
  {
    if d < 0 || a == b || b in g[a] then g else g[a := g[a][b := d]]
  }

  /** The graph after createPath(a, b, d): both cities exist and each takes the other as a neighbour. */
  function Connect(g: Graph, a: string, b: string, d: int): (r: Graph)
    ensures r.Keys == g.Keys + {a, b}
  {
    var h := WithCity(WithCity(g, a), b);
    Link(Link(h, a, b, d), b, a, d)
  }

  /** The graph a map file builds, one road after the other. */
  function Build(roads: seq<Road>): Graph
  {
    if roads == [] then map[]
    else
      var r := roads[|roads| - 1];
      Connect(Build(roads[..|roads| - 1]), r.first, r.second, r.distance)
  }

  /** Creating a road keeps every existing distance: the first distance between two cities wins. */
  lemma ConnectKeepsDistances(g: Graph, a: string, b: string, d: int)
    ensures forall x, y :: x in g && y in g[x] ==> y in Connect(g, a, b, d)[x] && Connect(g, a, b, d)[x][y] == g[x][y]
  {
  }

  /** A road with a non-negative distance between two different cities joins them both ways at one distance. */
  lemma {:induction false} ConnectJoins(g: Graph, a: string, b: string, d: int)
    requires Roads(g) && d >= 0 && a != b
    ensures var r := Connect(g, a, b, d);
      Adjacent(r, a, b) && Adjacent(r, b, a) && r[a][b] == r[b][a]
      && (!Adjacent(g, a, b) ==> r[a][b] == d)
  {
    var h := WithCity(WithCity(g, a), b);
    if b in h[a] {
      assert Adjacent(g, a, b);
    } else {
      assert a !in h[b];
    }
  }

  /** Creating a road adds no road other than the one between its two cities. */
  lemma ConnectAddsOnlyItsRoad(g: Graph, a: string, b: string, d: int)
    ensures forall x, y :: Adjacent(Connect(g, a, b, d), x, y) ==> Adjacent(g, x, y) || (x == a && y == b) || (x == b && y == a)
  {
  }

  /** A city added without neighbours keeps the roads well formed. */
  lemma WithCityKeepsRoads(g: Graph, n: string)
    requires Roads(g)
    ensures Roads(WithCity(g, n))
  {
  }

  /** A new road between two different cities, added both ways at a non-negative distance, keeps the roads well formed. */
  lemma {:induction false} AddRoadKeepsRoads(h: Graph, a: string, b: string, d: int)
    requires Roads(h) && a in h && b in h && a != b && d >= 0 && b !in h[a] && a !in h[b]
    ensures Roads(h[a := h[a][b := d]][b := h[b][a := d]])
  {
    var r := h[a := h[a][b := d]][b := h[b][a := d]];
    forall x, y | x in r && y in r[x]
      ensures y in r && x in r[y] && r[y][x] == r[x][y] && r[x][y] >= 0
    {
      if (x == a && y == b) || (x == b && y == a) {
      } else {
        assert y in h[x] && r[x][y] == h[x][y];
        assert x in h[y];
      }
    }
  }

  /** Creating a road keeps the roads of a map well formed. */
  lemma {:induction false} ConnectKeepsRoads(g: Graph, a: string, b: string, d: int)
    requires Roads(g)
    ensures Roads(Connect(g, a, b, d))
  {
    var h := WithCity(WithCity(g, a), b);
    WithCityKeepsRoads(g, a);
    WithCityKeepsRoads(WithCity(g, a), b);
    if d < 0 || a == b || b in h[a] {
      assert b in h[a] ==> a in h[b];
      assert Link(h, a, b, d) == h;
    } else {
      assert a !in h[b];
      AddRoadKeepsRoads(h, a, b, d);
      var h1 := h[a := h[a][b := d]];
      assert Link(h, a, b, d) == h1;
      assert h1[b] == h[b];
      assert Link(h1, b, a, d) == h1[b := h[b][a := d]];
    }
  }

  /** The roads of a file up to one more line. */
  lemma BuildStep(roads: seq<Road>, i: nat)
    requires i < |roads|
    ensures Build(roads[..i + 1]) == Connect(Build(roads[..i]), roads[i].first, roads[i].second, roads[i].distance)
  {
    assert roads[..i + 1][..i] == roads[..i];
  }

  /** Every map file builds well-formed roads. */
  lemma {:induction false} BuildRoads(roads: seq<Road>)
    ensures Roads(Build(roads))
  {
    if roads != [] {
      BuildRoads(roads[..|roads| - 1]);
      var r := roads[|roads| - 1];
      ConnectKeepsRoads(Build(roads[..|roads| - 1]), r.first, r.second, r.distance);
    }
  }

  class Map {
    var cities: map<string, City>

    /** Each city is stored under its own name and its neighbours are cities of the map, both ways. */
    ghost predicate Valid()
      reads this, cities.Values
    {
      Named() && Roads(Graph())
    }

    /** Each city is stored under its own name and keeps its own invariant. */
    ghost predicate Named()
      reads this, cities.Values
    {
      forall n :: n in cities ==> cities[n].name == n && cities[n].Valid()
    }

    /** The distances of the map as a value. */
    function Graph(): Graph
      reads this, cities.Values
    {
      map n | n in cities :: cities[n].neighbours
    }

    /** Reads the roads of a map file (already split into lines) and creates each one. */
    constructor(roads: seq<Road>)
      ensures Valid() && Graph() == Build(roads)
      ensures forall n :: n in cities ==> fresh(cities[n])
    {
      cities := map[];
      new;
      var i := 0;
      while i < |roads|
        invariant i <= |roads|
        invariant Valid() && Graph() == Build(roads[..i])
        invariant forall n :: n in cities ==> fresh(cities[n])
      {
        BuildStep(roads, i);
        CreatePath(roads[i].first, roads[i].second, roads[i].distance);
        i := i + 1;
      }
      assert roads[..i] == roads;
    }

    /** Creates the two cities if they are missing, then makes each a neighbour of the other. */
    method CreatePath(first: string, second: string, distance: int)
      requires Valid()
      modifies this, cities.Values
      ensures Valid() && Graph() == Connect(old(Graph()), first, second, distance)
      ensures forall n :: n in old(cities) ==> n in cities && cities[n] == old(cities)[n]
      ensures forall n :: n in cities && n !in old(cities) ==> fresh(cities[n])
    {
      ghost var g := Graph();
      AddCity(first);
      AddCity(second);
      assert Graph() == WithCity(WithCity(g, first), second);
      Join(first, second, distance);
      ConnectKeepsRoads(g, first, second, distance);
    }

    /** Makes the two cities neighbours of each other, by the rules of City.AddNeighbour. */
    method Join(first: string, second: string, distance: int)
      requires Named() && first in cities && second in cities
      modifies cities[first], cities[second]
      ensures cities == old(cities) && Named()
      ensures Graph() == Link(Link(old(Graph()), first, second, distance), second, first, distance)
    {
      ghost var h := Graph();
      AddNeighbourOf(first, second, distance);
      ghost var h1 := Graph();
      assert h1 == Link(h, first, second, distance);
      AddNeighbourOf(second, first, distance);
    }

    /** Creates a city of that name unless the map has one. */
    method AddCity(name: string)
      requires Named()
      modifies this
      ensures Named() && Graph() == WithCity(old(Graph()), name)
      ensures forall n :: n in old(cities) ==> n in cities && cities[n] == old(cities)[n]
      ensures cities.Keys == old(cities.Keys) + {name}
      ensures forall n :: n in cities && n !in old(cities) ==> fresh(cities[n])
    {
      if name !in cities {
        ghost var g := Graph();
        var c := new City(name);
        cities := cities[name := c];
        assert Graph() == g[name := map[]];
      }
    }

    /** The city stored under key takes the one under other as a neighbour; no other city changes. */
    method AddNeighbourOf(key: string, other: string, distance: int)
      requires Named() && key in cities && other in cities
      modifies cities[key]
      ensures cities == old(cities)
      ensures Named() && Graph() == Link(old(Graph()), key, other, distance)
    {
      var c := cities[key];
      c.AddNeighbour(cities[other], distance);
      assert forall n :: n in cities && n != key ==> cities[n] != c;
    }

    /** The city of that name, or null when the map has none. */
    function GetCity(name: string): (c: City?)
      requires Valid()
      reads this, cities.Values
      ensures c == null <==> name !in cities
      ensures c != null ==> c.name == name && c in cities.Values
    {
      if name in cities then cities[name] else null
    }

    /** The sum of the distances along a path; 0 for fewer than two cities, -1 when two consecutive cities are not neighbours. */
    method FindDistanceOfPath(path: seq<string>) returns (d: int)
      requires Valid() && forall i :: 0 <= i < |path| ==> path[i] in cities
      ensures Walk(Graph(), path) ==> d == Length(Graph(), path) && d >= 0
      ensures !Walk(Graph(), path) ==> d == -1
    {
      if |path| == 0 {
        return 0;
      }
      var g := Graph();
      var distance := 0;
      var i := 0;
      while i < |path| - 1
        invariant i <= |path| - 1
        invariant Walk(g, path[..i + 1]) && distance == Length(g, path[..i + 1])
      {
        var increment := cities[path[i]].DistanceTo(cities[path[i + 1]]);
        if increment == -1 {
          assert g[path[i]] == cities[path[i]].neighbours && cities[path[i + 1]].name == path[i + 1];
          assert !Walk(g, path) by {
            assert !Adjacent(g, path[i], path[i + 1]);
          }
          return -1;
        }
        assert path[..i + 2][..i + 1] == path[..i + 1];
        distance := distance + increment;
        i := i + 1;
      }
      assert path[..i + 1] == path;
      LengthNonNegative(g, path);
      d := distance;
    }

    /** The shortest-path search between two cities of a map with a single component. */
    method FindShortestPath(begin: string, end: string) returns (path: seq<string>)
      requires Valid() && Connected(Graph()) && begin in cities && end in cities
      ensures |path| > 0 && path[0] == begin && path[|path| - 1] == end
      ensures Walk(Graph(), path)
      ensures forall i, j :: 0 <= i < j < |path| ==> path[i] != path[j]
      ensures Shortest(Graph(), begin, end, Length(Graph(), path))
      ensures begin == end ==> path == [begin]
    {
      path := ShortestPath(Graph(), begin, end);
    }
  }
}
