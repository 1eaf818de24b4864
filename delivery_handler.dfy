/**
 * The courier handler of the delivery service: the basic and first-class
 * couriers, the choice of the courier that has to travel least to take a
 * package on, the price of that distance, and the simulation of every
 * courier.
 */
module DeliveryHandler {
  import opened DeliveryGraph
  import opened DeliveryDijkstra
  import opened DeliveryCity
  import opened DeliveryMap
  import opened DeliveryPackage
  import opened DeliveryCourier

  datatype CourierType = BASIC | FIRST_CLASS

  /** The reasons the construction of a courier handler fails. */
  datatype HandlerError = StartingCityInvalid | CourierCountBelowOne

  datatype Result<T, E> = Success(value: T) | Failure(error: E)

  /** The statistics of the two types of courier: kilometres a day and euro-cents per kilometre. */
  const BASIC_DISTANCE_LIMIT := 150
  const BASIC_PRICE_PER_DISTANCE := 5
  const FIRST_CLASS_DISTANCE_LIMIT := 400
  const FIRST_CLASS_PRICE_PER_DISTANCE := 10

  /** Basic couriers are numbered from 1001, first-class couriers from 2001. */
  const BASIC_ID_OFFSET := 1000
  const FIRST_CLASS_ID_OFFSET := 2000

  /** The largest int, the distance the search for the best courier starts from. */
  const INT_MAX := 0x7fff_ffff

  /** The price of a kilometre for a type of courier. */
  function PricePerDistance(t: CourierType): (r: int)
    ensures r > 0 && (t == BASIC <==> r == BASIC_PRICE_PER_DISTANCE)
  {
    match t
    case BASIC => BASIC_PRICE_PER_DISTANCE
    case FIRST_CLASS => FIRST_CLASS_PRICE_PER_DISTANCE
  }

  /** The distance of a path as the map measures it: the length of a walk, -1 for anything else. */
  function PathDistance(g: Graph, p: seq<string>): (d: int)
    requires NonNegative(g)
    ensures d >= 0 <==> Walk(g, p)
    ensures d < 0 ==> d == -1
  {
    if Walk(g, p) then LengthNonNegative(g, p); Length(g, p) else -1
  }

  /**
   * route is what a courier standing in location with path would travel to
   * carry a package from source to destination: its path up to the first
   * destination after the first source when the path passes them in that
   * order, and otherwise the path the courier would plan for the package.
   */
  ghost predicate Candidate(roads: Graph, location: string, path: seq<string>, source: string, destination: string,
                            route: seq<string>)
  {
    Walk(roads, [location] + route) && InOrder([location] + route, source, destination)
    && (InOrder(path, source, destination) ==>
      0 < |route| <= |path| && route == path[..|route|] && !InOrder(route[..|route| - 1], source, destination))
    && (!InOrder(path, source, destination) ==> Plan(roads, location, path, source, destination, route))
  }

  /** A path that passes source and then destination up to some city passes them. */
  lemma InOrderPrefix(p: seq<string>, n: nat, source: string, destination: string)
    requires n <= |p| && InOrder(p[..n], source, destination)
    ensures InOrder(p, source, destination)
  {
    var i, j :| 0 <= i <= j < n && p[..n][i] == source && p[..n][j] == destination;
    assert p[i] == source && p[j] == destination;
  }

  /**
   * The cities of path copied one by one until destination is met after
   * source: the copy stops there, or takes the whole path when the path
   * does not pass them in that order.
   */
  method CopyUntilDelivered(path: seq<string>, source: string, destination: string)
    returns (route: seq<string>, sourceInPath: bool, destinationInPath: bool)
    ensures |route| <= |path| && route == path[..|route|]
    ensures sourceInPath <==> source in route
    ensures destinationInPath <==> InOrder(path, source, destination)
    ensures destinationInPath ==>
      route != [] && InOrder(route, source, destination) && !InOrder(route[..|route| - 1], source, destination)
    ensures !destinationInPath ==> route == path
  {
    sourceInPath, destinationInPath := false, false;
    route := [];
    var i := 0;
    while i < |path| && !destinationInPath
      invariant i <= |path| && route == path[..i]
      invariant sourceInPath <==> source in path[..i]
      invariant destinationInPath ==>
        i > 0 && InOrder(path[..i], source, destination) && !InOrder(path[..i - 1], source, destination)
      invariant !destinationInPath ==> !InOrder(path[..i], source, destination)
    {
      route := route + [path[i]];
      if path[i] == source {
        sourceInPath := true;
      }
      assert path[..i + 1][..i] == path[..i];
      if sourceInPath && path[i] == destination {
        Courier.ScanFound(path[..i + 1], i, source, destination);
        destinationInPath := true;
      } else {
        Courier.ScanPasses(path, i, source, destination);
      }
      i := i + 1;
    }
    if destinationInPath {
      InOrderPrefix(path, i, source, destination);
      assert route[..|route| - 1] == path[..i - 1];
    } else {
      assert path[..i] == path;
    }
  }

  /**
   * The route a courier would travel for the package: the cities of its
   * path are copied until destination is met after source; a path that
   * misses source is extended by a shortest walk to source, and a path
   * that then misses destination by a shortest walk on to destination.
   */
  method CandidateRoute(m: Map, ghost roads: Graph, location: string, path: seq<string>, source: string, destination: string)
    returns (route: seq<string>)
    requires m.Valid() && m.Graph() == roads && Connected(roads)
    requires location in roads && Walk(roads, [location] + path) && source in roads && destination in roads
    ensures Candidate(roads, location, path, source, destination, route)
  {
    var sourceInPath, destinationInPath;
    route, sourceInPath, destinationInPath := CopyUntilDelivered(path, source, destination);
    if destinationInPath {
      WalkPrefix(roads, [location] + path, |route| + 1);
      assert ([location] + path)[..|route| + 1] == [location] + route;
      InOrderFrom(location, route, source, destination);
      return;
    }
    if !sourceInPath {
      var middle := Courier.Extended(m, roads, location, route, source);
      route := Courier.Extended(m, roads, location, middle, destination);
      Courier.PlanTwoLegs(roads, location, path, source, destination, middle, route);
    } else {
      route := Courier.Extended(m, roads, location, route, destination);
      Courier.PlanOneLeg(roads, location, path, source, destination, route);
    }
  }

  /**
   * The candidates scanned in order, each route measured from the
   * candidate's own location: the index of the first candidate with the
   * least distance below INT_MAX, and that distance; (0, INT_MAX) when there
   * is none.
   */
  function Select(g: Graph, locations: seq<string>, routes: seq<seq<string>>): (r: (nat, int))
    requires NonNegative(g) && |locations| == |routes|
    ensures r.0 < |locations| || r.0 == 0
  {
    if locations == [] then (0, INT_MAX)
    else
      var n := |locations| - 1;
      var (best, bestDistance) := Select(g, locations[..n], routes[..n]);
      var d := PathDistance(g, [locations[n]] + routes[n]);
      if d < bestDistance then (n, d) else (best, bestDistance)
  }

  /**
   * The scan as CourierHandler::assignPackage writes it: every candidate's
   * route is measured from the location of the best courier found so far
   * (the first courier before any other is found), not from its own.
   */
  function SelectAsWritten(g: Graph, locations: seq<string>, routes: seq<seq<string>>): (r: (nat, int))
    requires NonNegative(g) && |locations| == |routes|
    ensures r.0 < |locations| || r.0 == 0
  {
    if locations == [] then (0, INT_MAX)
    else
      var n := |locations| - 1;
      var (best, bestDistance) := SelectAsWritten(g, locations[..n], routes[..n]);
      var d := PathDistance(g, [locations[best]] + routes[n]);
      if d < bestDistance then (n, d) else (best, bestDistance)
  }

  /** The distance of candidate i measured from its own location. */
  function Own(g: Graph, locations: seq<string>, routes: seq<seq<string>>, i: nat): int
    requires NonNegative(g) && i < |locations| == |routes|
  {
    PathDistance(g, [locations[i]] + routes[i])
  }

  /**
   * When every distance is below INT_MAX, Select picks a candidate with the
   * least distance, and every candidate scanned before it has a larger one.
   */
  lemma {:induction false} SelectLeast(g: Graph, locations: seq<string>, routes: seq<seq<string>>)
    requires NonNegative(g) && |locations| == |routes| && |locations| > 0
    requires forall i :: 0 <= i < |locations| ==> Own(g, locations, routes, i) < INT_MAX
    ensures var (best, d) := Select(g, locations, routes);
      best < |locations| && d == Own(g, locations, routes, best)
      && (forall i :: 0 <= i < |locations| ==> d <= Own(g, locations, routes, i))
      && (forall i :: 0 <= i < best ==> d < Own(g, locations, routes, i))
  {
    var n := |locations| - 1;
    var ls, rs := locations[..n], routes[..n];
    assert forall i :: 0 <= i < n ==> Own(g, ls, rs, i) == Own(g, locations, routes, i);
    if n > 0 {
      SelectLeast(g, ls, rs);
    }
  }

  /** When every candidate's route is a walk from its own location, the distance Select finds is not negative. */
  lemma {:induction false} SelectNonNegative(g: Graph, locations: seq<string>, routes: seq<seq<string>>)
    requires NonNegative(g) && |locations| == |routes|
    requires forall i :: 0 <= i < |locations| ==> Walk(g, [locations[i]] + routes[i])
    ensures Select(g, locations, routes).1 >= 0
  {
    if locations != [] {
      var n := |locations| - 1;
      assert forall i :: 0 <= i < n ==> locations[..n][i] == locations[i] && routes[..n][i] == routes[i];
      SelectNonNegative(g, locations[..n], routes[..n]);
    }
  }

  /** Four cities on a line, neighbours one kilometre apart: A - B - C - D. */
  function LineMap(): (g: Graph)
    ensures g.Keys == {"A", "B", "C", "D"}
    ensures g["A"] == map["B" := 1] && g["B"] == map["A" := 1, "C" := 1]
    ensures g["C"] == map["B" := 1, "D" := 1] && g["D"] == map["C" := 1]
  {
    map["A" := map["B" := 1], "B" := map["A" := 1, "C" := 1], "C" := map["B" := 1, "D" := 1], "D" := map["C" := 1]]
  }

  /** The roads of the line are well formed. */
  lemma LineMapRoads()
    ensures Roads(LineMap())
  {
    var g := LineMap();
    forall a, b | a in g && b in g[a]
      ensures b in g && a in g[b] && g[b][a] == g[a][b] && g[a][b] >= 0
    {
      if a == "A" {
        assert b == "B";
      } else if a == "B" {
        assert b == "A" || b == "C";
      } else if a == "C" {
        assert b == "B" || b == "D";
      } else {
        assert b == "C";
      }
    }
    forall a | a in g
      ensures a !in g[a]
    {
      if a == "A" {
      } else if a == "B" {
      } else if a == "C" {
      } else {
      }
    }
  }

  /** A piece of a walk is a walk. */
  lemma {:induction false} WalkSlice(g: Graph, p: seq<string>, i: nat, j: nat)
    requires Walk(g, p) && i <= j <= |p|
    ensures Walk(g, p[i..j])
  {
    WalkPrefix(g, p, j);
    WalkSuffix(g, p[..j], i);
    assert p[..j][i..] == p[i..j];
  }

  /** Along a walk that can also be taken backwards, each of its cities reaches each other one. */
  lemma {:induction false} ListedReachable(g: Graph, line: seq<string>, back: seq<string>, i: nat, j: nat)
    requires Walk(g, line) && Walk(g, back) && |back| == |line| && i < |line| && j < |line|
    requires forall k :: 0 <= k < |line| ==> back[k] == line[|line| - 1 - k]
    ensures Reachable(g, line[i], line[j])
  {
    var n := |line|;
    var p;
    if i <= j {
      WalkSlice(g, line, i, j + 1);
      p := line[i..j + 1];
    } else {
      WalkSlice(g, back, n - 1 - i, n - j);
      p := back[n - 1 - i..n - j];
      assert p[0] == back[n - 1 - i];
      assert p[|p| - 1] == back[n - 1 - j];
    }
    assert Walk(g, p) && |p| > 0 && p[0] == line[i] && p[|p| - 1] == line[j];
  }

  /** A graph with a walk through all its cities, and that walk backwards, has a single component. */
  lemma {:induction false} ListedConnected(g: Graph, line: seq<string>, back: seq<string>)
    requires Walk(g, line) && Walk(g, back) && |back| == |line|
    requires forall i :: 0 <= i < |line| ==> back[i] == line[|line| - 1 - i]
    requires forall a :: a in g ==> a in line
    ensures Connected(g)
  {
    forall a, b | a in g && b in g
      ensures Reachable(g, a, b)
    {
      var i :| 0 <= i < |line| && line[i] == a;
      var j :| 0 <= j < |line| && line[j] == b;
      ListedReachable(g, line, back, i, j);
    }
  }

  /** Every city of the line reaches every other. */
  lemma LineMapConnected()
    ensures Connected(LineMap())
  {
    var g := LineMap();
    var line := ["A", "B", "C", "D"];
    var back := ["D", "C", "B", "A"];
    assert Walk(g, line) by {
      assert Adjacent(g, "A", "B") && Adjacent(g, "B", "C") && Adjacent(g, "C", "D");
    }
    assert Walk(g, back) by {
      assert Adjacent(g, "D", "C") && Adjacent(g, "C", "B") && Adjacent(g, "B", "A");
    }
    assert forall a :: a in g ==> a in line by {
      assert line[0] == "A" && line[1] == "B" && line[2] == "C" && line[3] == "D";
    }
    ListedConnected(g, line, back);
  }

  /**
   * Couriers in A (scanned first) and in D of the line, a package from B
   * to C: whatever walks they would take (the courier in D has to reach B,
   * so its walk is not empty), the route of the courier in D
   * measured from A is no walk, so the scan as written picks that courier
   * at distance -1 and quotes a negative price, while measured from their
   * own locations the least distance is not negative.
   */
  lemma SelectAsWrittenNegative(r0: seq<string>, r1: seq<string>)
    requires Walk(LineMap(), ["A"] + r0) && Walk(LineMap(), ["D"] + r1) && InOrder(["D"] + r1, "B", "C")
    ensures SelectAsWritten(LineMap(), ["A", "D"], [r0, r1]) == (1, -1)
    ensures -1 * PricePerDistance(BASIC) == -5
    ensures Select(LineMap(), ["A", "D"], [r0, r1]).1 >= 0
  {
    var g := LineMap();
    var locations, routes := ["A", "D"], [r0, r1];
    assert locations[..1] == ["A"] && routes[..1] == [r0];
    assert SelectAsWritten(g, [], []) == (0, INT_MAX);
    assert ["A"][..0] == [] && [r0][..0] == [];
    var first := SelectAsWritten(g, ["A"], [r0]);
    assert first.0 == 0 && first.1 >= 0;
    assert r1 != [] by {
      var i, j :| 0 <= i <= j < |["D"] + r1| && (["D"] + r1)[i] == "B" && (["D"] + r1)[j] == "C";
    }
    assert Adjacent(g, (["D"] + r1)[0], (["D"] + r1)[1]);
    assert r1[0] == "C";
    assert !Walk(g, ["A"] + r1) by {
      assert !Adjacent(g, (["A"] + r1)[0], (["A"] + r1)[1]);
    }
    SelectNonNegative(g, locations, routes);
  }

  /** order lists every key of the couriers exactly once: one iteration order of the unordered map. */
  predicate Listing(order: seq<int>, keys: set<int>)
  {
    (forall i, j :: 0 <= i < j < |order| ==> order[i] != order[j])
    && (forall i :: 0 <= i < |order| ==> order[i] in keys)
    && (forall k :: k in keys ==> k in order)
  }

  /** The couriers in the order of the listing. */
  function Listed(couriers: map<int, Courier>, order: seq<int>): (cs: seq<Courier>)
    requires forall i :: 0 <= i < |order| ==> order[i] in couriers
    ensures |cs| == |order| && forall i :: 0 <= i < |order| ==> cs[i] == couriers[order[i]]
  {
    seq(|order|, i requires 0 <= i < |order| => couriers[order[i]])
  }

  /** The cities the couriers stand in. */
  function Locations(cs: seq<Courier>): (ls: seq<string>)
    reads cs
    ensures |ls| == |cs| && forall i :: 0 <= i < |cs| ==> ls[i] == cs[i].location
  {
    seq(|cs|, i requires 0 <= i < |cs| reads cs => cs[i].location)
  }

  /** A courier of the handler: stored under its id, on the handler's map, on the handler's day. */
  ghost predicate Fits(c: Courier, id: int, cityMap: Map, roads: Graph, day: int)
    reads c
  {
    c.id == id && c.cityMap == cityMap && c.roads == roads && c.day == day && c.Valid()
  }

  /** A non-empty group of couriers, listed in some order, each fitting the handler. */
  ghost predicate Fleet(couriers: map<int, Courier>, order: seq<int>, cityMap: Map, roads: Graph, day: int)
    reads couriers.Values
  {
    Listing(order, couriers.Keys) && |order| > 0
    && forall k :: k in couriers ==> Fits(couriers[k], k, cityMap, roads, day)
  }

  /** The ids generated for count couriers after offset: offset + 1 up to offset + count. */
  ghost predicate IdRange(ids: set<int>, offset: int, count: int)
  {
    forall k :: k in ids <==> offset < k <= offset + count
  }

  /** The packages of every courier of a group. */
  ghost function Parcels(couriers: map<int, Courier>): set<Package>
    reads couriers.Values
  {
    set c, p | c in couriers.Values && p in c.parcels :: p
  }

  /** routes[i] is a candidate route of the courier in locations[i] with paths[i], for every i. */
  ghost predicate Candidates(roads: Graph, locations: seq<string>, paths: seq<seq<string>>, source: string,
                             destination: string, routes: seq<seq<string>>)
    requires |locations| == |paths|
  {
    |routes| == |locations|
    && (locations != [] ==>
      var n := |locations| - 1;
      Candidates(roads, locations[..n], paths[..n], source, destination, routes[..n])
      && Candidate(roads, locations[n], paths[n], source, destination, routes[n]))
  }

  /** Each route of a list of candidates is a candidate route of its courier. */
  lemma {:induction false} CandidatesAt(roads: Graph, locations: seq<string>, paths: seq<seq<string>>, source: string,
                                        destination: string, routes: seq<seq<string>>, i: nat)
    requires |locations| == |paths| && Candidates(roads, locations, paths, source, destination, routes)
    requires i < |locations|
    ensures Candidate(roads, locations[i], paths[i], source, destination, routes[i])
  {
    var n := |locations| - 1;
    if i < n {
      CandidatesAt(roads, locations[..n], paths[..n], source, destination, routes[..n], i);
    }
  }

  /** The paths of the couriers. */
  function Paths(cs: seq<Courier>): (ps: seq<seq<string>>)
    reads cs
    ensures |ps| == |cs| && forall i :: 0 <= i < |cs| ==> ps[i] == cs[i].path
  {
    seq(|cs|, i requires 0 <= i < |cs| reads cs => cs[i].path)
  }

  /**
   * Every courier, given by its location and its path in the order of the
   * listing, computes its candidate route and the distance of that route:
   * the first courier with the least distance below INT_MAX, and that
   * distance (the first courier and INT_MAX when there is none).
   */
  method Choose(m: Map, ghost roads: Graph, locations: seq<string>, paths: seq<seq<string>>, source: string,
                destination: string)
    returns (best: nat, bestDistance: int, ghost routes: seq<seq<string>>)
    requires m.Valid() && m.Graph() == roads && Connected(roads) && source in roads && destination in roads
    requires |locations| == |paths|
    requires forall i :: 0 <= i < |locations| ==> locations[i] in roads && Walk(roads, [locations[i]] + paths[i])
    ensures Candidates(roads, locations, paths, source, destination, routes)
    ensures (best, bestDistance) == Select(roads, locations, routes)
  {
    best, bestDistance, routes := 0, INT_MAX, [];
    var i := 0;
    while i < |locations|
      invariant i <= |locations|
      invariant Candidates(roads, locations[..i], paths[..i], source, destination, routes)
      invariant (best, bestDistance) == Select(roads, locations[..i], routes)
    {
      best, bestDistance, routes := Consider(m, roads, locations, paths, i, source, destination, best, bestDistance,
                                             routes);
      i := i + 1;
    }
    assert locations[..i] == locations && paths[..i] == paths;
  }

  /** One step of Choose: the candidate route of courier i and the best courier after it. */
  method Consider(m: Map, ghost roads: Graph, locations: seq<string>, paths: seq<seq<string>>, i: nat, source: string,
                  destination: string, best: nat, bestDistance: int, ghost routes: seq<seq<string>>)
    returns (best': nat, bestDistance': int, ghost routes': seq<seq<string>>)
    requires m.Valid() && m.Graph() == roads && Connected(roads) && source in roads && destination in roads
    requires i < |locations| == |paths| && locations[i] in roads && Walk(roads, [locations[i]] + paths[i])
    requires Candidates(roads, locations[..i], paths[..i], source, destination, routes)
    requires (best, bestDistance) == Select(roads, locations[..i], routes)
    ensures Candidates(roads, locations[..i + 1], paths[..i + 1], source, destination, routes')
    ensures (best', bestDistance') == Select(roads, locations[..i + 1], routes')
  {
    var route := CandidateRoute(m, roads, locations[i], paths[i], source, destination);
    var distance := Measure(m, roads, locations[i], route);
    CandidatesExtend(roads, locations, paths, i, source, destination, routes, route);
    SelectExtend(roads, locations, i, routes, route);
    best', bestDistance' := best, bestDistance;
    if distance < bestDistance {
      best', bestDistance' := i, distance;
    }
    routes' := routes + [route];
  }

  /** A candidate route of one more courier extends a list of candidates. */
  lemma CandidatesExtend(roads: Graph, locations: seq<string>, paths: seq<seq<string>>, i: nat, source: string,
                         destination: string, routes: seq<seq<string>>, route: seq<string>)
    requires i < |locations| == |paths| && Candidates(roads, locations[..i], paths[..i], source, destination, routes)
    requires Candidate(roads, locations[i], paths[i], source, destination, route)
    ensures Candidates(roads, locations[..i + 1], paths[..i + 1], source, destination, routes + [route])
  {
    assert locations[..i + 1][..i] == locations[..i] && paths[..i + 1][..i] == paths[..i];
    assert (routes + [route])[..i] == routes;
  }

  /** Select over one more courier compares its distance with the best one so far. */
  lemma SelectExtend(roads: Graph, locations: seq<string>, i: nat, routes: seq<seq<string>>, route: seq<string>)
    requires NonNegative(roads) && i < |locations| && |routes| == i
    ensures var (best, bestDistance) := Select(roads, locations[..i], routes);
      var d := PathDistance(roads, [locations[i]] + route);
      Select(roads, locations[..i + 1], routes + [route]) == if d < bestDistance then (i, d) else (best, bestDistance)
  {
    assert locations[..i + 1][..i] == locations[..i];
    assert (routes + [route])[..i] == routes;
  }

  /** The distance of a route from location, as the map measures it. */
  method Measure(m: Map, ghost roads: Graph, location: string, route: seq<string>) returns (distance: int)
    requires m.Valid() && m.Graph() == roads && location in roads && Walk(roads, [location] + route)
    ensures distance == PathDistance(roads, [location] + route)
  {
    WalkInGraph(roads, [location] + route);
    assert m.Graph().Keys == m.cities.Keys;
    distance := m.FindDistanceOfPath([location] + route);
  }

  /** Every courier of a group has its own packages among those of the group. */
  lemma ParcelsCover(couriers: map<int, Courier>)
    ensures forall k :: k in couriers ==> couriers[k].parcels <= Parcels(couriers)
  {
  }

  /**
   * The couriers listed before position i have reached day after, the
   * others are still on day, with their packages among parcels.
   */
  ghost predicate ShiftedUpTo(couriers: map<int, Courier>, order: seq<int>, i: nat, cityMap: Map, roads: Graph,
                              day: int, after: int, parcels: set<Package>)
    reads couriers.Values
  {
    (forall j :: 0 <= j < |order| ==> order[j] in couriers)
    && (forall j :: 0 <= j < i && j < |order| ==> Fits(couriers[order[j]], order[j], cityMap, roads, after))
    && (forall j :: i <= j < |order| ==>
          Fits(couriers[order[j]], order[j], cityMap, roads, day) && couriers[order[j]].parcels <= parcels)
  }

  /**
   * Simulates the n days (days, or none when it is not positive) for the
   * courier listed at position i, after the couriers before it: that courier
   * ends on the trip n days of its trip give and reports the changes of those
   * days, and no other courier of the group changes its trip.
   */
  method ShiftNext(couriers: map<int, Courier>, order: seq<int>, i: nat, days: int, ghost n: nat, ghost cityMap: Map,
                   ghost roads: Graph, ghost day: int, ghost parcels: set<Package>)
    returns (more: seq<Change>)
    requires n == Elapsed(days)
    requires cityMap.Valid() && Connected(roads) && cityMap.Graph() == roads && i < |order|
    requires forall j, k :: 0 <= j < k < |order| ==> order[j] != order[k]
    requires ShiftedUpTo(couriers, order, i, cityMap, roads, day, day + n, parcels)
    modifies couriers[order[i]], couriers[order[i]].parcels
    ensures cityMap.Valid() && cityMap.Graph() == roads
    ensures ShiftedUpTo(couriers, order, i + 1, cityMap, roads, day, day + n, parcels)
    ensures (couriers[order[i]].Snapshot(), more)
      == Days(roads, couriers[order[i]].distanceLimit, old(couriers[order[i]].Snapshot()), n)
    ensures forall j :: 0 <= j < |order| && j != i ==> couriers[order[j]].Snapshot() == old(couriers[order[j]].Snapshot())
    ensures DatedIn(more, day, day + n)
  {
    var c := couriers[order[i]];
    assert forall j :: 0 <= j < |order| && j != i ==> couriers[order[j]] != c by {
      assert forall j :: 0 <= j < |order| ==> couriers[order[j]].id == order[j];
    }
    ghost var run;
    label Before:
    more, run := ShiftOne(c, order[i], days, n, cityMap, roads, day);
    assert forall j :: 0 <= j < |order| && j != i ==> unchanged@Before(couriers[order[j]]);
  }

  /**
   * One courier of the handler simulates the n days: it reaches day + n, it
   * lives a run of n days from its trip, and its new trip and the changes it
   * reports are those that n days of its trip give; its packages are where
   * those days take them.
   */
  method ShiftOne(c: Courier, id: int, days: int, ghost n: nat, ghost cityMap: Map, ghost roads: Graph, ghost day: int)
    returns (more: seq<Change>, ghost run: Run)
    requires n == Elapsed(days)
    requires cityMap.Valid() && Connected(roads) && cityMap.Graph() == roads && Fits(c, id, cityMap, roads, day)
    modifies c, c.parcels
    ensures cityMap.Valid() && cityMap.Graph() == roads
    ensures Fits(c, id, cityMap, roads, day + n) && c.parcels == old(c.parcels)
    ensures Lived(roads, c.distanceLimit, old(c.Snapshot()), n, run, more)
    ensures (c.Snapshot(), more) == Days(roads, c.distanceLimit, old(c.Snapshot()), n) && DatedIn(more, day, day + n)
    ensures SpotsOf(c.parcels) == DaysSpots(roads, c.distanceLimit, old(c.Snapshot()), old(SpotsOf(c.parcels)), n)
  {
    more, run := c.ShiftTime(days);
    HistoryDays(roads, c.distanceLimit, run);
  }

  /**
   * The first i couriers of a group have reported, and the others are still
   * on their trips before; once the courier at position i has lived the n
   * days from its trip and no other courier's trip changed, the first i + 1
   * have reported.
   */
  lemma ReportsNext(roads: Graph, limits: seq<int>, earlier: seq<Trip>, now: seq<Trip>, before: seq<Trip>, n: nat,
                    i: nat, records: seq<seq<Change>>, more: seq<Change>)
    requires |limits| == |before| == |earlier| == |now| && i < |now|
    requires (earlier[..i], records) == Reports(roads, limits[..i], before[..i], n) && earlier[i..] == before[i..]
    requires (now[i], more) == Days(roads, limits[i], earlier[i], n)
    requires forall j :: 0 <= j < |now| && j != i ==> now[j] == earlier[j]
    ensures (now[..i + 1], records + [more]) == Reports(roads, limits[..i + 1], before[..i + 1], n)
    ensures now[i + 1..] == before[i + 1..]
  {
    NextPrefix(earlier, now, before, i);
    var shorter, from := limits[..i + 1], before[..i + 1];
    assert shorter[..i] == limits[..i] && from[..i] == before[..i] && shorter[i] == limits[i] && from[i] == before[i];
    ReportsLast(roads, shorter, from, n);
  }

  /** The trips now differ from the trips earlier only at i, and those from i on were still the trips before. */
  lemma NextPrefix(earlier: seq<Trip>, now: seq<Trip>, before: seq<Trip>, i: nat)
    requires |before| == |earlier| == |now| && i < |now| && earlier[i..] == before[i..]
    requires forall j :: 0 <= j < |now| && j != i ==> now[j] == earlier[j]
    ensures earlier[i] == before[i] && now[..i + 1] == earlier[..i] + [now[i]] && now[i + 1..] == before[i + 1..]
  {
    assert earlier[i] == earlier[i..][0];
    assert now[i + 1..] == earlier[i + 1..] == earlier[i..][1..];
  }

  /** The reports of a group are those of all its couriers but the last, then the last one's. */
  lemma ReportsLast(roads: Graph, limits: seq<int>, trips: seq<Trip>, n: nat)
    requires |limits| == |trips| > 0
    ensures var k := |trips| - 1;
      var earlier, last := Reports(roads, limits[..k], trips[..k], n), Days(roads, limits[k], trips[k], n);
      Reports(roads, limits, trips, n) == (earlier.0 + [last.0], earlier.1 + [last.1])
  {
  }

  /**
   * Simulates the n days (days, or none when it is not positive) for every
   * courier of a group, in the order of the listing: each courier ends on
   * the trip n days of its trip give, and the changes are those each courier
   * reports for those days, one courier after the other.
   */
  method ShiftAll(couriers: map<int, Courier>, order: seq<int>, days: int, ghost n: nat, ghost cityMap: Map,
                  ghost roads: Graph, ghost day: int)
    returns (changes: seq<Change>, ghost records: seq<seq<Change>>)
    requires n == Elapsed(days)
    requires cityMap.Valid() && Connected(roads) && cityMap.Graph() == roads
    requires Fleet(couriers, order, cityMap, roads, day)
    modifies couriers.Values, Parcels(couriers)
    ensures cityMap.Valid() && cityMap.Graph() == roads && Fleet(couriers, order, cityMap, roads, day + n)
    ensures changes == Flatten(records)
    ensures (Trips(couriers, order), records) == Reports(roads, Limits(couriers, order), old(Trips(couriers, order)), n)
    ensures DatedIn(changes, day, day + n)
  {
    ghost var parcels := Parcels(couriers);
    ghost var before := Trips(couriers, order);
    ShiftedStart(couriers, order, cityMap, roads, day, day + n);
    ghost var now;
    changes, records, now := ShiftEach(couriers, order, days, n, cityMap, roads, day, parcels, before);
    Whole(now);
    Whole(Limits(couriers, order));
    Whole(before);
    ShiftedEnd(couriers, order, cityMap, roads, day, day + n, parcels);
  }

  /**
   * ShiftAll for one group of couriers while another group, with no courier
   * in common, waits: the waiting couriers keep their trips and parcels and
   * stay on their own day.
   */
  method ShiftBeside(couriers: map<int, Courier>, order: seq<int>, others: map<int, Courier>, otherOrder: seq<int>,
                     days: int, ghost n: nat, ghost cityMap: Map, ghost roads: Graph, ghost day: int,
                     ghost otherDay: int)
    returns (changes: seq<Change>, ghost records: seq<seq<Change>>)
    requires n == Elapsed(days)
    requires cityMap.Valid() && Connected(roads) && cityMap.Graph() == roads
    requires Fleet(couriers, order, cityMap, roads, day) && Fleet(others, otherOrder, cityMap, roads, otherDay)
    requires couriers.Values !! others.Values
    modifies couriers.Values, Parcels(couriers)
    ensures cityMap.Valid() && cityMap.Graph() == roads
    ensures Fleet(couriers, order, cityMap, roads, day + n) && Fleet(others, otherOrder, cityMap, roads, otherDay)
    ensures couriers.Values !! others.Values
    ensures changes == Flatten(records)
    ensures (Trips(couriers, order), records) == Reports(roads, Limits(couriers, order), old(Trips(couriers, order)), n)
    ensures Trips(others, otherOrder) == old(Trips(others, otherOrder)) && Parcels(others) == old(Parcels(others))
    ensures DatedIn(changes, day, day + n)
  {
    label Start:
    changes, records := ShiftAll(couriers, order, days, n, cityMap, roads, day);
    assert unchanged@Start(others.Values);
  }

  /**
   * The couriers of a group, listed in order and all still on day, simulate
   * the n days one after the other: each ends on the trip n days of its trip
   * give, and the changes are those each reports, one courier after the
   * other.
   */
  method ShiftEach(couriers: map<int, Courier>, order: seq<int>, days: int, ghost n: nat, ghost cityMap: Map,
                   ghost roads: Graph, ghost day: int, ghost parcels: set<Package>, ghost before: seq<Trip>)
    returns (changes: seq<Change>, ghost records: seq<seq<Change>>, ghost now: seq<Trip>)
    requires n == Elapsed(days)
    requires cityMap.Valid() && Connected(roads) && cityMap.Graph() == roads
    requires forall j, k :: 0 <= j < k < |order| ==> order[j] != order[k]
    requires ShiftedUpTo(couriers, order, 0, cityMap, roads, day, day + n, parcels) && before == Trips(couriers, order)
    modifies couriers.Values, parcels
    ensures cityMap.Valid() && cityMap.Graph() == roads
    ensures ShiftedUpTo(couriers, order, |order|, cityMap, roads, day, day + n, parcels) && now == Trips(couriers, order)
    ensures (now[..|order|], records) == Reports(roads, Limits(couriers, order)[..|order|], before[..|order|], n)
    ensures changes == Flatten(records) && DatedIn(changes, day, day + n)
  {
    ghost var limits := Limits(couriers, order);
    now := before;
    changes, records := [], [];
    var i := 0;
    while i < |order|
      invariant i <= |order| && cityMap.Valid() && cityMap.Graph() == roads
      invariant ShiftedUpTo(couriers, order, i, cityMap, roads, day, day + n, parcels)
      invariant now == Trips(couriers, order)
      invariant (now[..i], records) == Reports(roads, limits[..i], before[..i], n) && now[i..] == before[i..]
      invariant changes == Flatten(records) && DatedIn(changes, day, day + n)
    {
      ghost var earlier := now;
      var more := ShiftNext(couriers, order, i, days, n, cityMap, roads, day, parcels);
      now := Trips(couriers, order);
      ReportsNext(roads, limits, earlier, now, before, n, i, records, more);
      FlattenNext(records, more);
      DatedJoin(changes, more, day, day + n);
      changes, records := changes + more, records + [more];
      i := i + 1;
    }
  }

  /** A sequence taken up to its length is the whole sequence. */
  lemma Whole<T>(s: seq<T>)
    ensures s[..|s|] == s
  {
  }

  /** The trip of each courier of a group, in the order of the listing. */
  ghost function Trips(couriers: map<int, Courier>, order: seq<int>): (ts: seq<Trip>)
    requires forall j :: 0 <= j < |order| ==> order[j] in couriers
    reads couriers.Values
    ensures |ts| == |order| && forall j :: 0 <= j < |order| ==> ts[j] == couriers[order[j]].Snapshot()
  {
    seq(|order|, j requires 0 <= j < |order| reads couriers.Values => couriers[order[j]].Snapshot())
  }

  /** The distance limit of each courier of a group, in the order of the listing. */
  function Limits(couriers: map<int, Courier>, order: seq<int>): (ls: seq<int>)
    requires forall j :: 0 <= j < |order| ==> order[j] in couriers
    ensures |ls| == |order| && forall j :: 0 <= j < |order| ==> ls[j] == couriers[order[j]].distanceLimit
  {
    seq(|order|, j requires 0 <= j < |order| => couriers[order[j]].distanceLimit)
  }

  /**
   * What n simulated days of each trip give, with the distance limit at the
   * same position: the trips they end on, and the changes each reports.
   */
  ghost function Reports(roads: Graph, limits: seq<int>, trips: seq<Trip>, n: nat): (r: (seq<Trip>, seq<seq<Change>>))
    requires |limits| == |trips|
    ensures |r.0| == |trips| && |r.1| == |trips|
    decreases |trips|
  {
    if trips == [] then ([], [])
    else
      var k := |trips| - 1;
      var earlier := Reports(roads, limits[..k], trips[..k], n);
      var last := Days(roads, limits[k], trips[k], n);
      (earlier.0 + [last.0], earlier.1 + [last.1])
  }

  /** Each courier of the group ends on the trip n days of its own trip give, and reports the changes of those days. */
  lemma {:induction false} ReportsMeaning(roads: Graph, limits: seq<int>, trips: seq<Trip>, n: nat)
    requires |limits| == |trips|
    ensures var r := Reports(roads, limits, trips, n);
      forall j :: 0 <= j < |trips| ==> (r.0[j], r.1[j]) == Days(roads, limits[j], trips[j], n)
    decreases |trips|
  {
    if trips != [] {
      var k := |trips| - 1;
      ReportsMeaning(roads, limits[..k], trips[..k], n);
      ReportsLast(roads, limits, trips, n);
      var r, earlier := Reports(roads, limits, trips, n), Reports(roads, limits[..k], trips[..k], n);
      forall j | 0 <= j < |trips|
        ensures (r.0[j], r.1[j]) == Days(roads, limits[j], trips[j], n)
      {
        if j < k {
          assert r.0[j] == earlier.0[j] && r.1[j] == earlier.1[j];
          assert limits[..k][j] == limits[j] && trips[..k][j] == trips[j];
        }
      }
    }
  }

  /**
   * n simulated days took the basic couriers, with the distance limits
   * basicLimits, from the trips basicBefore to basicAfter, and the
   * first-class couriers from firstClassBefore to firstClassAfter; the
   * changes are what every basic courier and then every first-class courier
   * reported for those days, in the order of the listing.
   */
  ghost predicate Reported(roads: Graph, n: nat, basicLimits: seq<int>, firstClassLimits: seq<int>,
                           basicBefore: seq<Trip>, firstClassBefore: seq<Trip>,
                           basicAfter: seq<Trip>, firstClassAfter: seq<Trip>, changes: seq<Change>,
                           basicRecords: seq<seq<Change>>, firstClassRecords: seq<seq<Change>>)
  {
    changes == Flatten(basicRecords) + Flatten(firstClassRecords)
    && |basicBefore| == |basicLimits| && |firstClassBefore| == |firstClassLimits|
    && (basicAfter, basicRecords) == Reports(roads, basicLimits, basicBefore, n)
    && (firstClassAfter, firstClassRecords) == Reports(roads, firstClassLimits, firstClassBefore, n)
  }

  /** Before the first courier is simulated, every courier is still on day. */
  lemma ShiftedStart(couriers: map<int, Courier>, order: seq<int>, cityMap: Map, roads: Graph, day: int, after: int)
    requires Fleet(couriers, order, cityMap, roads, day)
    ensures ShiftedUpTo(couriers, order, 0, cityMap, roads, day, after, Parcels(couriers))
  {
    ParcelsCover(couriers);
  }

  /** Once every courier listed has been simulated, the group has reached day after. */
  lemma ShiftedEnd(couriers: map<int, Courier>, order: seq<int>, cityMap: Map, roads: Graph, day: int, after: int,
                   parcels: set<Package>)
    requires Listing(order, couriers.Keys) && |order| > 0
    requires ShiftedUpTo(couriers, order, |order|, cityMap, roads, day, after, parcels)
    ensures Fleet(couriers, order, cityMap, roads, after)
  {
    forall k | k in couriers
      ensures Fits(couriers[k], k, cityMap, roads, after)
    {
      var j :| 0 <= j < |order| && order[j] == k;
    }
  }

  /** Every courier of a group stands in a city of the map and has a walk from there as its path. */
  lemma FleetWalks(couriers: map<int, Courier>, order: seq<int>, cityMap: Map, roads: Graph, day: int)
    requires Fleet(couriers, order, cityMap, roads, day)
    ensures var cs := Listed(couriers, order);
      forall i :: 0 <= i < |cs| ==> cs[i].location in roads && Walk(roads, [cs[i].location] + cs[i].path)
  {
    var cs := Listed(couriers, order);
    forall i | 0 <= i < |cs|
      ensures cs[i].location in roads && Walk(roads, [cs[i].location] + cs[i].path)
    {
      assert Fits(couriers[order[i]], order[i], cityMap, roads, day);
    }
  }

  /** locations and paths are those of the couriers of a group, in the order of the listing. */
  ghost predicate Scanned(couriers: map<int, Courier>, order: seq<int>, locations: seq<string>,
                          paths: seq<seq<string>>)
    reads couriers.Values
  {
    |locations| == |order| == |paths|
    && forall i :: 0 <= i < |order| ==>
      order[i] in couriers && locations[i] == couriers[order[i]].location && paths[i] == couriers[order[i]].path
  }

  /**
   * routes are the candidate routes of the couriers in locations with
   * paths, and best is the first of them with the least distance below
   * INT_MAX, which is bestDistance.
   */
  ghost predicate Cheapest(roads: Graph, locations: seq<string>, paths: seq<seq<string>>, source: string,
                           destination: string, routes: seq<seq<string>>, best: nat, bestDistance: int)
  {
    |locations| == |paths| && NonNegative(roads)
    && Candidates(roads, locations, paths, source, destination, routes)
    && (best, bestDistance) == Select(roads, locations, routes)
  }

  /**
   * The courier of a group chosen for a package: the first courier, in the
   * order of the listing, whose candidate route is the shortest; it is
   * asked to deliver the package.
   */
  method AssignInGroup(couriers: map<int, Courier>, order: seq<int>, package: Package, source: string,
                       destination: string, cityMap: Map, ghost roads: Graph, ghost day: int)
    returns (best: nat, bestDistance: int, ghost locations: seq<string>, ghost paths: seq<seq<string>>,
             ghost routes: seq<seq<string>>)
    requires cityMap.Valid() && Connected(roads) && cityMap.Graph() == roads && source in roads && destination in roads
    requires Fleet(couriers, order, cityMap, roads, day)
    modifies couriers.Values
    ensures Fleet(couriers, order, cityMap, roads, day)
    ensures old(Scanned(couriers, order, locations, paths))
    ensures Cheapest(roads, locations, paths, source, destination, routes, best, bestDistance)
    ensures best < |order| && Delivering(couriers[order[best]], package, source, destination)
    ensures forall k :: k in couriers && k != order[best] ==> unchanged(couriers[k])
  {
    var cs := Listed(couriers, order);
    FleetWalks(couriers, order, cityMap, roads, day);
    locations, paths := Locations(cs), Paths(cs);
    best, bestDistance, routes := Choose(cityMap, roads, Locations(cs), Paths(cs), source, destination);
    EngageListed(couriers, order, best, package, source, destination, cityMap, roads, day);
  }

  /** The courier listed at best in a group is asked to deliver the package; the group still fits. */
  method EngageListed(couriers: map<int, Courier>, order: seq<int>, best: nat, package: Package, source: string,
                      destination: string, ghost cityMap: Map, ghost roads: Graph, ghost day: int)
    requires cityMap.Valid() && Connected(roads) && cityMap.Graph() == roads && source in roads && destination in roads
    requires Fleet(couriers, order, cityMap, roads, day) && best < |order|
    modifies couriers.Values
    ensures Fleet(couriers, order, cityMap, roads, day)
    ensures Delivering(couriers[order[best]], package, source, destination)
    ensures forall k :: k in couriers && k != order[best] ==> unchanged(couriers[k])
  {
    var c := couriers[order[best]];
    assert Fits(c, order[best], cityMap, roads, day);
    Engage(c, package, source, destination);
    assert Fits(c, order[best], cityMap, roads, day);
  }

  /** The courier has been asked to deliver the package, and nothing else changed. */
  twostate predicate Delivering(c: Courier, new package: Package, source: string, destination: string)
    reads c
  {
    c.Valid() && c.day == old(c.day)
    && c.toPickUp == Register(old(c.toPickUp), source, package)
    && c.toDeliver == Register(old(c.toDeliver), destination, package)
    && c.parcels == old(c.parcels) + {package}
    && c.location == old(c.location) && c.inDelivery == old(c.inDelivery)
    && Plan(c.roads, c.location, old(c.path), source, destination, c.path)
  }

  /** Asks the courier to deliver the package. */
  method Engage(c: Courier, package: Package, source: string, destination: string)
    requires c.MapValid() && c.Valid() && source in c.roads && destination in c.roads
    modifies c
    ensures Delivering(c, package, source, destination)
  {
    c.Deliver(package, source, destination);
  }

  /** A courier just created by the handler: in startingLocation, with nothing to do. */
  ghost predicate Hired(c: Courier, id: int, startingLocation: string, cityMap: Map, roads: Graph, distanceLimit: int)
    reads c
  {
    Fits(c, id, cityMap, roads, 0) && c.location == startingLocation && c.path == []
    && c.distanceLimit == distanceLimit && c.parcels == {}
  }

  /** Consecutive ids after offset, in increasing order, list the ids generated for that many couriers. */
  lemma IdsListed(offset: int, order: seq<int>)
    requires forall i :: 0 <= i < |order| ==> order[i] == offset + i + 1
    ensures forall ids :: IdRange(ids, offset, |order|) ==> Listing(order, ids)
  {
    forall ids | IdRange(ids, offset, |order|)
      ensures Listing(order, ids)
    {
      assert forall k :: k in ids ==> order[k - offset - 1] == k;
    }
  }

  /** Creates the courier with the next id and stores it under that id. */
  method Enrol(couriers: map<int, Courier>, id: int, startingLocation: string, cityMap: Map, ghost roads: Graph,
               distanceLimit: int)
    returns (r: map<int, Courier>)
    requires cityMap.Valid() && cityMap.Graph() == roads && Connected(roads) && startingLocation in cityMap.cities
    ensures id in r && r == couriers[id := r[id]] && fresh(r[id])
    ensures Hired(r[id], id, startingLocation, cityMap, roads, distanceLimit)
  {
    var c := new Courier(id, startingLocation, cityMap, distanceLimit);
    r := couriers[id := c];
  }

  /**
   * Creates count couriers in startingLocation, numbered offset + 1,
   * offset + 2, and so on, keyed by their ids.
   */
  method Hire(count: int, offset: int, startingLocation: string, cityMap: Map, distanceLimit: int)
    returns (couriers: map<int, Courier>, order: seq<int>)
    requires cityMap.Valid() && Connected(cityMap.Graph()) && startingLocation in cityMap.cities && count >= 1
    ensures IdRange(couriers.Keys, offset, count) && Fleet(couriers, order, cityMap, cityMap.Graph(), 0)
    ensures forall k :: k in couriers ==> fresh(couriers[k])
    ensures forall k :: k in couriers ==> Hired(couriers[k], k, startingLocation, cityMap, cityMap.Graph(), distanceLimit)
  {
    ghost var roads := cityMap.Graph();
    couriers := map[];
    var nextId := 1;
    while nextId <= count
      invariant 1 <= nextId <= count + 1
      invariant IdRange(couriers.Keys, offset, nextId - 1)
      invariant forall k :: k in couriers ==> fresh(couriers[k])
      invariant forall k :: k in couriers ==> Hired(couriers[k], k, startingLocation, cityMap, roads, distanceLimit)
    {
      couriers := Enrol(couriers, offset + nextId, startingLocation, cityMap, roads, distanceLimit);
      nextId := nextId + 1;
    }
    order := seq(count, i => offset + i + 1);
    IdsListed(offset, order);
  }

  /**
   * The couriers of a new handler: basic couriers 1001 up to 1000 +
   * numberOfBasicCouriers, first-class couriers 2001 up to 2000 +
   * numberOfFirstClassCouriers, all just created in startingLocation with
   * the distance limit of their type.
   */
  ghost predicate Staffed(basic: map<int, Courier>, firstClass: map<int, Courier>, startingLocation: string,
                          cityMap: Map, roads: Graph, numberOfBasicCouriers: int, numberOfFirstClassCouriers: int,
                          distanceLimitBasicCourier: int, distanceLimitFirstClassCourier: int)
    reads basic.Values, firstClass.Values
  {
    IdRange(basic.Keys, BASIC_ID_OFFSET, numberOfBasicCouriers)
    && IdRange(firstClass.Keys, FIRST_CLASS_ID_OFFSET, numberOfFirstClassCouriers)
    && (forall k :: k in basic ==> Hired(basic[k], k, startingLocation, cityMap, roads, distanceLimitBasicCourier))
    && (forall k :: k in firstClass ==>
          Hired(firstClass[k], k, startingLocation, cityMap, roads, distanceLimitFirstClassCourier))
  }

  /** The basic couriers and then the first-class couriers, all new and different. */
  method Staff(numberOfBasicCouriers: int, numberOfFirstClassCouriers: int, startingLocation: string, cityMap: Map,
               distanceLimitBasicCourier: int, distanceLimitFirstClassCourier: int)
    returns (basic: map<int, Courier>, basicOrder: seq<int>, firstClass: map<int, Courier>, firstClassOrder: seq<int>)
    requires cityMap.Valid() && Connected(cityMap.Graph()) && startingLocation in cityMap.cities
    requires numberOfBasicCouriers >= 1 && numberOfFirstClassCouriers >= 1
    ensures Fleet(basic, basicOrder, cityMap, cityMap.Graph(), 0)
      && Fleet(firstClass, firstClassOrder, cityMap, cityMap.Graph(), 0)
    ensures basic.Values !! firstClass.Values
    ensures Staffed(basic, firstClass, startingLocation, cityMap, cityMap.Graph(), numberOfBasicCouriers,
                    numberOfFirstClassCouriers, distanceLimitBasicCourier, distanceLimitFirstClassCourier)
  {
    ghost var roads := cityMap.Graph();
    basic, basicOrder := Hire(numberOfBasicCouriers, BASIC_ID_OFFSET, startingLocation, cityMap,
                              distanceLimitBasicCourier);
    firstClass, firstClassOrder := Hire(numberOfFirstClassCouriers, FIRST_CLASS_ID_OFFSET, startingLocation,
                                        cityMap, distanceLimitFirstClassCourier);
    assert cityMap.Graph() == roads;
  }

  class CourierHandler {
    /** The couriers of the two types by id; no operation adds or removes one. */
    const basicCouriers: map<int, Courier>
    const firstClassCouriers: map<int, Courier>
    /** The order in which each unordered map of couriers is iterated: any order of its keys. */
    const basicOrder: seq<int>
    const firstClassOrder: seq<int>
    const cityMap: Map
    /** The roads of the map, which no operation of the handler changes. */
    ghost const roads: Graph

    /** The map is well formed, has a single component and has the roads recorded. */
    ghost predicate MapValid()
      reads this, cityMap, cityMap.cities.Values
    {
      cityMap.Valid() && Connected(roads) && cityMap.Graph() == roads
    }

    /**
     * Both groups of couriers are non-empty and fit the handler, each
     * courier having reached day, and no courier is in both.
     */
    ghost predicate Valid(day: int)
      reads this, basicCouriers.Values, firstClassCouriers.Values
    {
      Fleet(basicCouriers, basicOrder, cityMap, roads, day)
      && Fleet(firstClassCouriers, firstClassOrder, cityMap, roads, day)
      && basicCouriers.Values !! firstClassCouriers.Values
    }

    /** The handler over the couriers it has created, on day 0. */
    constructor(basicCouriers: map<int, Courier>, basicOrder: seq<int>, firstClassCouriers: map<int, Courier>,
                firstClassOrder: seq<int>, cityMap: Map)
      requires cityMap.Valid() && Connected(cityMap.Graph())
      requires Fleet(basicCouriers, basicOrder, cityMap, cityMap.Graph(), 0)
      requires Fleet(firstClassCouriers, firstClassOrder, cityMap, cityMap.Graph(), 0)
      requires basicCouriers.Values !! firstClassCouriers.Values
      ensures MapValid() && Valid(0) && this.cityMap == cityMap
      ensures this.basicCouriers == basicCouriers && this.firstClassCouriers == firstClassCouriers
    {
      this.basicCouriers, this.basicOrder := basicCouriers, basicOrder;
      this.firstClassCouriers, this.firstClassOrder := firstClassCouriers, firstClassOrder;
      this.cityMap := cityMap;
      roads := cityMap.Graph();
    }

    /**
     * CourierHandler's constructor: it fails for a starting city the map
     * does not have and then for fewer than one courier of either type;
     * otherwise it creates the basic couriers 1001, 1002, ... and the
     * first-class couriers 2001, 2002, ..., all in the starting city.
     */
    static method Create(numberOfBasicCouriers: int, numberOfFirstClassCouriers: int, startingLocation: string,
                         cityMap: Map, distanceLimitBasicCourier: int, distanceLimitFirstClassCourier: int)
      returns (r: Result<CourierHandler, HandlerError>)
      requires cityMap.Valid() && Connected(cityMap.Graph())
      ensures startingLocation !in cityMap.cities ==> r == Failure(StartingCityInvalid)
      ensures startingLocation in cityMap.cities && (numberOfBasicCouriers < 1 || numberOfFirstClassCouriers < 1)
        ==> r == Failure(CourierCountBelowOne)
      ensures r.Success? <==>
        startingLocation in cityMap.cities && numberOfBasicCouriers >= 1 && numberOfFirstClassCouriers >= 1
      ensures r.Success? ==>
        fresh(r.value) && r.value.MapValid() && r.value.Valid(0) && r.value.cityMap == cityMap
        && Staffed(r.value.basicCouriers, r.value.firstClassCouriers, startingLocation, cityMap, cityMap.Graph(),
                   numberOfBasicCouriers, numberOfFirstClassCouriers, distanceLimitBasicCourier,
                   distanceLimitFirstClassCourier)
    {
      var startingCity := cityMap.GetCity(startingLocation);
      if startingCity == null {
        return Failure(StartingCityInvalid);
      }
      if numberOfBasicCouriers < 1 || numberOfFirstClassCouriers < 1 {
        return Failure(CourierCountBelowOne);
      }
      var basic, basicOrder, firstClass, firstClassOrder := Staff(numberOfBasicCouriers, numberOfFirstClassCouriers,
        startingLocation, cityMap, distanceLimitBasicCourier, distanceLimitFirstClassCourier);
      var handler := new CourierHandler(basic, basicOrder, firstClass, firstClassOrder, cityMap);
      return Success(handler);
    }

    /** The courier with that id: a basic one first, then a first-class one; None when there is neither. */
    function GetCourier(courierId: int): (c: Option<Courier>)
      reads this
      ensures c.Some? <==> courierId in basicCouriers || courierId in firstClassCouriers
      ensures c.Some? ==> c.value in basicCouriers.Values || c.value in firstClassCouriers.Values
    {
      if courierId in basicCouriers then Some(basicCouriers[courierId])
      else if courierId in firstClassCouriers then Some(firstClassCouriers[courierId])
      else None
    }

    /** A courier found by id carries that id. */
    lemma GetCourierId(courierId: int, day: int)
      requires Valid(day)
      ensures GetCourier(courierId).Some? ==> GetCourier(courierId).value.id == courierId
    {
    }

    /** The couriers of a type. */
    function Relevant(courierType: CourierType): map<int, Courier>
    {
      if courierType == BASIC then basicCouriers else firstClassCouriers
    }

    /** The order in which the couriers of a type are iterated. */
    function RelevantOrder(courierType: CourierType): seq<int>
    {
      if courierType == BASIC then basicOrder else firstClassOrder
    }

    /**
     * assignPackage: among the couriers of the requested type, in the order
     * of the listing, the first one whose candidate route, measured from its
     * own location, is the shortest is asked to deliver the package; the
     * price is that distance times the price of a kilometre of the type.
     */
    method AssignPackage(package: Package, source: string, destination: string, courierType: CourierType,
                         ghost day: int)
      returns (price: int, ghost best: nat, ghost distance: int, ghost locations: seq<string>,
               ghost paths: seq<seq<string>>, ghost routes: seq<seq<string>>)
      requires MapValid() && Valid(day) && source in roads && destination in roads
      modifies Relevant(courierType).Values
      ensures Valid(day)
      ensures old(Scanned(Relevant(courierType), RelevantOrder(courierType), locations, paths))
      ensures Cheapest(roads, locations, paths, source, destination, routes, best, distance)
      ensures price == distance * PricePerDistance(courierType)
      ensures best < |RelevantOrder(courierType)|
        && Delivering(Relevant(courierType)[RelevantOrder(courierType)[best]], package, source, destination)
      ensures forall k :: k in Relevant(courierType) && k != RelevantOrder(courierType)[best] ==>
        unchanged(Relevant(courierType)[k])
    {
      var bestDistance;
      if courierType == BASIC {
        best, bestDistance, locations, paths, routes :=
          AssignInGroup(basicCouriers, basicOrder, package, source, destination, cityMap, roads, day);
      } else {
        best, bestDistance, locations, paths, routes :=
          AssignInGroup(firstClassCouriers, firstClassOrder, package, source, destination, cityMap, roads, day);
      }
      distance := bestDistance;
      price := bestDistance * PricePerDistance(courierType);
    }

    /**
     * shiftTime: every basic courier and then every first-class courier
     * simulates the days; all their changes, each on a day of the shift.
     */
    method ShiftTime(days: int, ghost day: int)
      returns (changes: seq<Change>, ghost basicRecords: seq<seq<Change>>, ghost firstClassRecords: seq<seq<Change>>,
               ghost basicAfter: seq<Trip>, ghost firstClassAfter: seq<Trip>)
      requires MapValid() && Valid(day)
      modifies basicCouriers.Values, firstClassCouriers.Values, Parcels(basicCouriers), Parcels(firstClassCouriers)
      ensures MapValid() && Valid(day + Elapsed(days)) && DatedIn(changes, day, day + Elapsed(days))
      ensures Reported(roads, Elapsed(days), Limits(basicCouriers, basicOrder), Limits(firstClassCouriers, firstClassOrder),
                       old(Trips(basicCouriers, basicOrder)), old(Trips(firstClassCouriers, firstClassOrder)),
                       basicAfter, firstClassAfter, changes, basicRecords, firstClassRecords)
      ensures basicAfter == Trips(basicCouriers, basicOrder) && firstClassAfter == Trips(firstClassCouriers, firstClassOrder)
    {
      ghost var n := Elapsed(days);
      var basicChanges, firstClassChanges;
      basicChanges, basicRecords :=
        ShiftBeside(basicCouriers, basicOrder, firstClassCouriers, firstClassOrder, days, n, cityMap, roads, day, day);
      basicAfter := Trips(basicCouriers, basicOrder);
      firstClassChanges, firstClassRecords :=
        ShiftBeside(firstClassCouriers, firstClassOrder, basicCouriers, basicOrder, days, n, cityMap, roads, day, day + n);
      firstClassAfter := Trips(firstClassCouriers, firstClassOrder);
      DatedJoin(basicChanges, firstClassChanges, day, day + n);
      changes := basicChanges + firstClassChanges;
    }
  }
}
