/**
 * A courier of the delivery service. It stands in a city and follows a path
 * of cities; packages wait for it in the cities where they are to be picked
 * up and are handed over in the cities where they are to be delivered. Each
 * day it may travel its distance limit plus whatever it did not use the day
 * before.
 */
module DeliveryCourier {
  import opened DeliveryGraph
  import opened DeliveryDijkstra
  import opened DeliveryCity
  import opened DeliveryMap
  import opened DeliveryPackage

  /** The packages registered for a city, none when the city has no entry. */
  function Get(m: map<string, seq<Package>>, c: string): seq<Package>
  {
    if c in m then m[c] else []
  }

  /** The registrations with one more package appended for the city. */
  function Register(m: map<string, seq<Package>>, c: string, p: Package): (r: map<string, seq<Package>>)
    ensures r.Keys == m.Keys + {c} && Get(r, c) == Get(m, c) + [p]
    ensures forall k :: k != c ==> Get(r, k) == Get(m, k)
  {
    m[c := Get(m, c) + [p]]
  }

  /** source occurs in p, and destination occurs at or after it. */
  predicate InOrder(p: seq<string>, source: string, destination: string)
  {
    exists i, j :: 0 <= i <= j < |p| && p[i] == source && p[j] == destination
  }

  /** ext continues from city from along a shortest walk to city to. */
  ghost predicate ShortestLeg(g: Graph, from: string, ext: seq<string>, to: string)
  {
    Walk(g, [from] + ext) && ([from] + ext)[|ext|] == to && Shortest(g, from, to, Length(g, [from] + ext))
  }

  /** The packages carried and those waiting to be picked up or delivered are among the parcels. */
  ghost predicate Tracked(inDelivery: seq<Package>, toPickUp: map<string, seq<Package>>,
                          toDeliver: map<string, seq<Package>>, parcels: set<Package>)
  {
    Within(inDelivery, parcels)
    && (forall c :: c in toPickUp ==> Within(toPickUp[c], parcels))
    && (forall c :: c in toDeliver ==> Within(toDeliver[c], parcels))
  }

  /** Every package of the list is among the parcels. */
  ghost predicate Within(s: seq<Package>, parcels: set<Package>)
  {
    Objects(s) <= parcels
  }

  /** The objects of a list within the parcels. */
  lemma WithinObjects(s: seq<Package>, parcels: set<Package>)
    requires Within(s, parcels)
    ensures Objects(s) <= parcels
  {
  }

  /** A package registered and added to the parcels keeps them tracked. */
  lemma RegisterTracked(inDelivery: seq<Package>, toPickUp: map<string, seq<Package>>,
                        toDeliver: map<string, seq<Package>>, parcels: set<Package>,
                        source: string, destination: string, package: Package)
    requires Tracked(inDelivery, toPickUp, toDeliver, parcels)
    ensures Tracked(inDelivery, Register(toPickUp, source, package), Register(toDeliver, destination, package), parcels + {package})
  {
  }

  /** The last city of the path, or the courier's city when the path is empty. */
  function EndOf(location: string, path: seq<string>): (c: string)
    ensures c == ([location] + path)[|path|]
  {
    if path == [] then location else path[|path| - 1]
  }

  /**
   * p is the path after a package from source to destination is taken on
   * along path: path unchanged when it passes source and then destination;
   * otherwise path extended by a shortest walk to destination when it passes
   * source, and by shortest walks to source and on to destination when it
   * does not. Either way the courier, standing in location, then passes
   * source and then destination.
   */
  ghost predicate Plan(roads: Graph, location: string, path: seq<string>, source: string, destination: string, p: seq<string>)
  {
    |p| >= |path| && p[..|path|] == path
    && (InOrder(path, source, destination) ==> p == path)
    && InOrder([location] + p, source, destination)
    && (!InOrder(path, source, destination) && source in path ==>
      ShortestLeg(roads, EndOf(location, path), p[|path|..], destination))
    && (source !in path ==>
      exists k :: |path| <= k <= |p|
        && ShortestLeg(roads, EndOf(location, path), p[|path|..k], source)
        && ShortestLeg(roads, source, p[k..], destination))
  }

  /** Passing source and then destination along p, the courier passes them from location too. */
  lemma InOrderFrom(location: string, p: seq<string>, source: string, destination: string)
    requires InOrder(p, source, destination)
    ensures InOrder([location] + p, source, destination)
  {
    var i, j :| 0 <= i <= j < |p| && p[i] == source && p[j] == destination;
    assert ([location] + p)[i + 1] == source && ([location] + p)[j + 1] == destination;
  }

  /** The packages of a list as a set of objects. */
  function Objects(s: seq<Package>): set<Package>
  {
    set p | p in s
  }

  /** The list without any occurrence of x, the others kept in order. */
  function Without(s: seq<Package>, x: Package): seq<Package>
  {
    if s == [] then []
    else (if s[0] == x then [] else [s[0]]) + Without(s[1..], x)
  }

  /** Exactly the packages of the list other than x are left. */
  lemma {:induction false} WithoutMeaning(s: seq<Package>, x: Package)
    ensures forall p :: p in Without(s, x) <==> p in s && p != x
  {
    if s != [] {
      WithoutMeaning(s[1..], x);
      assert forall p :: p in s <==> p == s[0] || p in s[1..];
    }
  }

  /** The record of each package of ps changing to status on day, in the order of ps. */
  function Stamp(ps: seq<Package>, day: int, status: PackageStatus): seq<Change>
  {
    if ps == [] then [] else [Change(ps[0].id, day, status)] + Stamp(ps[1..], day, status)
  }

  /** One record per package, in the order of the list, each of the package's id, day and status. */
  lemma {:induction false} StampMeaning(ps: seq<Package>, day: int, status: PackageStatus)
    ensures var r := Stamp(ps, day, status);
      |r| == |ps| && forall i :: 0 <= i < |ps| ==> r[i] == Change(ps[i].id, day, status)
  {
    if ps != [] {
      StampMeaning(ps[1..], day, status);
    }
  }

  /**
   * Handing over the packages of list, in order, from the packages carried:
   * a package that is still carried is delivered and every copy of it leaves
   * the packages carried; any other is skipped. The packages delivered, in
   * order, and the packages still carried.
   */
  function Delivery(list: seq<Package>, carrying: seq<Package>): (seq<Package>, seq<Package>)
  {
    if list == [] then ([], carrying)
    else
      var (delivered, left) := Delivery(list[..|list| - 1], carrying);
      var p := list[|list| - 1];
      if p in left then (delivered + [p], Without(left, p)) else (delivered, left)
  }

  /**
   * What a hand-over achieves: exactly the packages both listed and carried
   * are delivered, each once, and exactly the carried packages that are not
   * listed are still carried.
   */
  lemma {:induction false} DeliveryMeaning(list: seq<Package>, carrying: seq<Package>)
    ensures var (delivered, left) := Delivery(list, carrying);
      (forall p :: p in delivered <==> p in list && p in carrying)
      && (forall p :: p in left <==> p in carrying && p !in list)
      && (forall i, j :: 0 <= i < j < |delivered| ==> delivered[i] != delivered[j])
  {
    if list != [] {
      var front := list[..|list| - 1];
      DeliveryMeaning(front, carrying);
      var delivered, left := Delivery(front, carrying).0, Delivery(front, carrying).1;
      var x := list[|list| - 1];
      WithoutMeaning(left, x);
      assert forall p :: p in list <==> p in front || p == x;
      if x in left {
        assert x in carrying && x !in front;
        assert x !in delivered;
      }
    }
  }

  /** One more listed package handed over. */
  lemma DeliveryStep(list: seq<Package>, carrying: seq<Package>, i: nat)
    requires i < |list|
    ensures var (delivered, left) := Delivery(list[..i], carrying);
      Delivery(list[..i + 1], carrying)
        == if list[i] in left then (delivered + [list[i]], Without(left, list[i])) else (delivered, left)
  {
    assert list[..i + 1][..i] == list[..i];
  }

  /** The length of the first k roads of a route. */
  ghost function Spent(roads: Graph, route: seq<string>, k: nat): int
    requires Walk(roads, route) && k < |route|
  {
    WalkPrefix(roads, route, k + 1);
    Length(roads, route[..k + 1])
  }

  /**
   * Having set out along route with budget to spend, the courier has passed
   * its first k roads, stands in loc with path left to go, and has left what
   * the budget less the length travelled leaves.
   */
  ghost predicate Progress(roads: Graph, route: seq<string>, k: nat, budget: int,
                           loc: string, path: seq<string>, left: int)
    requires Walk(roads, route)
  {
    k < |route| && loc == route[k] && path == route[k + 1..] && left == budget - Spent(roads, route, k)
  }

  /** Before the first road the whole budget is left. */
  lemma ProgressStart(roads: Graph, route: seq<string>, budget: int)
    requires Walk(roads, route) && route != []
    ensures Progress(roads, route, 0, budget, route[0], route[1..], budget)
  {
    assert route[..1] == [route[0]];
  }

  /** Passing one more road spends its length. */
  lemma ProgressStep(roads: Graph, route: seq<string>, k: nat, budget: int,
                     loc: string, path: seq<string>, left: int)
    requires Walk(roads, route) && Progress(roads, route, k, budget, loc, path, left) && path != []
    ensures Adjacent(roads, loc, path[0])
    ensures Progress(roads, route, k + 1, budget, path[0], path[1..], left - roads[loc][path[0]])
  {
    assert route[k + 1] == path[0] && route[k + 2..] == path[1..];
    LengthExtend(roads, route, k + 1);
  }

  /** route is what is left of route0 after some of its first cities. */
  ghost predicate Along(route0: seq<string>, route: seq<string>)
  {
    exists k :: 0 <= k < |route0| && route == route0[k..]
  }

  /** Progress leaves the courier along its route. */
  lemma ProgressAlong(roads: Graph, route: seq<string>, k: nat, budget: int,
                      loc: string, path: seq<string>, left: int)
    requires Walk(roads, route) && Progress(roads, route, k, budget, loc, path, left)
    ensures Along(route, [loc] + path)
  {
    assert route[k..] == [loc] + path;
  }

  /** What is left of what is left is what is left. */
  lemma {:induction false} AlongTrans(r0: seq<string>, r1: seq<string>, r2: seq<string>)
    requires Along(r0, r1) && Along(r1, r2)
    ensures Along(r0, r2)
  {
    var a :| 0 <= a < |r0| && r1 == r0[a..];
    var b :| 0 <= b < |r1| && r2 == r1[b..];
    DropDrop(r0, a, b);
  }

  /** Dropping b cities after dropping a drops a + b. */
  lemma {:induction false} DropDrop(r0: seq<string>, a: nat, b: nat)
    requires a + b < |r0|
    ensures r0[a..][b..] == r0[a + b..] && Along(r0, r0[a + b..])
  {
    assert r0[a..][b..] == r0[a + b..];
  }

  /** A courier stands in a city of the roads, its path is a walk from there, and its packages are tracked. */
  ghost predicate Consistent(roads: Graph, location: string, path: seq<string>, inDelivery: seq<Package>,
                             toPickUp: map<string, seq<Package>>, toDeliver: map<string, seq<Package>>,
                             parcels: set<Package>)
  {
    location in roads && Walk(roads, [location] + path) && Tracked(inDelivery, toPickUp, toDeliver, parcels)
  }

  /** The length of the road from location to the next city of the path. */
  ghost function NextRoad(roads: Graph, location: string, path: seq<string>): (d: int)
    requires Walk(roads, [location] + path) && path != []
    ensures Adjacent(roads, location, path[0]) && d == roads[location][path[0]]
  {
    assert Adjacent(roads, ([location] + path)[0], ([location] + path)[1]);
    roads[location][path[0]]
  }

  /** The part of a courier's state the day's simulation works on. */
  datatype Trip = Trip(day: int, location: string, path: seq<string>, remaining: int, inDelivery: seq<Package>,
                       toPickUp: map<string, seq<Package>>, toDeliver: map<string, seq<Package>>)

  /**
   * The hand-over in the city of the trip: every package waiting there is
   * picked up, then every package destined there and carried is delivered.
   * The trip after, and the records of the changes of status.
   */
  function HandOut(t: Trip): (Trip, seq<Change>)
  {
    var picked := Get(t.toPickUp, t.location);
    var list := Get(t.toDeliver, t.location);
    var handed := Delivery(list, t.inDelivery + picked);
    (t.(inDelivery := handed.1, toPickUp := t.toPickUp - {t.location},
        toDeliver := if list == [] then t.toDeliver - {t.location} else t.toDeliver),
     Stamp(picked, t.day, IN_DELIVERY) + Stamp(handed.0, t.day, DELIVERED))
  }

  /** The next road of the trip exists and is no longer than the distance left. */
  predicate CanMove(roads: Graph, t: Trip)
  {
    t.path != [] && Adjacent(roads, t.location, t.path[0]) && roads[t.location][t.path[0]] <= t.remaining
  }

  /**
   * Moving on along the path, with a hand-over in every city reached, for
   * as long as the next road is no longer than the distance left. The trip
   * after, and the records of the changes of status.
   */
  ghost function Drive(roads: Graph, t: Trip): (Trip, seq<Change>)
    decreases |t.path|
  {
    if CanMove(roads, t) then
      var visit := HandOut(Moved(roads, t));
      var rest := Drive(roads, visit.0);
      (rest.0, visit.1 + rest.1)
    else (t, [])
  }

  /** The trip once the courier has passed the next road of its path. */
  function Moved(roads: Graph, t: Trip): Trip
    requires CanMove(roads, t)
  {
    t.(location := t.path[0], path := t.path[1..], remaining := t.remaining - roads[t.location][t.path[0]])
  }

  /** Driving on when the next road can be passed: pass it, hand over there, and drive on from there. */
  lemma DriveStep(roads: Graph, t: Trip)
    requires CanMove(roads, t)
    ensures var visit := HandOut(Moved(roads, t));
      Drive(roads, t) == (Drive(roads, visit.0).0, visit.1 + Drive(roads, visit.0).1)
  {
  }

  /**
   * One day of a trip: with an empty path only the day passes; otherwise
   * the distance limit is added to what is left, packages are handed over
   * where the courier stands, it drives on, and then the day passes.
   */
  ghost function Day(roads: Graph, limit: int, t: Trip): (Trip, seq<Change>)
  {
    if t.path == [] then (t.(day := t.day + 1), [])
    else
      var out := Outing(roads, limit, t);
      (out.0.(day := t.day + 1), out.1)
  }

  /**
   * The travelling part of a day: the distance limit is added to what is
   * left, then the round from there.
   */
  ghost function Outing(roads: Graph, limit: int, t: Trip): (Trip, seq<Change>)
  {
    Round(roads, t.(remaining := t.remaining + limit))
  }

  /** Packages are handed over where the courier stands, and it drives on from there. */
  ghost function Round(roads: Graph, t: Trip): (Trip, seq<Change>)
  {
    var visit := HandOut(t);
    var rest := Drive(roads, visit.0);
    (rest.0, visit.1 + rest.1)
  }

  /** n days of a trip, one after the other. */
  ghost function Days(roads: Graph, limit: int, t: Trip, n: nat): (Trip, seq<Change>)
  {
    if n == 0 then (t, [])
    else
      var before := Days(roads, limit, t, n - 1);
      var last := Day(roads, limit, before.0);
      (last.0, before.1 + last.1)
  }

  /** Where a package is and what its status is. */
  datatype Spot = Spot(location: string, status: PackageStatus)

  /** The spot of every package of a set. */
  function SpotsOf(ps: set<Package>): (s: map<Package, Spot>)
    reads ps
    ensures s.Keys == ps
  {
    map p | p in ps :: Spot(p.location, p.status)
  }

  /** The spots with every package of ps given status; the others as they were. */
  function Mark(s: map<Package, Spot>, ps: seq<Package>, status: PackageStatus): (r: map<Package, Spot>)
    ensures r.Keys == s.Keys
  {
    map p | p in s :: if p in ps then s[p].(status := status) else s[p]
  }

  /** The spots with every package of ps taken to city; the others as they were. */
  function Carry(s: map<Package, Spot>, ps: seq<Package>, city: string): (r: map<Package, Spot>)
    ensures r.Keys == s.Keys
  {
    map p | p in s :: if p in ps then s[p].(location := city) else s[p]
  }

  /**
   * The spots after the hand-over of HandOut(t): the packages picked up are
   * IN_DELIVERY, then those delivered are DELIVERED; no package moves.
   */
  function HandOutSpots(t: Trip, s: map<Package, Spot>): (r: map<Package, Spot>)
    ensures r.Keys == s.Keys
  {
    var picked := Get(t.toPickUp, t.location);
    var handed := Delivery(Get(t.toDeliver, t.location), t.inDelivery + picked);
    Mark(Mark(s, picked, IN_DELIVERY), handed.0, DELIVERED)
  }

  /** The spots after Drive(roads, t): each road passed takes the packages carried along, then the hand-over there. */
  ghost function DriveSpots(roads: Graph, t: Trip, s: map<Package, Spot>): (r: map<Package, Spot>)
    ensures r.Keys == s.Keys
    decreases |t.path|
  {
    if CanMove(roads, t) then
      var reached := Moved(roads, t);
      DriveSpots(roads, HandOut(reached).0, HandOutSpots(reached, Carry(s, t.inDelivery, reached.location)))
    else s
  }

  /** The spots after Outing(roads, limit, t). */
  ghost function OutingSpots(roads: Graph, limit: int, t: Trip, s: map<Package, Spot>): map<Package, Spot>
  {
    RoundSpots(roads, t.(remaining := t.remaining + limit), s)
  }

  /** The spots after Round(roads, t): the hand-over where the courier stands, then the drive. */
  ghost function RoundSpots(roads: Graph, t: Trip, s: map<Package, Spot>): map<Package, Spot>
  {
    DriveSpots(roads, HandOut(t).0, HandOutSpots(t, s))
  }


  /** The spots after Day(roads, limit, t): none changes when the path is empty. */
  ghost function DaySpots(roads: Graph, limit: int, t: Trip, s: map<Package, Spot>): map<Package, Spot>
  {
    if t.path == [] then s else OutingSpots(roads, limit, t, s)
  }

  /** The spots after Days(roads, limit, t, n). */
  ghost function DaysSpots(roads: Graph, limit: int, t: Trip, s: map<Package, Spot>, n: nat): map<Package, Spot>
  {
    if n == 0 then s
    else DaySpots(roads, limit, Days(roads, limit, t, n - 1).0, DaysSpots(roads, limit, t, s, n - 1))
  }

  /** The number of days a shift by days simulates: days, or none when it is not positive. */
  function Elapsed(days: int): nat
  {
    if days > 0 then days else 0
  }

  /** The records of the days, one day after the other. */
  function Flatten(daily: seq<seq<Change>>): (r: seq<Change>)
  {
    if daily == [] then [] else Flatten(daily[..|daily| - 1]) + daily[|daily| - 1]
  }

  /** One more list of records, after the others. */
  lemma FlattenNext(daily: seq<seq<Change>>, records: seq<Change>)
    ensures Flatten(daily + [records]) == Flatten(daily) + records
  {
    assert (daily + [records])[..|daily|] == daily;
  }

  /** Some days of a simulation: the trip at the start of each day and after the last, and the records of each day. */
  datatype Run = Run(trips: seq<Trip>, daily: seq<seq<Change>>)

  /** Each trip of the run is the one a day after the one before, with the records of that day. */
  ghost predicate History(roads: Graph, limit: int, run: Run)
    decreases |run.daily|
  {
    var n := |run.daily|;
    |run.trips| == n + 1
    && (n > 0 ==>
          History(roads, limit, Run(run.trips[..n], run.daily[..n - 1]))
          && Day(roads, limit, run.trips[n - 1]) == (run.trips[n], run.daily[n - 1]))
  }

  /** run is a simulation of n days from trip start, and the records are those of its days, one after the other. */
  ghost predicate Lived(roads: Graph, limit: int, start: Trip, n: nat, run: Run, records: seq<Change>)
  {
    History(roads, limit, run) && |run.daily| == n && run.trips[0] == start && records == Flatten(run.daily)
  }

  /** A run extended by one more day. */
  lemma HistoryStep(roads: Graph, limit: int, run: Run, t: Trip, records: seq<Change>)
    requires History(roads, limit, run) && Day(roads, limit, run.trips[|run.daily|]) == (t, records)
    ensures History(roads, limit, Run(run.trips + [t], run.daily + [records]))
  {
    assert (run.trips + [t])[..|run.daily| + 1] == run.trips;
    assert (run.daily + [records])[..|run.daily|] == run.daily;
  }

  /** A run of n days is what n days of its first trip give. */
  lemma {:induction false} HistoryDays(roads: Graph, limit: int, run: Run)
    requires History(roads, limit, run)
    ensures Days(roads, limit, run.trips[0], |run.daily|) == (run.trips[|run.daily|], Flatten(run.daily))
    decreases |run.daily|
  {
    if run.daily != [] {
      var n := |run.daily| - 1;
      var shorter := Run(run.trips[..n + 1], run.daily[..n]);
      HistoryDays(roads, limit, shorter);
      assert shorter.trips[0] == run.trips[0] && shorter.trips[n] == run.trips[n];
    }
  }

  /** n days that ended in before and recorded records, and one more day: n + 1 days. */
  lemma DaysNext(roads: Graph, limit: int, t: Trip, n: nat,
                 before: Trip, records: seq<Change>, now: Trip, changes: seq<Change>)
    requires (before, records) == Days(roads, limit, t, n)
    requires now == Day(roads, limit, before).0 && changes == records + Day(roads, limit, before).1
    ensures (now, changes) == Days(roads, limit, t, n + 1)
  {
  }

  /**
   * Driving on from now adds to records what driving on from start adds to
   * startRecords, and ends in the same trip.
   */
  ghost predicate Driving(roads: Graph, start: Trip, startRecords: seq<Change>, now: Trip, records: seq<Change>)
  {
    Drive(roads, start).0 == Drive(roads, now).0
    && startRecords + Drive(roads, start).1 == records + Drive(roads, now).1
  }

  /** The hand-over keeps the courier where it is and records changes on its day only. */
  lemma HandOutStays(t: Trip)
    ensures var u := HandOut(t).0;
      u.day == t.day && u.location == t.location && u.path == t.path && u.remaining == t.remaining
    ensures DatedIn(HandOut(t).1, t.day, t.day + 1)
  {
    var picked := Get(t.toPickUp, t.location);
    var handed := Delivery(Get(t.toDeliver, t.location), t.inDelivery + picked);
    StampMeaning(picked, t.day, IN_DELIVERY);
    StampMeaning(handed.0, t.day, DELIVERED);
  }

  /** Every record is of a day from lo up to hi, hi excluded. */
  ghost predicate DatedIn(records: seq<Change>, lo: int, hi: int)
  {
    forall i :: 0 <= i < |records| ==> lo <= records[i].day < hi
  }

  /** Records of a span of days joined. */
  lemma DatedJoin(first: seq<Change>, second: seq<Change>, lo: int, hi: int)
    requires DatedIn(first, lo, hi) && DatedIn(second, lo, hi)
    ensures DatedIn(first + second, lo, hi)
  {
  }

  /** Records of a span of days are records of any wider span. */
  lemma DatedWiden(records: seq<Change>, lo: int, hi: int, lo2: int, hi2: int)
    requires DatedIn(records, lo, hi) && lo2 <= lo && hi <= hi2
    ensures DatedIn(records, lo2, hi2)
  {
  }

  /**
   * Driving on from the k-th city of a route: the courier passes further
   * roads of the route, spending their lengths, stops where the next road
   * is longer than the distance left (or where the path ends), and records
   * changes on its day only.
   */
  lemma {:induction false} DriveMeaning(roads: Graph, route: seq<string>, k: nat, budget: int, t: Trip)
    returns (passed: nat)
    requires Walk(roads, route) && Progress(roads, route, k, budget, t.location, t.path, t.remaining)
    ensures var e := Drive(roads, t).0;
      k <= passed && Progress(roads, route, passed, budget, e.location, e.path, e.remaining)
      && !CanMove(roads, e) && e.day == t.day
    ensures DatedIn(Drive(roads, t).1, t.day, t.day + 1)
    decreases |t.path|
  {
    passed := k;
    if CanMove(roads, t) {
      var m := Moved(roads, t);
      ProgressStep(roads, route, k, budget, t.location, t.path, t.remaining);
      HandOutStays(m);
      var visit := HandOut(m);
      DriveStep(roads, t);
      passed := DriveMeaning(roads, route, k + 1, budget, visit.0);
      DatedJoin(visit.1, Drive(roads, visit.0).1, t.day, t.day + 1);
    }
  }

  /**
   * One day of a courier standing at the start of a walk: with an empty
   * path only the day passes; otherwise it passes the first roads of the
   * walk, spending their lengths out of what was left plus its distance
   * limit, and stops where the next road is longer than the distance left
   * (or where the path ends). Every change is recorded on that day.
   */
  lemma {:induction false} DayMeaning(roads: Graph, limit: int, t: Trip) returns (passed: nat)
    requires Walk(roads, [t.location] + t.path)
    ensures t.path == [] ==> Day(roads, limit, t) == (t.(day := t.day + 1), [])
    ensures var e := Day(roads, limit, t).0;
      e.day == t.day + 1
      && (t.path != [] ==>
        Progress(roads, [t.location] + t.path, passed, t.remaining + limit, e.location, e.path, e.remaining)
        && !CanMove(roads, e))
    ensures DatedIn(Day(roads, limit, t).1, t.day, t.day + 1)
  {
    passed := 0;
    if t.path != [] {
      var route := [t.location] + t.path;
      var s := t.(remaining := t.remaining + limit);
      ProgressStart(roads, route, s.remaining);
      assert route[1..] == t.path;
      HandOutStays(s);
      var visit := HandOut(s);
      var rest := Drive(roads, visit.0);
      assert Day(roads, limit, t).0 == rest.0.(day := t.day + 1);
      passed := DriveMeaning(roads, route, 0, s.remaining, visit.0);
    }
    DayDated(roads, limit, t);
  }

  /** Every change of a day of a courier standing at the start of a walk is recorded on that day. */
  lemma DayDated(roads: Graph, limit: int, t: Trip)
    requires Walk(roads, [t.location] + t.path)
    ensures DatedIn(Day(roads, limit, t).1, t.day, t.day + 1)
  {
    if t.path != [] {
      var route := [t.location] + t.path;
      var s := t.(remaining := t.remaining + limit);
      ProgressStart(roads, route, s.remaining);
      assert route[1..] == t.path;
      HandOutStays(s);
      var visit := HandOut(s);
      var rest := Drive(roads, visit.0);
      assert Day(roads, limit, t).1 == visit.1 + rest.1;
      var _ := DriveMeaning(roads, route, 0, s.remaining, visit.0);
      DatedJoin(visit.1, rest.1, t.day, t.day + 1);
    }
  }

  /** A day of a courier along a walk leaves it along the walk, a day later. */
  lemma {:induction false} DayAlong(roads: Graph, limit: int, route: seq<string>, t: Trip)
    requires Walk(roads, route) && Along(route, [t.location] + t.path)
    ensures var e := Day(roads, limit, t).0; Along(route, [e.location] + e.path) && e.day == t.day + 1
    ensures DatedIn(Day(roads, limit, t).1, t.day, t.day + 1)
  {
    var r1 := [t.location] + t.path;
    var k :| 0 <= k < |route| && r1 == route[k..];
    WalkSuffix(roads, route, k);
    var passed := DayMeaning(roads, limit, t);
    var e := Day(roads, limit, t).0;
    if t.path == [] {
      assert r1[0..] == r1;
    } else {
      ProgressAlong(roads, r1, passed, t.remaining + limit, e.location, e.path, e.remaining);
    }
    AlongTrans(route, r1, [e.location] + e.path);
  }

  /**
   * n days of a courier standing at the start of a walk: it ends up along
   * the walk n days later, and every change is recorded on one of the n
   * days.
   */
  lemma {:induction false} DaysMeaning(roads: Graph, limit: int, t: Trip, n: nat)
    requires Walk(roads, [t.location] + t.path)
    ensures var e := Days(roads, limit, t, n).0;
      Along([t.location] + t.path, [e.location] + e.path) && e.day == t.day + n
    ensures DatedIn(Days(roads, limit, t, n).1, t.day, t.day + n)
  {
    var route := [t.location] + t.path;
    if n == 0 {
      assert route[0..] == route;
    } else {
      DaysMeaning(roads, limit, t, n - 1);
      var before := Days(roads, limit, t, n - 1);
      var last := Day(roads, limit, before.0);
      assert Days(roads, limit, t, n) == (last.0, before.1 + last.1);
      DayAlong(roads, limit, route, before.0);
      DatedWiden(before.1, t.day, t.day + (n - 1), t.day, t.day + n);
      DatedWiden(last.1, before.0.day, before.0.day + 1, t.day, t.day + n);
      DatedJoin(before.1, last.1, t.day, t.day + n);
    }
  }

  /** Records added in two steps are the records added once, joined. */
  lemma JoinRecords(changes: seq<Change>, first: seq<Change>, second: seq<Change>)
    ensures changes + first + second == changes + (first + second)
  {
  }

  class Courier {
    const id: int
    var day: int
    const distanceLimit: int
    var remainingDistance: int
    var location: string
    const cityMap: Map
    /** The roads of the map, which no courier operation changes. */
    ghost const roads: Graph
    var path: seq<string>
    var inDelivery: seq<Package>
    var toPickUp: map<string, seq<Package>>
    var toDeliver: map<string, seq<Package>>
    /** Every package the courier has been asked to deliver. */
    ghost var parcels: set<Package>

    /** The map is well formed, has a single component and has the roads recorded. */
    ghost predicate MapValid()
      reads cityMap, cityMap.cities.Values
    {
      cityMap.Valid() && Connected(roads) && cityMap.Graph() == roads
    }

    /** The part of the state the day's simulation works on. */
    function Snapshot(): (t: Trip)
      reads this`day, this`location, this`path, this`remainingDistance, this`inDelivery, this`toPickUp, this`toDeliver
      ensures t.day == day && t.location == location && t.path == path && t.remaining == remainingDistance
      ensures t.inDelivery == inDelivery && t.toPickUp == toPickUp && t.toDeliver == toDeliver
    {
      Trip(day, location, path, remainingDistance, inDelivery, toPickUp, toDeliver)
    }

    /** The courier stands in a city of the map, and its path is a walk from there. */
    ghost predicate Valid()
      reads this`location, this`path, this`inDelivery, this`toPickUp, this`toDeliver, this`parcels
    {
      Consistent(roads, location, path, inDelivery, toPickUp, toDeliver, parcels)
    }

    constructor(id: int, startingLocation: string, cityMap: Map, distanceLimit: int)
      requires cityMap.Valid() && Connected(cityMap.Graph()) && startingLocation in cityMap.cities
      ensures MapValid() && Valid()
      ensures this.id == id && this.cityMap == cityMap && this.distanceLimit == distanceLimit && roads == cityMap.Graph()
      ensures day == 0 && remainingDistance == 0 && location == startingLocation && path == []
      ensures inDelivery == [] && toPickUp == map[] && toDeliver == map[] && parcels == {}
    {
      this.id := id;
      day := 0;
      location := startingLocation;
      this.cityMap := cityMap;
      roads := cityMap.Graph();
      this.distanceLimit := distanceLimit;
      remainingDistance := 0;
      path := [];
      inDelivery := [];
      toPickUp := map[];
      toDeliver := map[];
      parcels := {};
    }

    /**
     * Registers the package for pick-up in source and delivery in
     * destination, then extends the path unless it already passes source and
     * then destination: by a shortest walk to destination when it passes
     * source, by shortest walks to source and on to destination otherwise.
     */
    method Deliver(package: Package, source: string, destination: string)
      requires MapValid() && Valid() && source in roads && destination in roads
      modifies this
      ensures Valid()
      ensures toPickUp == Register(old(toPickUp), source, package)
      ensures toDeliver == Register(old(toDeliver), destination, package)
      ensures location == old(location) && day == old(day) && remainingDistance == old(remainingDistance)
      ensures inDelivery == old(inDelivery) && parcels == old(parcels) + {package}
      ensures Plan(roads, location, old(path), source, destination, path)
    {
      Enlist(package, source, destination);
      Reroute(source, destination);
    }

    /** Registers the package for pick-up in source and delivery in destination. */
    method Enlist(package: Package, source: string, destination: string)
      requires Valid()
      modifies this
      ensures Valid()
      ensures toPickUp == Register(old(toPickUp), source, package)
      ensures toDeliver == Register(old(toDeliver), destination, package)
      ensures location == old(location) && day == old(day) && remainingDistance == old(remainingDistance)
      ensures inDelivery == old(inDelivery) && parcels == old(parcels) + {package} && path == old(path)
    {
      RegisterTracked(inDelivery, toPickUp, toDeliver, parcels, source, destination, package);
      toPickUp, toDeliver, parcels :=
        Register(toPickUp, source, package), Register(toDeliver, destination, package), parcels + {package};
    }

    /** Extends the path so that it passes source and then destination. */
    method Reroute(source: string, destination: string)
      requires MapValid() && Valid() && source in roads && destination in roads
      modifies this
      ensures Valid()
      ensures toPickUp == old(toPickUp) && toDeliver == old(toDeliver) && parcels == old(parcels)
      ensures location == old(location) && day == old(day) && remainingDistance == old(remainingDistance)
      ensures inDelivery == old(inDelivery)
      ensures Plan(roads, location, old(path), source, destination, path)
    {
      path := Planned(cityMap, roads, location, path, source, destination);
    }

    /**
     * path unchanged when it passes source and then destination; otherwise
     * extended by a shortest walk to destination when it passes source, and
     * by shortest walks to source and on to destination when it does not.
     */
    static method Planned(m: Map, ghost roads: Graph, location: string, path: seq<string>, source: string, destination: string)
      returns (p: seq<string>)
      requires m.Valid() && m.Graph() == roads && Connected(roads)
      requires location in roads && Walk(roads, [location] + path) && source in roads && destination in roads
      ensures Walk(roads, [location] + p) && Plan(roads, location, path, source, destination, p)
    {
      var inOrder, sourceCityInPath := Scan(path, source, destination);
      if inOrder {
        InOrderFrom(location, path, source, destination);
        return path;
      }
      if sourceCityInPath {
        p := Extended(m, roads, location, path, destination);
        PlanOneLeg(roads, location, path, source, destination, p);
        return;
      }
      var middle := Extended(m, roads, location, path, source);
      p := Extended(m, roads, location, middle, destination);
      PlanTwoLegs(roads, location, path, source, destination, middle, p);
    }

    /** Whether path passes source and then destination, and whether it passes source at all. */
    static method Scan(path: seq<string>, source: string, destination: string) returns (inOrder: bool, sourceCityInPath: bool)
      ensures inOrder <==> InOrder(path, source, destination)
      ensures sourceCityInPath <==> source in path
    {
      sourceCityInPath := false;
      var i := 0;
      while i < |path|
        invariant i <= |path|
        invariant sourceCityInPath <==> source in path[..i]
        invariant !InOrder(path[..i], source, destination)
      {
        if !sourceCityInPath && path[i] == source {
          sourceCityInPath := true;
        }
        if sourceCityInPath && path[i] == destination {
          ScanFound(path, i, source, destination);
          return true, true;
        }
        ScanPasses(path, i, source, destination);
        i := i + 1;
      }
      assert path[..i] == path;
      return false, sourceCityInPath;
    }

    /** The scan stops at destination once source has been met. */
    static lemma ScanFound(p: seq<string>, i: nat, source: string, destination: string)
      requires i < |p| && source in p[..i + 1] && p[i] == destination
      ensures InOrder(p, source, destination) && source in p
    {
      var k :| 0 <= k < i + 1 && p[..i + 1][k] == source;
      assert p[k] == source;
    }

    /** The scan passes a city without finding source and then destination. */
    static lemma ScanPasses(p: seq<string>, i: nat, source: string, destination: string)
      requires i < |p| && !InOrder(p[..i], source, destination)
      requires !(source in p[..i + 1] && p[i] == destination)
      ensures !InOrder(p[..i + 1], source, destination)
    {
      assert p[..i + 1][..i] == p[..i];
    }

    /** One shortest leg to destination completes the plan of a path that passes source. */
    static lemma PlanOneLeg(roads: Graph, location: string, path: seq<string>, source: string, destination: string, p: seq<string>)
      requires !InOrder(path, source, destination) && source in path
      requires |p| >= |path| && p[..|path|] == path
      requires ShortestLeg(roads, EndOf(location, path), p[|path|..], destination) && EndOf(location, p) == destination
      ensures Plan(roads, location, path, source, destination, p)
    {
      var k :| 0 <= k < |path| && path[k] == source;
      assert p[k] == source;
      assert ([location] + p)[k + 1] == source && ([location] + p)[|p|] == destination;
    }

    /** Shortest legs to source and on to destination complete the plan of a path that misses source. */
    static lemma PlanTwoLegs(roads: Graph, location: string, path: seq<string>, source: string, destination: string,
                             middle: seq<string>, p: seq<string>)
      requires source !in path
      requires |middle| >= |path| && middle[..|path|] == path
      requires ShortestLeg(roads, EndOf(location, path), middle[|path|..], source) && EndOf(location, middle) == source
      requires |p| >= |middle| && p[..|middle|] == middle
      requires ShortestLeg(roads, source, p[|middle|..], destination) && EndOf(location, p) == destination
      ensures Plan(roads, location, path, source, destination, p)
    {
      assert !InOrder(path, source, destination);
      ghost var k := |middle|;
      assert ([location] + p)[k] == source && ([location] + p)[|p|] == destination;
      assert p[..|path|] == middle[..|path|];
      assert p[|path|..k] == middle[|path|..];
    }

    /** Extends the path by a shortest walk from its last city (or the courier's city) to destination, without repeating that city. */
    method AppendPathToCity(destination: string)
      requires MapValid() && Valid() && destination in roads
      modifies this
      ensures Valid()
      ensures location == old(location) && day == old(day) && remainingDistance == old(remainingDistance)
      ensures inDelivery == old(inDelivery) && toPickUp == old(toPickUp) && toDeliver == old(toDeliver)
      ensures |path| >= |old(path)| && path[..|old(path)|] == old(path)
      ensures ShortestLeg(roads, EndOf(location, old(path)), path[|old(path)|..], destination)
      ensures EndOf(location, path) == destination
    {
      path := Extended(cityMap, roads, location, path, destination);
    }

    /** path extended by a shortest walk from its last city (or location) to destination. */
    static method Extended(m: Map, ghost roads: Graph, location: string, path: seq<string>, destination: string)
      returns (p: seq<string>)
      requires m.Valid() && m.Graph() == roads && Connected(roads)
      requires location in roads && Walk(roads, [location] + path) && destination in roads
      ensures Walk(roads, [location] + p) && |p| >= |path| && p[..|path|] == path
      ensures ShortestLeg(roads, EndOf(location, path), p[|path|..], destination)
      ensures EndOf(location, p) == destination
    {
      var fromCity := EndOf(location, path);
      assert fromCity == ([location] + path)[|path|];
      WalkInGraph(roads, [location] + path);
      var q := m.FindShortestPath(fromCity, destination);
      ExtendWalk(roads, location, path, q);
      p := path + q[1..];
    }

    /** A walk from location along path, continued by a walk q from its last city. */
    static lemma ExtendWalk(g: Graph, location: string, path: seq<string>, q: seq<string>)
      requires Walk(g, [location] + path) && Walk(g, q) && q != [] && q[0] == ([location] + path)[|path|]
      ensures var p := path + q[1..];
        Walk(g, [location] + p) && p[..|path|] == path && p[|path|..] == q[1..] && [q[0]] + q[1..] == q
        && EndOf(location, p) == q[|q| - 1]
    {
      var p := path + q[1..];
      WalkJoin(g, [location] + path, q);
      assert [location] + path + q[1..] == [location] + p;
      assert p[..|path|] == path && p[|path|..] == q[1..];
      assert [q[0]] + q[1..] == q;
      if q[1..] != [] {
        assert p[|p| - 1] == q[|q| - 1];
      }
    }

    /**
     * Moves to the next city of the path when the road there is no longer
     * than the distance left, taking the packages carried along.
     */
    method Move() returns (moved: bool)
      requires MapValid() && Valid()
      modifies this, Objects(inDelivery)
      ensures Valid()
      ensures moved <==> old(path) != [] && NextRoad(roads, old(location), old(path)) <= old(remainingDistance)
      ensures moved ==>
        location == old(path)[0] && path == old(path)[1..]
        && remainingDistance == old(remainingDistance) - NextRoad(roads, old(location), old(path))
        && forall p :: p in inDelivery ==> p.location == location
      ensures !moved ==>
        location == old(location) && path == old(path) && remainingDistance == old(remainingDistance)
        && unchanged(old(Objects(inDelivery)))
      ensures day == old(day) && inDelivery == old(inDelivery) && toPickUp == old(toPickUp) && toDeliver == old(toDeliver)
      ensures parcels == old(parcels)
      ensures forall p :: p in inDelivery ==> p.status == old(p.status)
    {
      if path == [] {
        return false;
      }
      assert Adjacent(roads, ([location] + path)[0], ([location] + path)[1]);
      var distance := DistanceOnRoad(location, path[0]);
      if distance > remainingDistance {
        return false;
      }
      WalkSuffix(roads, [location] + path, 1);
      assert ([location] + path)[1..] == [path[0]] + path[1..];
      remainingDistance, location, path := remainingDistance - distance, path[0], path[1..];
      Relocate(inDelivery, location);
      return true;
    }

    /** Every package of the list is now in city; their statuses stay. */
    static method Relocate(carried: seq<Package>, city: string)
      modifies Objects(carried)
      ensures forall p :: p in carried ==> p.location == city && p.status == old(p.status)
    {
      var i := 0;
      while i < |carried|
        invariant i <= |carried|
        invariant forall j :: 0 <= j < i ==> carried[j].location == city
        invariant forall p :: p in carried ==> p.status == old(p.status)
      {
        carried[i].ChangeLocation(city);
        i := i + 1;
      }
    }

    /** The distance of the road between two neighbouring cities, as the first city stores it. */
    method DistanceOnRoad(from: string, to: string) returns (d: int)
      requires MapValid() && Adjacent(roads, from, to)
      ensures d == roads[from][to]
    {
      assert Closed(roads) && to in roads;
      var city := cityMap.cities[from];
      d := city.DistanceTo(cityMap.cities[to]);
    }

    /**
     * Picks up every package waiting in the courier's city, then delivers
     * every package destined there that it carries; records each change of
     * status on the current day.
     */
    method HandleOnLocationDeliveries(changes: seq<Change>) returns (after: seq<Change>)
      modifies this, Objects(Get(toPickUp, location)), Objects(Get(toDeliver, location))
      ensures var picked := old(Get(toPickUp, location));
        var handed := Delivery(old(Get(toDeliver, location)), old(inDelivery) + picked);
        after == changes + Stamp(picked, old(day), IN_DELIVERY) + Stamp(handed.0, old(day), DELIVERED)
        && inDelivery == handed.1
        && (forall p :: p in handed.0 ==> p.status == DELIVERED)
        && (forall p :: p in picked && p !in handed.0 ==> p.status == IN_DELIVERY)
        && (forall p :: p in old(Get(toDeliver, location)) && p !in picked && p !in handed.0 ==> p.status == old(p.status))
        && (forall p :: p in picked || p in old(Get(toDeliver, location)) ==> p.location == old(p.location))
      ensures toPickUp == old(toPickUp) - {location}
      ensures toDeliver == if old(Get(toDeliver, location)) == [] then old(toDeliver) - {location} else old(toDeliver)
      ensures location == old(location) && path == old(path) && day == old(day) && remainingDistance == old(remainingDistance)
      ensures parcels == old(parcels)
      ensures old(Tracked(inDelivery, toPickUp, toDeliver, parcels)) ==> Tracked(inDelivery, toPickUp, toDeliver, parcels)
    {
      var picked := PickUp();
      after := changes + Stamp(picked, day, IN_DELIVERY);
      var delivered := HandOver();
      after := after + Stamp(delivered, day, DELIVERED);
      DeliveryMeaning(old(Get(toDeliver, location)), old(inDelivery) + picked);
    }

    /** Picks up every package waiting in the courier's city; the packages picked up, in order. */
    method PickUp() returns (picked: seq<Package>)
      modifies this, Objects(Get(toPickUp, location))
      ensures picked == old(Get(toPickUp, location))
      ensures inDelivery == old(inDelivery) + picked
      ensures forall p :: p in picked ==> p.status == IN_DELIVERY && p.location == old(p.location)
      ensures toPickUp == old(toPickUp) - {location}
      ensures toDeliver == old(toDeliver) && location == old(location) && path == old(path)
      ensures day == old(day) && remainingDistance == old(remainingDistance) && parcels == old(parcels)
    {
      picked := Get(toPickUp, location);
      var carrying := inDelivery;
      var i := 0;
      while i < |picked|
        invariant i <= |picked|
        invariant carrying == old(inDelivery) + picked[..i]
        invariant forall j :: 0 <= j < i ==> picked[j].status == IN_DELIVERY
        invariant forall p :: p in picked ==> p.location == old(p.location)
        modifies Objects(picked)
      {
        picked[i].ChangePackageStatus(IN_DELIVERY);
        carrying := carrying + [picked[i]];
        i := i + 1;
      }
      assert picked[..i] == picked;
      inDelivery, toPickUp := carrying, toPickUp - {location};
    }

    /** Delivers, in order, the packages destined to the courier's city that it carries; the packages delivered. */
    method HandOver() returns (delivered: seq<Package>)
      modifies this, Objects(Get(toDeliver, location))
      ensures var handed := Delivery(old(Get(toDeliver, location)), old(inDelivery));
        delivered == handed.0 && inDelivery == handed.1
      ensures forall p :: p in delivered ==> p.status == DELIVERED
      ensures forall p :: p in old(Get(toDeliver, location)) && p !in delivered ==> p.status == old(p.status)
      ensures forall p :: p in old(Get(toDeliver, location)) ==> p.location == old(p.location)
      ensures toDeliver == if old(Get(toDeliver, location)) == [] then old(toDeliver) - {location} else old(toDeliver)
      ensures toPickUp == old(toPickUp) && location == old(location) && path == old(path)
      ensures day == old(day) && remainingDistance == old(remainingDistance) && parcels == old(parcels)
    {
      var list := Get(toDeliver, location);
      var carrying := inDelivery;
      delivered := [];
      var i := 0;
      while i < |list|
        invariant i <= |list|
        invariant (delivered, carrying) == Delivery(list[..i], old(inDelivery))
        invariant forall p :: p in delivered ==> p.status == DELIVERED
        invariant forall p :: p in list && p !in delivered ==> p.status == old(p.status)
        invariant forall p :: p in list ==> p.location == old(p.location)
        modifies Objects(list)
      {
        DeliveryStep(list, old(inDelivery), i);
        var package := list[i];
        if package in carrying {
          package.ChangePackageStatus(DELIVERED);
          carrying := Without(carrying, package);
          delivered := delivered + [package];
        }
        i := i + 1;
      }
      assert list[..i] == list;
      inDelivery := carrying;
      if location in toDeliver && toDeliver[location] == [] {
        toDeliver := toDeliver - {location};
      }
    }

    /**
     * Simulates one day: a courier with an empty path only counts the day;
     * otherwise its distance limit is added to what it has left, it hands
     * over packages where it stands, and it then moves on along its path,
     * handing over packages in every city reached, for as long as the next
     * road is no longer than the distance left.
     */
    method ShiftDay(changes: seq<Change>) returns (after: seq<Change>)
      requires MapValid() && Valid()
      modifies this, parcels
      ensures Valid() && day == old(day) + 1 && parcels == old(parcels)
      ensures Snapshot() == Day(roads, distanceLimit, old(Snapshot())).0
      ensures after == changes + Day(roads, distanceLimit, old(Snapshot())).1
      ensures SpotsOf(parcels) == DaySpots(roads, distanceLimit, old(Snapshot()), old(SpotsOf(parcels)))
    {
      ghost var before, spots := Snapshot(), SpotsOf(parcels);
      if path == [] {
        day := day + 1;
        assert changes + [] == changes && SpotsOf(parcels) == spots;
        return changes;
      }
      ghost var out := Outing(roads, distanceLimit, before);
      assert Day(roads, distanceLimit, before) == (out.0.(day := before.day + 1), out.1);
      after := Journey(changes);
      ghost var travelled := SpotsOf(parcels);
      assert Snapshot() == out.0;
      day := day + 1;
      assert Snapshot() == out.0.(day := before.day + 1) && SpotsOf(parcels) == travelled;
    }

    /**
     * The day of a courier with somewhere to go: the distance limit is added
     * to what is left, packages are handed over where it stands, and it
     * travels on for as long as it can.
     */
    method Journey(changes: seq<Change>) returns (after: seq<Change>)
      requires MapValid() && Valid() && path != []
      modifies this, parcels
      ensures Valid() && day == old(day) && parcels == old(parcels)
      ensures Snapshot() == Outing(roads, distanceLimit, old(Snapshot())).0
      ensures after == changes + Outing(roads, distanceLimit, old(Snapshot())).1
      ensures SpotsOf(parcels) == OutingSpots(roads, distanceLimit, old(Snapshot()), old(SpotsOf(parcels)))
    {
      Refuel();
      after := Tour(changes);
    }

    /** The distance limit of the day is added to what is left. */
    method Refuel()
      modifies this`remainingDistance
      ensures Snapshot() == old(Snapshot()).(remaining := old(remainingDistance) + distanceLimit)
    {
      remainingDistance := remainingDistance + distanceLimit;
    }

    /** Packages are handed over where the courier stands, and it travels on from there. */
    method Tour(changes: seq<Change>) returns (after: seq<Change>)
      requires MapValid() && Valid()
      modifies this, parcels
      ensures Valid() && day == old(day) && parcels == old(parcels)
      ensures Snapshot() == Round(roads, old(Snapshot())).0 && after == changes + Round(roads, old(Snapshot())).1
      ensures SpotsOf(parcels) == RoundSpots(roads, old(Snapshot()), old(SpotsOf(parcels)))
    {
      ghost var visit := HandOut(Snapshot());
      var visited := Visit(changes);
      after := Travel(visited);
      JoinRecords(changes, visit.1, Drive(roads, visit.0).1);
    }

    /** The hand-over in the courier's city, as the day's simulation needs it. */
    method Visit(changes: seq<Change>) returns (after: seq<Change>)
      requires Valid()
      modifies this, parcels
      ensures Valid() && parcels == old(parcels) && day == old(day)
      ensures Snapshot() == HandOut(old(Snapshot())).0 && after == changes + HandOut(old(Snapshot())).1
      ensures SpotsOf(parcels) == HandOutSpots(old(Snapshot()), old(SpotsOf(parcels)))
    {
      WithinObjects(Get(toPickUp, location), parcels);
      WithinObjects(Get(toDeliver, location), parcels);
      ghost var picked, list := Get(toPickUp, location), Get(toDeliver, location);
      ghost var handed := Delivery(list, inDelivery + picked);
      ghost var spots := HandOutSpots(Snapshot(), SpotsOf(parcels));
      after := HandleOnLocationDeliveries(changes);
      JoinRecords(changes, Stamp(picked, old(day), IN_DELIVERY), Stamp(handed.0, old(day), DELIVERED));
      DeliveryMeaning(list, old(inDelivery) + picked);
      forall p | p in parcels
        ensures SpotsOf(parcels)[p] == spots[p]
      {
      }
    }

    /** A move, as the day's simulation needs it. */
    method Step() returns (moved: bool)
      requires MapValid() && Valid()
      modifies this, parcels
      ensures Valid() && parcels == old(parcels) && day == old(day)
      ensures moved <==> CanMove(roads, old(Snapshot()))
      ensures moved ==>
        location == old(path)[0] && path == old(path)[1..]
        && remainingDistance == old(remainingDistance) - roads[old(location)][old(path)[0]]
      ensures !moved ==> location == old(location) && path == old(path) && remainingDistance == old(remainingDistance)
      ensures inDelivery == old(inDelivery) && toPickUp == old(toPickUp) && toDeliver == old(toDeliver)
      ensures SpotsOf(parcels) == if moved then Carry(old(SpotsOf(parcels)), inDelivery, location) else old(SpotsOf(parcels))
    {
      moved := Move();
      forall p | p in parcels
        ensures SpotsOf(parcels)[p] == (if moved then Carry(old(SpotsOf(parcels)), inDelivery, location) else old(SpotsOf(parcels)))[p]
      {
      }
    }

    /**
     * Moves on along the path, handing over packages in every city reached,
     * for as long as the next road is no longer than the distance left.
     */
    method Travel(changes: seq<Change>) returns (after: seq<Change>)
      requires MapValid() && Valid()
      modifies this, parcels
      ensures Valid() && day == old(day) && parcels == old(parcels)
      ensures Snapshot() == Drive(roads, old(Snapshot())).0 && after == changes + Drive(roads, old(Snapshot())).1
      ensures SpotsOf(parcels) == DriveSpots(roads, old(Snapshot()), old(SpotsOf(parcels)))
    {
      after := changes;
      var moved := true;
      while moved
        invariant Valid() && day == old(day) && parcels == old(parcels)
        invariant Driving(roads, old(Snapshot()), changes, Snapshot(), after)
        invariant DriveSpots(roads, old(Snapshot()), old(SpotsOf(parcels))) == DriveSpots(roads, Snapshot(), SpotsOf(parcels))
        invariant !moved ==> !CanMove(roads, Snapshot())
        decreases |path| + (if moved then 1 else 0)
      {
        moved, after := Advance(after);
      }
      assert after + [] == after;
    }

    /** One move along the path, and the hand-over in the city reached. */
    method Advance(changes: seq<Change>) returns (moved: bool, after: seq<Change>)
      requires MapValid() && Valid()
      modifies this, parcels
      ensures Valid() && day == old(day) && parcels == old(parcels)
      ensures moved ==> |path| < |old(path)|
      ensures !moved ==> path == old(path)
      ensures Driving(roads, old(Snapshot()), changes, Snapshot(), after)
      ensures DriveSpots(roads, old(Snapshot()), old(SpotsOf(parcels))) == DriveSpots(roads, Snapshot(), SpotsOf(parcels))
      ensures !moved ==> !CanMove(roads, Snapshot())
    {
      ghost var start := Snapshot();
      moved := Step();
      after := changes;
      if moved {
        ghost var reached := Snapshot();
        assert reached == Moved(roads, start);
        ghost var carried := SpotsOf(parcels);
        after := Visit(after);
        JoinRecords(changes, HandOut(reached).1, Drive(roads, HandOut(reached).0).1);
        assert SpotsOf(parcels) == HandOutSpots(reached, carried);
      }
    }

    /**
     * shiftTime: simulates the given number of days (none when it is not
     * positive); the changes of status, day by day.
     */
    method ShiftTime(days: int) returns (changes: seq<Change>, ghost run: Run)
      requires MapValid() && Valid()
      modifies this, parcels
      ensures MapValid() && Valid() && parcels == old(parcels)
      ensures day == old(day) + Elapsed(days)
      ensures Lived(roads, distanceLimit, old(Snapshot()), Elapsed(days), run, changes)
      ensures |run.trips| > day - old(day) && run.trips[day - old(day)] == Snapshot()
      ensures DatedIn(changes, old(day), day)
      ensures SpotsOf(parcels) == DaysSpots(roads, distanceLimit, old(Snapshot()), old(SpotsOf(parcels)), Elapsed(days))
    {
      changes := [];
      ghost var n := Elapsed(days);
      run := Run([Snapshot()], []);
      var i := 0;
      while i < days
        invariant Valid() && parcels == old(parcels)
        invariant 0 <= i <= n && day == old(day) + i
        invariant Lived(roads, distanceLimit, old(Snapshot()), i, run, changes) && run.trips[i] == Snapshot()
        invariant DatedIn(changes, old(day), day)
        invariant SpotsOf(parcels) == DaysSpots(roads, distanceLimit, old(Snapshot()), old(SpotsOf(parcels)), i)
      {
        changes, run := NextDay(changes, old(Snapshot()), old(SpotsOf(parcels)), i, run);
        i := i + 1;
      }
      assert i == n;
    }

    /**
     * One more day of a run of i days from trip start, whose packages were
     * at startSpots: the run of i + 1 days, whose records are those of the i
     * days and then those of the day, and the packages are where the i + 1
     * days take them.
     */
    method NextDay(changes: seq<Change>, ghost start: Trip, ghost startSpots: map<Package, Spot>, ghost i: nat,
                   ghost run: Run)
      returns (after: seq<Change>, ghost longer: Run)
      requires MapValid() && Valid()
      requires Lived(roads, distanceLimit, start, i, run, changes) && run.trips[i] == Snapshot()
      requires day == start.day + i && DatedIn(changes, start.day, day)
      requires SpotsOf(parcels) == DaysSpots(roads, distanceLimit, start, startSpots, i)
      modifies this, parcels
      ensures Valid() && parcels == old(parcels) && day == old(day) + 1
      ensures Lived(roads, distanceLimit, start, i + 1, longer, after) && longer.trips[i + 1] == Snapshot()
      ensures DatedIn(after, start.day, day)
      ensures SpotsOf(parcels) == DaysSpots(roads, distanceLimit, start, startSpots, i + 1)
    {
      HistoryDays(roads, distanceLimit, run);
      ghost var before := Snapshot();
      ghost var passed := DayMeaning(roads, distanceLimit, before);
      after := ShiftDay(changes);
      ghost var today := Day(roads, distanceLimit, before).1;
      DatedWiden(changes, start.day, day - 1, start.day, day);
      DatedWiden(today, day - 1, day, start.day, day);
      DatedJoin(changes, today, start.day, day);
      HistoryStep(roads, distanceLimit, run, Snapshot(), today);
      FlattenNext(run.daily, today);
      longer := Run(run.trips + [Snapshot()], run.daily + [today]);
    }
  }
}
