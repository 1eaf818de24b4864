/**
 * The delivery service: it reads post receipts, numbers the packages it
 * accepts, prices them by distance and weight, has the courier handler
 * deliver them, simulates days, and keeps a log of every change of a
 * package's status, sorted by day, status and package id.
 */
module DeliveryService {
  import opened DeliveryGraph
  import opened DeliveryMap
  import opened DeliveryPackage
  import opened DeliveryCourier
  import opened DeliveryHandler
  import opened DeliveryReceipt

  // -------------------------------------------------------------------------
  // The price of a package

  /**
   * The weight multipliers, heaviest threshold first: a package of at least
   * the threshold in grams costs the multiplier times its distance price.
   */
  const WEIGHT_MULTIPLIERS: seq<(int, int)> := [(10000, 7), (5000, 5), (2000, 4), (1000, 3), (100, 2)]

  /** The multiplier of a weight by the weight bands: 1 below 100 grams, up to 7 from 10 kilograms. */
  function Multiplier(weight: int): (m: int)
    ensures 1 <= m <= 7
    ensures m == 1 <==> weight < 100
  {
    if weight >= 10000 then 7
    else if weight >= 5000 then 5
    else if weight >= 2000 then 4
    else if weight >= 1000 then 3
    else if weight >= 100 then 2
    else 1
  }

  /** A heavier package never has a smaller multiplier. */
  lemma MultiplierMonotone(lighter: int, heavier: int)
    requires lighter <= heavier
    ensures Multiplier(lighter) <= Multiplier(heavier)
  {
  }

  /** Each threshold is where its multiplier starts: a gram less has a smaller one. */
  lemma MultiplierThresholds(k: nat)
    requires k < |WEIGHT_MULTIPLIERS|
    ensures Multiplier(WEIGHT_MULTIPLIERS[k].0) == WEIGHT_MULTIPLIERS[k].1
    ensures Multiplier(WEIGHT_MULTIPLIERS[k].0 - 1) < WEIGHT_MULTIPLIERS[k].1
  {
  }

  /**
   * deliveryPriceCalculation: the first threshold, heaviest first, that the
   * weight reaches gives the multiplier of the price for the distance; a
   * weight below every threshold keeps that price.
   */
  method DeliveryPriceCalculation(weight: int, priceForDistance: int) returns (price: int)
    ensures price == Multiplier(weight) * priceForDistance
  {
    var k := 0;
    while k < |WEIGHT_MULTIPLIERS|
      invariant 0 <= k <= |WEIGHT_MULTIPLIERS|
      invariant forall j :: 0 <= j < k ==> weight < WEIGHT_MULTIPLIERS[j].0
    {
      if WEIGHT_MULTIPLIERS[k].0 <= weight {
        assert Multiplier(weight) == WEIGHT_MULTIPLIERS[k].1 by {
          if k > 0 {
            assert weight < WEIGHT_MULTIPLIERS[k - 1].0;
          }
        }
        return WEIGHT_MULTIPLIERS[k].1 * priceForDistance;
      }
      k := k + 1;
    }
    assert weight < WEIGHT_MULTIPLIERS[|WEIGHT_MULTIPLIERS| - 1].0;
    return priceForDistance;
  }

  // -------------------------------------------------------------------------
  // The order of the log

  /** a may come before b in the log: an earlier day, then a lower status, then a lower package id. */
  predicate LogOrdered(a: Change, b: Change)
  {
    a.day < b.day
    || (a.day == b.day && (Rank(a.status) < Rank(b.status) || (a.status == b.status && a.id <= b.id)))
  }

  /** The comparator of the log, which orders by day, then status, then id, strictly. */
  predicate Precedes(a: Change, b: Change)
  {
    a.day < b.day
    || (a.day == b.day && Rank(a.status) < Rank(b.status))
    || (a.day == b.day && a.status == b.status && a.id < b.id)
  }

  /** The order of the log is the comparator or equality, and of any two changes one comes first. */
  lemma LogOrderedPrecedes(a: Change, b: Change)
    ensures LogOrdered(a, b) <==> Precedes(a, b) || a == b
    ensures LogOrdered(a, b) || LogOrdered(b, a)
  {
    RankInjective(a.status, b.status);
  }

  /** Two changes each of which may come before the other are the same change. */
  lemma LogOrderedAntisymmetric(a: Change, b: Change)
    requires LogOrdered(a, b) && LogOrdered(b, a)
    ensures a == b
  {
    RankInjective(a.status, b.status);
  }

  lemma LogOrderedTransitive(a: Change, b: Change, c: Change)
    requires LogOrdered(a, b) && LogOrdered(b, c)
    ensures LogOrdered(a, c)
  {
    RankInjective(a.status, b.status);
    RankInjective(b.status, c.status);
  }

  /** Changes in the order of the log. */
  predicate Sorted(s: seq<Change>)
  {
    forall i, j :: 0 <= i < j < |s| ==> LogOrdered(s[i], s[j])
  }

  /**
   * Two sorted arrangements of the same changes are the same: what the log
   * holds does not depend on the order in which the changes are reported.
   */
  lemma {:induction false} SortedUnique(s: seq<Change>, t: seq<Change>)
    requires Sorted(s) && Sorted(t) && multiset(s) == multiset(t)
    ensures s == t
    decreases |s|
  {
    assert |s| == |multiset(s)| == |t|;
    if s != [] {
      assert s[0] in multiset(t) && t[0] in multiset(s);
      var k :| 0 <= k < |t| && t[k] == s[0];
      var m :| 0 <= m < |s| && s[m] == t[0];
      assert LogOrdered(t[0], s[0]) by {
        if k > 0 {
          assert LogOrdered(t[0], t[k]);
        }
      }
      assert LogOrdered(s[0], t[0]) by {
        if m > 0 {
          assert LogOrdered(s[0], s[m]);
        }
      }
      LogOrderedAntisymmetric(s[0], t[0]);
      Rest(s);
      Rest(t);
      SortedUnique(s[1..], t[1..]);
    }
  }

  /** What follows the first change of a sequence: the changes of the sequence but that first one. */
  lemma Rest(s: seq<Change>)
    requires s != []
    ensures multiset(s[1..]) == multiset(s) - multiset{s[0]}
  {
    assert s == [s[0]] + s[1..];
  }

  /** The sorted changes with c put in its place: before the first change that does not come before it. */
  function Insert(c: Change, s: seq<Change>): (r: seq<Change>)
    requires Sorted(s)
    ensures Sorted(r) && multiset(r) == multiset(s) + multiset{c}
    decreases |s|
  {
    if s == [] then [c]
    else if LogOrdered(c, s[0]) then
      InsertFront(c, s);
      [c] + s
    else
      var rest := Insert(c, s[1..]);
      InsertBehind(c, s, rest);
      [s[0]] + rest
  }

  /** A change that comes before the first of a sorted sequence comes before all of it. */
  lemma InsertFront(c: Change, s: seq<Change>)
    requires Sorted(s) && s != [] && LogOrdered(c, s[0])
    ensures Sorted([c] + s)
  {
    forall j | 0 <= j < |s|
      ensures LogOrdered(c, s[j])
    {
      LogOrderedTransitive(c, s[0], s[j]);
    }
    SortedCons(c, s);
  }

  /** The first of a sorted sequence, followed by the rest with c inserted, when c does not come before it. */
  lemma InsertBehind(c: Change, s: seq<Change>, rest: seq<Change>)
    requires Sorted(s) && s != [] && !LogOrdered(c, s[0])
    requires Sorted(rest) && multiset(rest) == multiset(s[1..]) + multiset{c}
    ensures Sorted([s[0]] + rest) && multiset([s[0]] + rest) == multiset(s) + multiset{c}
  {
    LogOrderedPrecedes(c, s[0]);
    assert s == [s[0]] + s[1..];
    forall j | 0 <= j < |rest|
      ensures LogOrdered(s[0], rest[j])
    {
      if rest[j] != c {
        assert rest[j] in multiset(rest);
        assert rest[j] in multiset(s[1..]);
        var m :| 0 <= m < |s| - 1 && s[1..][m] == rest[j];
        assert s[m + 1] == rest[j];
      }
    }
    SortedCons(s[0], rest);
  }

  /** A change that comes before every change of a sorted sequence, followed by that sequence, is sorted. */
  lemma SortedCons(c: Change, s: seq<Change>)
    requires Sorted(s) && forall j :: 0 <= j < |s| ==> LogOrdered(c, s[j])
    ensures Sorted([c] + s)
  {
    var r := [c] + s;
    forall i, j | 0 <= i < j < |r|
      ensures LogOrdered(r[i], r[j])
    {
      assert r[j] == s[j - 1];
      if i > 0 {
        assert r[i] == s[i - 1];
      }
    }
  }

  /**
   * log: the changes as they are written to the log file, sorted by day,
   * then status, then package id (the std::sort of log, as an insertion
   * sort).
   */
  function Log(changes: seq<Change>): (lines: seq<Change>)
    ensures Sorted(lines) && multiset(lines) == multiset(changes)
  {
    if changes == [] then []
    else
      var k := |changes| - 1;
      assert changes == changes[..k] + [changes[k]];
      Insert(changes[k], Log(changes[..k]))
  }

  // -------------------------------------------------------------------------
  // Messages

  /** The line the log file gets for a change. */
  function LogLine(c: Change): string
  {
    "Status of package " + Show(c.id) + " was changed on the day " + Show(c.day) + " to: " + StatusMessage(c.status)
    + "\n"
  }

  /** The text of the log file that holds the changes, in order. */
  function LogText(changes: seq<Change>): string
  {
    if changes == [] then [] else LogText(changes[..|changes| - 1]) + LogLine(changes[|changes| - 1])
  }

  /** The answer about a package the service does not have. */
  function NotFoundMessage(packageId: int): string
  {
    "Package with ID " + Show(packageId) + " was not found"
  }

  /** The answer about a package: its id, its current location and its current status. */
  function FoundMessage(packageId: int, location: string, status: PackageStatus): string
  {
    "Package ID: " + Show(packageId) + "\nCurrent location: " + location + "\nCurrent status: " + StatusMessage(status)
  }

  /** The numbers of the packages: 101, 102, ... */
  const PACKAGE_ID_OFFSET := 100

  /** The ids are those numbered before next: PACKAGE_ID_OFFSET + 1 up to PACKAGE_ID_OFFSET + next - 1. */
  predicate Numbered(ids: set<int>, next: int)
  {
    (forall k :: k in ids ==> PACKAGE_ID_OFFSET < k < PACKAGE_ID_OFFSET + next)
    && (forall k :: PACKAGE_ID_OFFSET < k < PACKAGE_ID_OFFSET + next ==> k in ids)
  }

  /** The handler works on a well-formed connected map and its couriers have reached day. */
  ghost predicate Serving(handler: CourierHandler, day: int)
    reads handler, handler.cityMap, handler.cityMap.cities.Values, handler.basicCouriers.Values,
          handler.firstClassCouriers.Values
  {
    handler.MapValid() && handler.Valid(day)
  }

  /**
   * The handler simulates a number of days that is not negative, from day
   * on: its couriers live those days, and the changes are those they report,
   * every basic courier's and then every first-class courier's.
   */
  method Advance(handler: CourierHandler, days: int, ghost day: int)
    returns (changed: seq<Change>, ghost basicRecords: seq<seq<Change>>, ghost firstClassRecords: seq<seq<Change>>,
             ghost basicAfter: seq<Trip>, ghost firstClassAfter: seq<Trip>)
    requires Serving(handler, day) && days >= 0
    modifies handler.basicCouriers.Values, handler.firstClassCouriers.Values,
             Parcels(handler.basicCouriers), Parcels(handler.firstClassCouriers)
    ensures handler.MapValid() && handler.Valid(day + Elapsed(days)) && DatedIn(changed, day, day + Elapsed(days))
    ensures Reported(handler.roads, Elapsed(days), Limits(handler.basicCouriers, handler.basicOrder),
                     Limits(handler.firstClassCouriers, handler.firstClassOrder),
                     old(Trips(handler.basicCouriers, handler.basicOrder)),
                     old(Trips(handler.firstClassCouriers, handler.firstClassOrder)),
                     basicAfter, firstClassAfter, changed, basicRecords, firstClassRecords)
    ensures basicAfter == Trips(handler.basicCouriers, handler.basicOrder)
    ensures firstClassAfter == Trips(handler.firstClassCouriers, handler.firstClassOrder)
  {
    assert Elapsed(days) == days;
    changed, basicRecords, firstClassRecords, basicAfter, firstClassAfter := handler.ShiftTime(days, day);
  }

  /**
   * The handler chose, among the couriers of courierType listed in order,
   * the one at position best, whose candidate route from source to
   * destination is the cheapest, and price is that distance times the price
   * per distance of the type.
   */
  ghost predicate Assigned(handler: CourierHandler, source: string, destination: string, courierType: CourierType,
                           price: int, best: nat, distance: int, locations: seq<string>, paths: seq<seq<string>>,
                           routes: seq<seq<string>>)
  {
    Cheapest(handler.roads, locations, paths, source, destination, routes, best, distance)
    && price == distance * PricePerDistance(courierType)
    && best < |handler.RelevantOrder(courierType)|
  }

  /** The handler gives the package to the courier of the type whose route from source to destination is cheapest. */
  method Assign(handler: CourierHandler, package: Package, source: string, destination: string,
                courierType: CourierType, ghost day: int)
    returns (price: int, ghost best: nat, ghost distance: int, ghost locations: seq<string>,
             ghost paths: seq<seq<string>>, ghost routes: seq<seq<string>>)
    requires Serving(handler, day) && source in handler.cityMap.cities && destination in handler.cityMap.cities
    modifies handler.basicCouriers.Values, handler.firstClassCouriers.Values
    ensures Serving(handler, day)
    ensures Assigned(handler, source, destination, courierType, price, best, distance, locations, paths, routes)
  {
    price, best, distance, locations, paths, routes :=
      handler.AssignPackage(package, source, destination, courierType, day);
  }

  class DeliveryService {
    var day: int
    /** The packages sent, by id. */
    var packages: map<int, Package>
    const courierHandler: CourierHandler
    const cityMap: Map
    var packageNextId: int
    /** Every change written to the log file, in order; the file holds LogText(logged). */
    var logged: seq<Change>

    /**
     * The handler works on the service's map and its couriers have reached
     * the service's day; the packages are those numbered so far, each stored
     * under its own id.
     */
    ghost predicate Valid()
      reads this`day, this`packages, this`packageNextId, courierHandler, cityMap, cityMap.cities.Values, courierHandler.basicCouriers.Values,
            courierHandler.firstClassCouriers.Values
    {
      courierHandler.cityMap == cityMap && Serving(courierHandler, day) && Books()
    }

    /** The packages are those numbered so far, each stored under its own id. */
    ghost predicate Books()
      reads this`packages, this`packageNextId
    {
      packageNextId >= 1 && Numbered(packages.Keys, packageNextId) && forall k :: k in packages ==> packages[k].id == k
    }

    /** The service on day 0, with no package yet and an empty log. */
    constructor(courierHandler: CourierHandler, cityMap: Map)
      requires courierHandler.cityMap == cityMap && courierHandler.MapValid() && courierHandler.Valid(0)
      ensures Valid() && this.courierHandler == courierHandler && this.cityMap == cityMap
      ensures day == 0 && packages == map[] && packageNextId == 1 && logged == []
    {
      this.courierHandler := courierHandler;
      this.cityMap := cityMap;
      day := 0;
      packages := map[];
      packageNextId := 1;
      logged := [];
    }

    /**
     * DeliveryService's constructor: it fails as the courier handler's
     * constructor does; otherwise the service is on day 0 with the handler's
     * couriers.
     */
    static method Create(cityMap: Map, numberOfBasicCouriers: int, numberOfFirstClassCouriers: int,
                         startingLocation: string, distanceLimitBasicCourier: int,
                         distanceLimitFirstClassCourier: int)
      returns (r: Result<DeliveryService, HandlerError>)
      requires cityMap.Valid() && Connected(cityMap.Graph())
      ensures r.Success? <==>
        startingLocation in cityMap.cities && numberOfBasicCouriers >= 1 && numberOfFirstClassCouriers >= 1
      ensures startingLocation !in cityMap.cities ==> r == Failure(StartingCityInvalid)
      ensures startingLocation in cityMap.cities && (numberOfBasicCouriers < 1 || numberOfFirstClassCouriers < 1)
        ==> r == Failure(CourierCountBelowOne)
      ensures r.Success? ==>
        fresh(r.value) && r.value.Valid() && r.value.cityMap == cityMap && r.value.day == 0
        && r.value.packages == map[] && r.value.logged == []
        && Staffed(r.value.courierHandler.basicCouriers, r.value.courierHandler.firstClassCouriers, startingLocation,
                   cityMap, cityMap.Graph(), numberOfBasicCouriers, numberOfFirstClassCouriers,
                   distanceLimitBasicCourier, distanceLimitFirstClassCourier)
    {
      var handler := CourierHandler.Create(numberOfBasicCouriers, numberOfFirstClassCouriers, startingLocation,
                                           cityMap, distanceLimitBasicCourier, distanceLimitFirstClassCourier);
      if handler.Failure? {
        return Failure(handler.error);
      }
      var service := new DeliveryService(handler.value, cityMap);
      return Success(service);
    }

    /**
     * getPackageInformation: for a package of the service, its id, current
     * location and current status; otherwise that it was not found. The two
     * answers are told apart by their beginning.
     */
    function GetPackageInformation(packageId: int): (info: string)
      reads this, packages.Values
      ensures packageId in packages <==> |info| >= 12 && info[..12] == "Package ID: "
      ensures packageId in packages ==>
        |info| >= |StatusMessage(packages[packageId].status)|
        && info[|info| - |StatusMessage(packages[packageId].status)|..] == StatusMessage(packages[packageId].status)
    {
      if packageId in packages then
        var package := packages[packageId];
        FoundMessage(package.id, package.location, package.status)
      else
        var message := NotFoundMessage(packageId);
        assert message[8] == 'w';
        message
    }

    /**
     * sendPackage: a receipt that fails a check is rejected and changes
     * nothing, so it uses no id; an accepted one becomes package
     * PACKAGE_ID_OFFSET + packageNextId, not yet picked up in its source
     * city, which the handler gives to a courier of the requested type; its
     * price is the distance price times the multiplier of its weight, and
     * its creation is logged on the current day.
     */
    method SendPackage(postReceipt: string)
      returns (r: Result<(int, int), ReceiptError>, ghost priceForDistance: int, ghost best: nat,
               ghost distance: int, ghost locations: seq<string>, ghost paths: seq<seq<string>>,
               ghost routes: seq<seq<string>>)
      requires Valid()
      modifies this`packages, this`packageNextId, this`logged, courierHandler.basicCouriers.Values,
               courierHandler.firstClassCouriers.Values
      ensures Valid() && day == old(day)
      ensures r.Failure? <==> Validate(postReceipt, old(cityMap.cities.Keys)).Failure?
      ensures r.Failure? ==>
        r.error == Validate(postReceipt, old(cityMap.cities.Keys)).error && packages == old(packages)
        && packageNextId == old(packageNextId) && logged == old(logged)
        && unchanged(courierHandler.basicCouriers.Values) && unchanged(courierHandler.firstClassCouriers.Values)
      ensures r.Success? ==>
        var order := Validate(postReceipt, old(cityMap.cities.Keys)).value;
        r.value.0 == PACKAGE_ID_OFFSET + old(packageNextId)
        && Placed(order, r.value.0, r.value.1, priceForDistance, best, distance, locations, paths, routes,
                  old(packages), old(packageNextId), old(logged))
        && fresh(packages[r.value.0])
        && GetPackageInformation(r.value.0) == FoundMessage(r.value.0, order.source, NOT_PICKED_UP)
    {
      priceForDistance, best, distance, locations, paths, routes := 0, 0, 0, [], [], [];
      var checked := Validate(postReceipt, cityMap.cities.Keys);
      if checked.Failure? {
        return Failure(checked.error), priceForDistance, best, distance, locations, paths, routes;
      }
      var order := checked.value;
      var id, price;
      id, price, priceForDistance, best, distance, locations, paths, routes := Place(order);
      r := Success((id, price));
    }

    /**
     * The effect of accepting order: it became package id, numbered after
     * the packages before it and not yet picked up in its source city; the
     * handler gave it to the courier of the requested type whose route was
     * cheapest; price is the distance price times the multiplier of the
     * weight; and its creation was logged on the current day.
     */
    ghost predicate Placed(order: Order, id: int, price: int, priceForDistance: int, best: nat, distance: int,
                           locations: seq<string>, paths: seq<seq<string>>, routes: seq<seq<string>>,
                           before: map<int, Package>, nextBefore: int, loggedBefore: seq<Change>)
      reads this`day, this`packages, this`packageNextId, this`logged, packages.Values
    {
      id == PACKAGE_ID_OFFSET + nextBefore && id !in before && packageNextId == nextBefore + 1
      && id in packages && packages == before[id := packages[id]]
      && packages[id].location == order.source && packages[id].status == NOT_PICKED_UP
      && Assigned(courierHandler, order.source, order.destination, order.courierType, priceForDistance, best,
                  distance, locations, paths, routes)
      && price == Multiplier(order.weight) * priceForDistance
      && logged == loggedBefore + [Change(id, day, NOT_PICKED_UP)]
    }

    /**
     * The rest of sendPackage, once the receipt is accepted: the package is
     * numbered and stored, the handler assigns it, its price is computed and
     * its creation is logged.
     */
    method Place(order: Order)
      returns (id: int, price: int, ghost priceForDistance: int, ghost best: nat, ghost distance: int,
               ghost locations: seq<string>, ghost paths: seq<seq<string>>, ghost routes: seq<seq<string>>)
      requires Valid() && order.source in cityMap.cities && order.destination in cityMap.cities
      modifies this`packages, this`packageNextId, this`logged, courierHandler.basicCouriers.Values,
               courierHandler.firstClassCouriers.Values
      ensures Valid()
      ensures Placed(order, id, price, priceForDistance, best, distance, locations, paths, routes,
                     old(packages), old(packageNextId), old(logged))
      ensures fresh(packages[id])
    {
      var package := Admit(order.source);
      id := package.id;
      price, priceForDistance, best, distance, locations, paths, routes := Dispatch(package, order);
    }

    /**
     * The handler assigns the stored package, its price is computed and its
     * creation is logged.
     */
    method Dispatch(package: Package, order: Order)
      returns (price: int, ghost priceForDistance: int, ghost best: nat, ghost distance: int,
               ghost locations: seq<string>, ghost paths: seq<seq<string>>, ghost routes: seq<seq<string>>)
      requires Valid() && order.source in cityMap.cities && order.destination in cityMap.cities
      modifies this`logged, courierHandler.basicCouriers.Values, courierHandler.firstClassCouriers.Values
      ensures Valid()
      ensures Assigned(courierHandler, order.source, order.destination, order.courierType, priceForDistance, best,
                       distance, locations, paths, routes)
      ensures price == Multiplier(order.weight) * priceForDistance
      ensures logged == old(logged) + [Change(package.id, day, NOT_PICKED_UP)]
    {
      var forDistance;
      forDistance, best, distance, locations, paths, routes :=
        Assign(courierHandler, package, order.source, order.destination, order.courierType, day);
      priceForDistance := forDistance;
      price := DeliveryPriceCalculation(order.weight, forDistance);
      Note(Change(package.id, day, NOT_PICKED_UP));
    }

    /** log, for a single change, which is already in log order. */
    method Note(change: Change)
      requires Serving(courierHandler, day) && Books() && courierHandler.cityMap == cityMap
      modifies this`logged
      ensures Valid() && logged == old(logged) + [change]
    {
      logged := logged + [change];
    }

    /** A new package, not yet picked up in source, is numbered and stored under its id. */
    method Admit(source: string) returns (package: Package)
      requires Books()
      modifies this`packages, this`packageNextId
      ensures Books() && fresh(package)
      ensures package.id == PACKAGE_ID_OFFSET + old(packageNextId) && package.id !in old(packages)
      ensures package.location == source && package.status == NOT_PICKED_UP
      ensures packages == old(packages)[package.id := package] && packageNextId == old(packageNextId) + 1
    {
      var id := PACKAGE_ID_OFFSET + packageNextId;
      packageNextId := packageNextId + 1;
      package := new Package(id, source);
      packages := packages[id := package];
    }

    /** The handler simulates a number of days that is not negative; the service itself is left as it is. */
    method Simulate(days: int)
      returns (changed: seq<Change>, ghost basicRecords: seq<seq<Change>>, ghost firstClassRecords: seq<seq<Change>>,
               ghost basicAfter: seq<Trip>, ghost firstClassAfter: seq<Trip>)
      requires Valid() && days >= 0
      modifies courierHandler.basicCouriers.Values, courierHandler.firstClassCouriers.Values,
               Parcels(courierHandler.basicCouriers), Parcels(courierHandler.firstClassCouriers)
      ensures courierHandler.MapValid() && courierHandler.Valid(old(day) + Elapsed(days))
      ensures DatedIn(changed, old(day), old(day) + Elapsed(days))
      ensures Reported(courierHandler.roads, Elapsed(days), Limits(courierHandler.basicCouriers, courierHandler.basicOrder),
                       Limits(courierHandler.firstClassCouriers, courierHandler.firstClassOrder),
                       old(Trips(courierHandler.basicCouriers, courierHandler.basicOrder)),
                       old(Trips(courierHandler.firstClassCouriers, courierHandler.firstClassOrder)),
                       basicAfter, firstClassAfter, changed, basicRecords, firstClassRecords)
      ensures basicAfter == Trips(courierHandler.basicCouriers, courierHandler.basicOrder)
      ensures firstClassAfter == Trips(courierHandler.firstClassCouriers, courierHandler.firstClassOrder)
      ensures day == old(day) && logged == old(logged) && Books()
      ensures packages == old(packages) && packageNextId == old(packageNextId)
    {
      changed, basicRecords, firstClassRecords, basicAfter, firstClassAfter := Advance(courierHandler, days, day);
    }

    /** The service moves on by days and logs the lines. */
    method Record(days: int, lines: seq<Change>, ghost basicAfter: seq<Trip>, ghost firstClassAfter: seq<Trip>)
      requires courierHandler.MapValid() && courierHandler.Valid(day + Elapsed(days)) && days >= 0
      requires Books() && courierHandler.cityMap == cityMap
      requires basicAfter == Trips(courierHandler.basicCouriers, courierHandler.basicOrder)
      requires firstClassAfter == Trips(courierHandler.firstClassCouriers, courierHandler.firstClassOrder)
      modifies this`day, this`logged
      ensures Valid() && day == old(day) + days && logged == old(logged) + lines
      ensures basicAfter == Trips(courierHandler.basicCouriers, courierHandler.basicOrder)
      ensures firstClassAfter == Trips(courierHandler.firstClassCouriers, courierHandler.firstClassOrder)
    {
      day, logged := day + days, logged + lines;
    }

    /**
     * shiftTime: a negative number of days is refused and changes nothing;
     * otherwise the handler simulates the days, their changes are logged,
     * and the service moves on by that many days. The couriers live those
     * days, going from their trips before to basicAfter and firstClassAfter,
     * and the changes are those they report, every basic courier's and then
     * every first-class courier's.
     */
    method ShiftTime(days: int)
      returns (ok: bool, ghost changes: seq<Change>, ghost lines: seq<Change>,
               ghost basicRecords: seq<seq<Change>>, ghost firstClassRecords: seq<seq<Change>>,
               ghost basicAfter: seq<Trip>, ghost firstClassAfter: seq<Trip>)
      requires Valid()
      modifies this`day, this`logged, courierHandler.basicCouriers.Values, courierHandler.firstClassCouriers.Values,
               Parcels(courierHandler.basicCouriers), Parcels(courierHandler.firstClassCouriers)
      ensures Valid()
      ensures ok <==> days >= 0
      ensures !ok ==>
        day == old(day) && logged == old(logged) && changes == [] && lines == []
        && unchanged(courierHandler.basicCouriers.Values) && unchanged(courierHandler.firstClassCouriers.Values)
      ensures ok ==>
        day == old(day) + days && DatedIn(changes, old(day), day)
        && logged == old(logged) + lines && Sorted(lines) && multiset(lines) == multiset(changes)
      ensures ok ==>
        Reported(courierHandler.roads, Elapsed(days), Limits(courierHandler.basicCouriers, courierHandler.basicOrder),
                 Limits(courierHandler.firstClassCouriers, courierHandler.firstClassOrder),
                 old(Trips(courierHandler.basicCouriers, courierHandler.basicOrder)),
                 old(Trips(courierHandler.firstClassCouriers, courierHandler.firstClassOrder)),
                 basicAfter, firstClassAfter, changes, basicRecords, firstClassRecords)
      ensures ok ==>
        basicAfter == Trips(courierHandler.basicCouriers, courierHandler.basicOrder)
        && firstClassAfter == Trips(courierHandler.firstClassCouriers, courierHandler.firstClassOrder)
    {
      ok, changes, lines, basicRecords, firstClassRecords, basicAfter, firstClassAfter := false, [], [], [], [], [], [];
      if days < 0 {
        return;
      }
      var changed;
      changed, basicRecords, firstClassRecords, basicAfter, firstClassAfter := Simulate(days);
      var sorted := Log(changed);
      Record(days, sorted, basicAfter, firstClassAfter);
      ok, changes, lines := true, changed, sorted;
    }
  }
}
