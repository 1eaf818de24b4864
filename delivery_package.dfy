/**
 * A package of the delivery service: its id, the city it is in and its
 * status. A change of status is recorded as (package id, day, new status).
 */
module DeliveryPackage {

  /** The statuses in the order the log sorts them. */
  datatype PackageStatus = NOT_PICKED_UP | IN_DELIVERY | DELIVERED

  /** The position of a status in the order of its declaration. */
  function Rank(s: PackageStatus): (r: nat)
    ensures r < 3
  {
    match s
    case NOT_PICKED_UP => 0
    case IN_DELIVERY => 1
    case DELIVERED => 2
  }

  /** Different statuses have different positions. */
  lemma RankInjective(s: PackageStatus, u: PackageStatus)
    ensures Rank(s) == Rank(u) ==> s == u
  {
  }

  /** The log line of a status. */
  function StatusMessage(s: PackageStatus): string
  {
    match s
    case NOT_PICKED_UP => "not picked up"
    case IN_DELIVERY => "in delivery"
    case DELIVERED => "delivered"
  }

  /** A change of a package's status on a day. */
  datatype Change = Change(id: int, day: int, status: PackageStatus)

  class Package {
    const id: int
    var location: string
    var status: PackageStatus

    /** A new package; its status is NOT_PICKED_UP unless another is given. */
    constructor(id: int, location: string, status: PackageStatus := NOT_PICKED_UP)
      ensures this.id == id && this.location == location && this.status == status
    {
      this.id := id;
      this.location := location;
      this.status := status;
    }

    method ChangeLocation(newLocation: string)
      modifies this
      ensures location == newLocation && status == old(status)
    {
      location := newLocation;
    }

    method ChangePackageStatus(newStatus: PackageStatus)
      modifies this
      ensures status == newStatus && location == old(location)
    {
      status := newStatus;
    }
  }
}
