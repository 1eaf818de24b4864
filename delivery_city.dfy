/**
 * A city of the delivery map. Its neighbours are stored with their distances
 * and are looked up by name: two city objects with the same name are the
 * same city to the lookup, to the hashing of neighbours and to equality.
 */
module DeliveryCity {

  class City {
    const name: string
    var neighbours: map<string, int>

    /** A city never neighbours itself and every stored distance is at least 0. */
    predicate Valid()
      reads this
    {
      name !in neighbours && forall n :: n in neighbours ==> neighbours[n] >= 0
    }

    constructor(name: string)
      ensures this.name == name && neighbours == map[] && Valid()
    {
      this.name := name;
      neighbours := map[];
    }

    /**
     * Adds city at distance, unless the distance is negative, the city has
     * this city's name, or it is a neighbour already: the first accepted
     * distance stays.
     */
    method AddNeighbour(city: City, distance: int)
      requires Valid()
      modifies this
      ensures Valid()
      ensures IsNeighbourTo(city) <==> old(IsNeighbourTo(city)) || (distance >= 0 && city.name != name)
      ensures old(IsNeighbourTo(city)) ==> neighbours == old(neighbours)
      ensures IsNeighbourTo(city) && !old(IsNeighbourTo(city)) ==> DistanceTo(city) == distance
      ensures forall n :: n != city.name ==> (n in neighbours <==> n in old(neighbours))
      ensures forall n :: n in old(neighbours) ==> n in neighbours && neighbours[n] == old(neighbours)[n]
      ensures neighbours == if old(IsNeighbourTo(city)) || distance < 0 || city.name == name then old(neighbours)
        else old(neighbours)[city.name := distance]
    {
      if distance < 0 || name == city.name || city.name in neighbours {
        return;
      }
      neighbours := neighbours[city.name := distance];
    }

    predicate IsNeighbourTo(city: City)
      reads this
    {
      city.name in neighbours
    }

    /** The distance to a neighbour; -1 for any other city. */
    function DistanceTo(city: City): (d: int)
      requires Valid()
      reads this
      ensures d >= 0 <==> IsNeighbourTo(city)
      ensures d < 0 ==> d == -1
    {
      if IsNeighbourTo(city) then neighbours[city.name] else -1
    }

    /** Cities are equal when their names are. */
    predicate Equals(other: City)
    {
      name == other.name
    }
  }

  /** Two objects for the same name are the same neighbour, at the same distance. */
  lemma LookupByName(c: City, a: City, b: City)
    requires c.Valid() && a.Equals(b)
    ensures c.IsNeighbourTo(a) == c.IsNeighbourTo(b) && c.DistanceTo(a) == c.DistanceTo(b)
  {
  }
}
