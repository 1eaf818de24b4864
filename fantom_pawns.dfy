/**
 * The pawns of the Fantom board game, a Scotland Yard variant: the agents
 * and the phantom stand on the numbered nodes of the board and travel along
 * a link of one kind of transport by handing in one ticket of that kind.
 * Whether the board has such a link is the board's business; it is given to
 * the moves as a function.
 */
module FantomPawns {
  datatype Option<T> = None | Some(value: T)

  /** The highest node number of the board. */
  const LAST_NODE := 202

  /** The tickets an agent starts with: bus, taxi, tram. */
  const AGENT_TICKETS: seq<int> := [10, 9, 5]

  /** The tickets the phantom starts with: bus, taxi, tram, sail, double. */
  const PHANTOM_TICKETS: seq<int> := [4, 3, 3, 2, 2]

  /** The rounds in which the phantom shows itself. */
  const PHANTOM_SHOWN: seq<int> := [3, 8, 13, 18, 24]

  /**
   * The element of a list of n tickets that index way addresses: a negative
   * index counts from the end; None where the indexing raises IndexError.
   */
  function Slot(way: int, n: nat): (k: Option<nat>)
    ensures k.Some? <==> 0 <= way + n && way < n
    ensures k.Some? ==> k.value < n && (k.value == way || k.value == way + n)
    ensures way >= 0 && k.Some? ==> k.value == way
  {
    if 0 <= way < n then Some(way) else if 0 <= way + n && way < 0 then Some(way + n) else None
  }

  /** No ticket count is negative. */
  predicate NonNegative(tickets: seq<int>)
  {
    forall i :: 0 <= i < |tickets| ==> tickets[i] >= 0
  }

  /** The number of tickets of every kind together. */
  function Total(tickets: seq<int>): int
  {
    if tickets == [] then 0 else Total(tickets[..|tickets| - 1]) + tickets[|tickets| - 1]
  }

  /** Counts that are not negative add up to a total that is not negative. */
  lemma {:induction false} TotalNonNegative(tickets: seq<int>)
    requires NonNegative(tickets)
    ensures Total(tickets) >= 0
  {
    if tickets != [] {
      TotalNonNegative(tickets[..|tickets| - 1]);
    }
  }

  /** Lowering one count by one lowers the total by one. */
  lemma {:induction false} TotalLowered(tickets: seq<int>, k: nat)
    requires k < |tickets|
    ensures Total(tickets[k := tickets[k] - 1]) == Total(tickets) - 1
  {
    var lowered := tickets[k := tickets[k] - 1];
    var n := |tickets| - 1;
    if k < n {
      assert lowered[..n] == tickets[..n][k := tickets[k] - 1];
      TotalLowered(tickets[..n], k);
    } else {
      assert lowered[..n] == tickets[..n];
    }
  }

  /**
   * A move to node to by ticket kind way is allowed: the node is on the
   * board, the board links the position to it by that kind, the kind is a
   * kind of the pawn's tickets and one of them is left.
   */
  ghost predicate Allowed(tickets: seq<int>, position: Option<int>, to: int, way: int,
                          existsPath: (Option<int>, int, int) -> bool)
  {
    to <= LAST_NODE && existsPath(position, to, way)
    && Slot(way, |tickets|).Some? && tickets[Slot(way, |tickets|).value] > 0
  }

  /**
   * The tickets after handing in one of kind way: that count is one lower,
   * the others are as they were, so the total is one lower, and counts that
   * were not negative stay so.
   */
  function Spend(tickets: seq<int>, way: int): (spent: seq<int>)
    requires Slot(way, |tickets|).Some? && tickets[Slot(way, |tickets|).value] > 0
    ensures |spent| == |tickets|
    ensures spent[Slot(way, |tickets|).value] == tickets[Slot(way, |tickets|).value] - 1
    ensures forall i :: 0 <= i < |tickets| && i != Slot(way, |tickets|).value ==> spent[i] == tickets[i]
    ensures Total(spent) == Total(tickets) - 1
    ensures NonNegative(tickets) ==> NonNegative(spent)
  {
    var k := Slot(way, |tickets|).value;
    TotalLowered(tickets, k);
    tickets[k := tickets[k] - 1]
  }

  /**
   * A pawn: an agent or the phantom. Both keep their position, None until
   * they are placed, and their ticket counts, which never become negative.
   * The phantom also knows the rounds in which it shows itself; an agent has
   * none.
   */
  class Pawn {
    const tag: string
    const shown: seq<int>
    var position: Option<int>
    var tickets: seq<int>

    ghost predicate Valid()
      reads this`tickets
    {
      NonNegative(tickets)
    }

    /** Agent: not placed yet, with 10 bus, 9 taxi and 5 tram tickets. */
    constructor Agent(tag: string)
      ensures Valid() && this.tag == tag && position == None && tickets == AGENT_TICKETS && shown == []
    {
      this.tag := tag;
      shown := [];
      position := None;
      tickets := AGENT_TICKETS;
    }

    /**
     * Phantom: not placed yet, with 4 bus, 3 taxi, 3 tram, 2 sail and 2
     * double tickets, and shown in rounds 3, 8, 13, 18 and 24.
     */
    constructor Phantom(tag: string := "black")
      ensures Valid() && this.tag == tag && position == None && tickets == PHANTOM_TICKETS
      ensures shown == PHANTOM_SHOWN
    {
      this.tag := tag;
      shown := PHANTOM_SHOWN;
      position := None;
      tickets := PHANTOM_TICKETS;
    }

    /** place: a node beyond the board is refused and the pawn stays where it was; otherwise it stands there. */
    method Place(node: int) returns (ok: bool)
      modifies this`position
      ensures ok <==> node <= LAST_NODE
      ensures ok ==> position == Some(node)
      ensures !ok ==> position == old(position)
    {
      if node > LAST_NODE {
        return false;
      }
      position := Some(node);
      return true;
    }

    /**
     * move: an allowed move takes the pawn to the node and uses up one
     * ticket of the kind, so the pawn holds one ticket fewer in all; any
     * other move is refused and changes nothing.
     */
    method Move(to: int, way: int, existsPath: (Option<int>, int, int) -> bool) returns (ok: bool)
      requires Valid()
      modifies this`position, this`tickets
      ensures Valid()
      ensures ok <==> Allowed(old(tickets), old(position), to, way, existsPath)
      ensures ok ==>
        position == Some(to) && tickets == Spend(old(tickets), way) && Total(tickets) == Total(old(tickets)) - 1
      ensures !ok ==> position == old(position) && tickets == old(tickets)
    {
      if to > LAST_NODE {
        return false;
      }
      if existsPath(position, to, way) {
        var slot := Slot(way, |tickets|);
        if slot.Some? && tickets[slot.value] > 0 {
          position := Some(to);
          tickets := Spend(tickets, way);
          return true;
        }
      }
      return false;
    }
  }

  /**
   * A pawn whose tickets are not negative makes at most as many moves as it
   * has tickets: after spending tickets for the given ways, the total is
   * the starting total less the number of moves, and still not negative.
   */
  function SpendAll(tickets: seq<int>, ways: seq<int>): (left: Option<seq<int>>)
    requires NonNegative(tickets)
    ensures left.Some? ==>
      |ways| <= Total(tickets) && NonNegative(left.value) && Total(left.value) == Total(tickets) - |ways|
    decreases |ways|
  {
    if ways == [] then
      TotalNonNegative(tickets);
      Some(tickets)
    else if Slot(ways[0], |tickets|).Some? && tickets[Slot(ways[0], |tickets|).value] > 0 then
      var rest := SpendAll(Spend(tickets, ways[0]), ways[1..]);
      if rest.Some? then TotalNonNegative(rest.value); rest else None
    else
      None
  }
}
