/**
 * Azul value types: tiles, points and the result of a finished round.
 *
 * A tile is one of five colours or the starting-player marker, each written
 * as a one-letter code. Points wrap an integer and compare by that integer.
 * The module also holds the list operations the game uses on tile lists:
 * removing the first occurrence of a tile, and splitting a list into the
 * tiles of one colour and the rest.
 */
module AzulTypes {

  datatype Option<T> = None | Some(value: T)

  /** The five colours and the starting-player marker; tiles are compared by identity of these six values. */
  datatype Tile = StartingPlayer | Red | Blue | Yellow | Green | Black

  predicate IsColour(t: Tile)
  {
    t != StartingPlayer
  }

  /** The one-letter code a tile prints as. */
  function Code(t: Tile): (c: char)
    ensures Decode(c) == Some(t)
  {
    match t
    case StartingPlayer => 'S'
    case Red => 'R'
    case Blue => 'B'
    case Yellow => 'Y'
    case Green => 'G'
    case Black => 'L'
  }

  /** The tile a letter stands for, if any. */
  function Decode(c: char): Option<Tile>
  {
    match c
    case 'S' => Some(StartingPlayer)
    case 'R' => Some(Red)
    case 'B' => Some(Blue)
    case 'Y' => Some(Yellow)
    case 'G' => Some(Green)
    case 'L' => Some(Black)
    case _ => None
  }

  /** The tile codes joined in order. */
  function CompressTileList(tiles: seq<Tile>): (s: string)
    ensures |s| == |tiles|
    ensures forall i :: 0 <= i < |tiles| ==> s[i] == Code(tiles[i])
  {
    if tiles == [] then "" else [Code(tiles[0])] + CompressTileList(tiles[1..])
  }

  /** Reads a string of tile codes back; None if some letter is not a code. */
  function DecodeTileList(s: string): Option<seq<Tile>>
  {
    if s == [] then Some([])
    else match (Decode(s[0]), DecodeTileList(s[1..]))
      case (Some(t), Some(rest)) => Some([t] + rest)
      case _ => None
  }

  /** The compressed form loses nothing: decoding it gives the tiles back. */
  lemma {:induction false} CompressRoundTrip(tiles: seq<Tile>)
    ensures DecodeTileList(CompressTileList(tiles)) == Some(tiles)
  {
    if tiles != [] {
      var s := CompressTileList(tiles);
      assert s[0] == Code(tiles[0]);
      assert s[1..] == CompressTileList(tiles[1..]);
      CompressRoundTrip(tiles[1..]);
      assert [tiles[0]] + tiles[1..] == tiles;
    }
  }

  datatype Points = Points(value: int)

  /** The sum of a list of points; 0 for the empty list. */
  function Sum(ps: seq<Points>): (r: Points)
    ensures ps == [] ==> r == Points(0)
    ensures |ps| == 1 ==> r == ps[0]
  {
    if ps == [] then Points(0) else Points(ps[0].value + Sum(ps[1..]).value)
  }

  /** Summing a concatenation adds the two sums. */
  lemma {:induction false} SumAppend(a: seq<Points>, b: seq<Points>)
    ensures Sum(a + b).value == Sum(a).value + Sum(b).value
  {
    if a == [] {
      assert a + b == b;
    } else {
      assert (a + b)[0] == a[0];
      assert (a + b)[1..] == a[1..] + b;
      SumAppend(a[1..], b);
    }
  }

  /** The sum does not depend on the order of the list. */
  lemma {:induction false} SumOfSwap(a: Points, b: Points, rest: seq<Points>)
    ensures Sum([a, b] + rest) == Sum([b, a] + rest)
  {
    SumAppend([a, b], rest);
    SumAppend([b, a], rest);
  }

  predicate Less(a: Points, b: Points)
  {
    a.value < b.value
  }

  /** Points equality and order are those of the wrapped integers, so Less is a strict total order. */
  lemma PointsOrder(a: Points, b: Points, c: Points)
    ensures a == b <==> a.value == b.value
    ensures !Less(a, a)
    ensures Less(a, b) && Less(b, c) ==> Less(a, c)
    ensures Less(a, b) || a == b || Less(b, a)
  {
  }

  /** A round result: value 0 means the game goes on, 1 that it has finished. */
  datatype FinishRoundResult = FinishRoundResult(value: int)

  const NORMAL: FinishRoundResult := FinishRoundResult(0)
  const GAME_FINISHED: FinishRoundResult := FinishRoundResult(1)

  /** The number of occurrences of t in s. */
  function Count(s: seq<Tile>, t: Tile): nat
  {
    multiset(s)[t]
  }

  /** The list after removing the first occurrence of t, or unchanged when t does not occur. */
  function RemoveFirst(s: seq<Tile>, t: Tile): (r: seq<Tile>)
    ensures t in s ==> multiset(r) == multiset(s) - multiset{t} && |r| == |s| - 1
    ensures t !in s ==> r == s
  {
    if s == [] then s
    else
      assert s == [s[0]] + s[1..];
      if s[0] == t then s[1..] else [s[0]] + RemoveFirst(s[1..], t)
  }

  /** Removing the first element of a list that starts with it gives the rest. */
  lemma RemoveHead(s: seq<Tile>)
    requires s != []
    ensures RemoveFirst(s, s[0]) == s[1..]
  {
  }

  /** Removes the tiles of `ts` one after another, each by its first occurrence. */
  function RemoveEach(s: seq<Tile>, ts: seq<Tile>): seq<Tile>
    decreases |ts|
  {
    if ts == [] then s else RemoveEach(RemoveFirst(s, ts[0]), ts[1..])
  }

  /** Removing one more tile after a list of removals. */
  lemma {:induction false} RemoveEachSnoc(s: seq<Tile>, ts: seq<Tile>, t: Tile)
    ensures RemoveEach(s, ts + [t]) == RemoveFirst(RemoveEach(s, ts), t)
    decreases |ts|
  {
    if ts == [] {
      assert ts + [t] == [t];
    } else {
      assert (ts + [t])[0] == ts[0];
      assert (ts + [t])[1..] == ts[1..] + [t];
      RemoveEachSnoc(RemoveFirst(s, ts[0]), ts[1..], t);
    }
  }

  /** Removing a prefix of a list tile by tile leaves the matching suffix. */
  lemma {:induction false} RemovePrefix(s: seq<Tile>, k: nat)
    requires k <= |s|
    ensures RemoveEach(s, s[..k]) == s[k..]
  {
    if k > 0 {
      RemoveHead(s);
      assert s[..k][1..] == s[1..][..k - 1];
      RemovePrefix(s[1..], k - 1);
      assert s[1..][k - 1..] == s[k..];
    }
  }

  /** The tiles of s equal to c, in order. */
  function Matching(s: seq<Tile>, c: Tile): (r: seq<Tile>)
    ensures forall i :: 0 <= i < |r| ==> r[i] == c
    ensures |r| == Count(s, c) == multiset(r)[c]
  {
    if s == [] then []
    else
      assert s == [s[0]] + s[1..];
      (if s[0] == c then [s[0]] else []) + Matching(s[1..], c)
  }

  /** The tiles of s different from c, in order. */
  function Others(s: seq<Tile>, c: Tile): (r: seq<Tile>)
    ensures c !in r
    ensures forall t :: t != c ==> Count(r, t) == Count(s, t)
    ensures multiset(Matching(s, c)) + multiset(r) == multiset(s)
  {
    if s == [] then []
    else
      assert s == [s[0]] + s[1..];
      (if s[0] == c then [] else [s[0]]) + Others(s[1..], c)
  }

  /** Removing a tile that is not c keeps the c-free part of the list apart from that one tile. */
  lemma {:induction false} OthersRemoveFirst(s: seq<Tile>, c: Tile)
    requires c in s
    ensures Others(RemoveFirst(s, c), c) == Others(s, c)
  {
    assert s == [s[0]] + s[1..];
    if s[0] == c {
      assert Others(s, c) == Others(s[1..], c);
    } else {
      OthersRemoveFirst(s[1..], c);
      assert RemoveFirst(s, c) == [s[0]] + RemoveFirst(s[1..], c);
      assert Others(RemoveFirst(s, c), c) == [s[0]] + Others(RemoveFirst(s[1..], c), c);
    }
  }

  /** A list free of c is its own c-free part. */
  lemma {:induction false} OthersOfFree(s: seq<Tile>, c: Tile)
    requires c !in s
    ensures Others(s, c) == s
  {
    if s != [] {
      assert s == [s[0]] + s[1..];
      OthersOfFree(s[1..], c);
    }
  }

  /** The six tiles in the order of their letters: B, G, L, R, S, Y. */
  const ByLetter: seq<Tile> := [Blue, Green, Black, Red, StartingPlayer, Yellow]

  lemma AllTilesByLetter()
    ensures forall t: Tile :: t in ByLetter
  {
    forall t: Tile ensures t in ByLetter {
      match t
      case StartingPlayer => assert ByLetter[4] == t;
      case Red => assert ByLetter[3] == t;
      case Blue => assert ByLetter[0] == t;
      case Yellow => assert ByLetter[5] == t;
      case Green => assert ByLetter[1] == t;
      case Black => assert ByLetter[2] == t;
    }
  }

  /** The (tile, count) pairs for the tiles of `order` present in s, in that order. */
  function CountsIn(s: seq<Tile>, order: seq<Tile>): (r: seq<(Tile, nat)>)
    requires StrictlyByCode(order)
    ensures forall i :: 0 <= i < |r| ==> r[i].0 in order && r[i].1 == Count(s, r[i].0) > 0
    ensures forall t :: t in order && t in s ==> (t, Count(s, t)) in r
    ensures forall i, j :: 0 <= i < j < |r| ==> Code(r[i].0) < Code(r[j].0)
  {
    if order == [] then []
    else
      var rest := CountsIn(s, order[1..]);
      if Count(s, order[0]) > 0 then [(order[0], Count(s, order[0]))] + rest else rest
  }

  /**
   * The summary of a tile store: every tile present with its count, sorted
   * by letter.
   */
  function TileCounts(s: seq<Tile>): (r: seq<(Tile, nat)>)
    ensures forall i :: 0 <= i < |r| ==> r[i].1 == Count(s, r[i].0) > 0
    ensures forall t :: t in s ==> (t, Count(s, t)) in r
    ensures forall i, j :: 0 <= i < j < |r| ==> Code(r[i].0) < Code(r[j].0)
  {
    AllTilesByLetter();
    CountsIn(s, ByLetter)
  }

  /** The letters of r never decrease. */
  predicate SortedByCode(r: seq<Tile>)
  {
    forall i, j :: 0 <= i < j < |r| ==> Code(r[i]) <= Code(r[j])
  }

  /** Two sorted lists, the first all below the second, concatenate to a sorted list. */
  lemma {:induction false} SortedConcat(a: seq<Tile>, b: seq<Tile>)
    requires SortedByCode(a) && SortedByCode(b)
    requires forall i, j :: 0 <= i < |a| && 0 <= j < |b| ==> Code(a[i]) <= Code(b[j])
    ensures SortedByCode(a + b)
  {
    var r := a + b;
    forall i, j | 0 <= i < j < |r|
      ensures Code(r[i]) <= Code(r[j])
    {
      if j < |a| {
        assert r[i] == a[i] && r[j] == a[j];
      } else if i < |a| {
        assert r[i] == a[i] && r[j] == b[j - |a|];
      } else {
        assert r[i] == b[i - |a|] && r[j] == b[j - |a|];
      }
    }
  }

  /** A list whose letters strictly increase. */
  predicate StrictlyByCode(order: seq<Tile>)
  {
    forall k, l :: 0 <= k < l < |order| ==> Code(order[k]) < Code(order[l])
  }

  /** The head of a strictly increasing list sits below everything after it. */
  lemma {:induction false} HeadBelowRest(order: seq<Tile>, t: Tile)
    requires order != [] && StrictlyByCode(order) && t in order[1..]
    ensures Code(order[0]) < Code(t)
  {
    var l :| 0 <= l < |order[1..]| && order[1..][l] == t;
    assert order[l + 1] == t;
  }

  /** Putting the tiles of the head type before the grouped rest keeps the letters sorted. */
  lemma {:induction false} GroupedSorted(s: seq<Tile>, order: seq<Tile>, rest: seq<Tile>)
    requires order != [] && StrictlyByCode(order)
    requires SortedByCode(rest) && forall i :: 0 <= i < |rest| ==> rest[i] in order[1..]
    ensures SortedByCode(Matching(s, order[0]) + rest)
  {
    forall i | 0 <= i < |rest|
      ensures Code(order[0]) < Code(rest[i])
    {
      HeadBelowRest(order, rest[i]);
    }
    SortedConcat(Matching(s, order[0]), rest);
  }

  /** Putting the tiles of the head type before the grouped rest counts every type of `order` once. */
  lemma {:induction false} GroupedCounts(s: seq<Tile>, order: seq<Tile>, rest: seq<Tile>)
    requires order != [] && StrictlyByCode(order)
    requires forall t :: multiset(rest)[t] == if t in order[1..] then Count(s, t) else 0
    ensures forall t :: multiset(Matching(s, order[0]) + rest)[t] == if t in order then Count(s, t) else 0
  {
    var first := Matching(s, order[0]);
    assert order[0] !in order[1..] by {
      if order[0] in order[1..] {
        HeadBelowRest(order, order[0]);
      }
    }
    assert order == [order[0]] + order[1..];
    assert forall t :: t != order[0] ==> t !in first;
    assert multiset(first + rest) == multiset(first) + multiset(rest);
  }

  /** The tiles of s whose type is in `order`, grouped by type in that order. */
  function GroupedIn(s: seq<Tile>, order: seq<Tile>): (r: seq<Tile>)
    requires StrictlyByCode(order)
    ensures forall t :: multiset(r)[t] == if t in order then Count(s, t) else 0
    ensures SortedByCode(r)
    ensures forall i :: 0 <= i < |r| ==> r[i] in order
  {
    if order == [] then []
    else
      var rest := GroupedIn(s, order[1..]);
      GroupedSorted(s, order, rest);
      GroupedCounts(s, order, rest);
      Matching(s, order[0]) + rest
  }

  /** The tiles of s sorted by their letters, as a tile store prints them. */
  function SortedByLetter(s: seq<Tile>): (r: seq<Tile>)
    ensures multiset(r) == multiset(s)
    ensures SortedByCode(r)
  {
    AllTilesByLetter();
    GroupedIn(s, ByLetter)
  }

  /** How a tile store prints: its tile letters in alphabetical order. */
  function SortedText(s: seq<Tile>): (text: string)
    ensures |text| == |s|
    ensures forall i, j :: 0 <= i < j < |text| ==> text[i] <= text[j]
    ensures DecodeTileList(text).Some? && multiset(DecodeTileList(text).value) == multiset(s)
  {
    var sorted := SortedByLetter(s);
    CompressRoundTrip(sorted);
    CompressTileList(sorted)
  }
}
