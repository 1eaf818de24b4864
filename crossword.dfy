/**
 * The crossword object: the grid being filled, its slots, which slots cross
 * which and where, and the domain of candidate word indexes of every slot,
 * together with the two pruning steps of the solver (pruning the neighbours
 * of a freshly written slot, and an arc-consistency worklist).
 */
module Crossword {
  import opened CrosswordGrid
  import opened CrosswordWords

  /** The slots other than p, among positions, that share a cell with p. */
  function Neighbours(positions: seq<Slot>, p: Slot): (ns: set<Slot>)
    ensures forall q :: q in ns <==> q in positions && q != p && Cells(p) * Cells(q) != {}
  {
    set q | q in positions && q != p && Cells(p) * Cells(q) != {}
  }

  /** Word v has letter ch at index i. */
  predicate HasLetter(words: seq<string>, v: nat, i: int, ch: char)
  {
    v < |words| && 0 <= i < |words[v]| && words[v][i] == ch
  }

  /** Word v at index i has the same letter as word w at index j. */
  predicate SameLetter(words: seq<string>, v: nat, i: int, w: nat, j: int)
  {
    w < |words| && 0 <= j < |words[w]| && HasLetter(words, v, i, words[w][j])
  }

  /** The words of d with letter ch at index i. */
  function Filter(words: seq<string>, d: set<nat>, i: int, ch: char): (f: set<nat>)
    ensures f <= d
    ensures forall v :: v in f <==> v in d && HasLetter(words, v, i, ch)
  {
    set v | v in d && HasLetter(words, v, i, ch)
  }

  /** A word fits a slot's current text: same length, and every letter already there agrees. */
  predicate Matches(word: string, text: string)
  {
    |word| == |text| && forall i :: 0 <= i < |text| ==> text[i] == Open || text[i] == word[i]
  }

  /** Some word of the list is exactly this text. */
  ghost predicate IsWord(words: seq<string>, text: string)
  {
    exists w :: 0 <= w < |words| && words[w] == text
  }

  /** Every slot of doms has a text in texts, and its domain still holds a word spelling that text. */
  ghost predicate Holds(doms: map<Slot, set<nat>>, words: seq<string>, texts: map<Slot, string>)
  {
    forall p :: p in doms ==> p in texts && exists k :: k in doms[p] && k < |words| && words[k] == texts[p]
  }

  /** Replacing one domain by one that still spells that slot's text keeps Holds. */
  lemma HoldsStore(doms: map<Slot, set<nat>>, words: seq<string>, texts: map<Slot, string>, p: Slot, d: set<nat>)
    requires Holds(doms, words, texts) && p in doms
    requires exists k :: k in d && k < |words| && words[k] == texts[p]
    ensures Holds(doms[p := d], words, texts)
  {
  }

  /** Every text of texts fits the letters grid g already holds in its slot. */
  ghost predicate Fitting(texts: map<Slot, string>, g: Grid)
  {
    forall p :: p in texts && SlotFits(g, p) ==> Matches(texts[p], TextIn(g, p))
  }

  /** Every (slot, word) pair of the domains; it shrinks whenever a domain does. */
  function Pairs(doms: map<Slot, set<nat>>): set<(Slot, nat)>
  {
    set p, w | p in doms && w in doms[p] :: (p, w)
  }

  lemma PairsShrink(doms: map<Slot, set<nat>>, p: Slot, d: set<nat>)
    requires p in doms && d < doms[p]
    ensures Pairs(doms[p := d]) < Pairs(doms)
  {
    var w :| w in doms[p] && w !in d;
    assert (p, w) in Pairs(doms);
  }

  /** A subset is the whole set exactly when it has as many elements. */
  lemma SubsetSize<T>(a: set<T>, b: set<T>)
    requires a <= b
    ensures |a| == |b| <==> a == b
    ensures |a| != |b| ==> a < b
  {
    if a != b {
      assert |b| == |a| + |b - a|;
    }
  }

  /** The cells of slot p, collected by stepping from its first cell. */
  method SlotSquares(p: Slot) returns (squares: set<Cell>)
    ensures squares == Cells(p)
  {
    squares := {};
    var r, c := p.row, p.col;
    var dr, dc := if p.dir == Down then 1 else 0, if p.dir == Right then 1 else 0;
    for i := 0 to p.length
      invariant (r, c) == CellAt(p, i)
      invariant squares == set k | 0 <= k < i :: CellAt(p, k)
    {
      squares := squares + {(r, c)};
      r, c := r + dr, c + dc;
    }
  }

  /**
   * set_positions_affected: the cells of every slot, then for every slot the
   * other slots it shares a cell with, and one shared cell for each of them.
   */
  method ComputeNeighbours(positions: seq<Slot>)
    returns (affected: map<Slot, set<Slot>>, overlap: map<Slot, map<Slot, Cell>>)
    ensures forall p :: p in affected <==> p in positions
    ensures forall p :: p in overlap <==> p in positions
    ensures forall p :: p in affected ==> affected[p] == Neighbours(positions, p)
    ensures forall p :: p in overlap ==> forall q :: q in overlap[p] <==> q in affected[p]
    ensures forall p :: p in overlap ==> forall q :: q in overlap[p] ==> overlap[p][q] in Cells(p) * Cells(q)
  {
    var squares := AllSquares(positions);
    affected, overlap := map[], map[];
    for i := 0 to |positions|
      invariant forall p :: p in affected <==> p in positions[..i]
      invariant forall p :: p in overlap <==> p in positions[..i]
      invariant forall p :: p in affected ==> affected[p] == Neighbours(positions, p)
      invariant forall p :: p in overlap ==> forall q :: q in overlap[p] <==> q in affected[p]
      invariant forall p :: p in overlap ==> forall q :: q in overlap[p] ==> overlap[p][q] in Cells(p) * Cells(q)
    {
      var pos := positions[i];
      var near, cross := CrossingSlots(positions, squares, pos);
      assert positions[..i + 1] == positions[..i] + [pos];
      affected := affected[pos := near];
      overlap := overlap[pos := cross];
    }
  }

  /** The first loop of set_positions_affected: the cells of every slot. */
  method AllSquares(positions: seq<Slot>) returns (squares: map<Slot, set<Cell>>)
    ensures forall p :: p in squares <==> p in positions
    ensures forall p :: p in squares ==> squares[p] == Cells(p)
  {
    squares := map[];
    for i := 0 to |positions|
      invariant forall p :: p in squares <==> p in positions[..i]
      invariant forall p :: p in squares ==> squares[p] == Cells(p)
    {
      var cells := SlotSquares(positions[i]);
      squares := squares[positions[i] := cells];
    }
    assert positions[..|positions|] == positions;
  }

  /** The inner loop of set_positions_affected: the slots crossing pos, each with one shared cell. */
  method CrossingSlots(positions: seq<Slot>, squares: map<Slot, set<Cell>>, pos: Slot)
    returns (near: set<Slot>, cross: map<Slot, Cell>)
    requires pos in squares && squares[pos] == Cells(pos)
    requires forall p :: p in positions ==> p in squares && squares[p] == Cells(p)
    ensures near == Neighbours(positions, pos)
    ensures forall q :: q in cross <==> q in near
    ensures forall q :: q in cross ==> cross[q] in Cells(pos) * Cells(q)
  {
    near, cross := {}, map[];
    for j := 0 to |positions|
      invariant forall q :: q in near <==> q in positions[..j] && q != pos && Cells(pos) * Cells(q) != {}
      invariant forall q :: q in cross <==> q in near
      invariant forall q :: q in cross ==> cross[q] in Cells(pos) * Cells(q)
    {
      var other := positions[j];
      assert positions[..j + 1] == positions[..j] + [other];
      if pos == other {
        continue;
      }
      var inter := squares[pos] * squares[other];
      if inter != {} {
        near := near + {other};
        var c :| c in inter;
        cross := cross[other := c];
      }
    }
    assert positions[..|positions|] == positions;
  }

  class CrossWord {
    /** The grid being filled. */
    var grid: Grid
    /** The slots of the grid as it was given, row slots first. */
    const positions: seq<Slot>
    /** For every slot, the indexes of the words that may still go there. */
    var domains: map<Slot, set<nat>>
    /** For every slot, the slots crossing it. */
    const affected: map<Slot, set<Slot>>
    /** For every slot p and crossing slot q, the cell they share. */
    const overlap: map<Slot, map<Slot, Cell>>

    /**
     * The slots fit the grid, and the crossing tables are well formed: both
     * are keyed by the slots, crossing is symmetric and irreflexive, and
     * overlap names a cell the two crossing slots share.
     */
    ghost predicate Valid()
      reads this`grid
    {
      (forall p :: p in positions ==> SlotFits(grid, p))
      && (forall p :: p in positions ==> forall c :: c in Cells(p) ==> InGrid(grid, c))
      && CrossingTables()
    }

    ghost predicate CrossingTables()
    {
      (forall p :: p in affected <==> p in positions)
      && (forall p :: p in overlap <==> p in positions)
      && (forall p :: p in affected ==> forall q :: q in affected[p] ==> q != p && q in affected && p in affected[q])
      && (forall p :: p in overlap ==> forall q :: q in overlap[p] <==> q in affected[p])
      && (forall p :: p in overlap ==> forall q :: q in overlap[p] ==>
            overlap[p][q] in Cells(p) && overlap[p][q] in Cells(q))
    }

    /**
     * The crossing tables are exact: affected holds, for every slot, exactly
     * the other slots sharing a cell with it, and the overlap cell is the only
     * cell two crossing slots share.
     */
    ghost predicate CrossingsExact()
    {
      (forall p :: p in affected ==> affected[p] == Neighbours(positions, p))
      && (forall p :: p in overlap ==> forall q :: q in overlap[p] ==>
            forall c :: c in Cells(p) * Cells(q) <==> c == overlap[p][q])
    }

    constructor (g: Grid)
      requires ColumnsDefined(g)
      ensures grid == g && domains == map[]
      ensures forall p :: p in positions <==> IsSlotOf(g, p)
      ensures Valid() && CrossingsExact()
    {
      var poss := GetPositions(g);
      var aff, ov := ComputeNeighbours(poss);
      forall p, q, c | p in ov && q in ov[p] && c in Cells(p) * Cells(q)
        ensures c == ov[p][q]
      {
        CrossingIsUnique(g, p, q, c, ov[p][q]);
      }
      forall p | p in poss
        ensures SlotFits(g, p) && forall c :: c in Cells(p) ==> InGrid(g, c)
      {
        SlotOfGridFacts(g, p);
      }
      grid := g;
      positions := poss;
      domains := map[];
      affected := aff;
      overlap := ov;
    }

    /** Both slots of a crossing name the same cell. */
    lemma OverlapSymmetric(p: Slot, q: Slot)
      requires CrossingTables() && CrossingsExact() && p in affected && q in affected[p]
      ensures p in overlap && q in overlap[p] && q in overlap && p in overlap[q]
      ensures overlap[p][q] == overlap[q][p]
    {
      assert overlap[q][p] in Cells(p) * Cells(q);
    }

    /**
     * write_word: write the first p.length letters of word into the cells of p.
     * The slot's text becomes those letters and no other cell changes.
     */
    method WriteWord(p: Slot, word: string)
      requires SlotFits(grid, p) && p.length <= |word|
      modifies this
      ensures SameShape(grid, old(grid)) && domains == old(domains)
      ensures TextIn(grid, p) == word[..p.length]
      ensures forall c :: InGrid(grid, c) && c !in Cells(p) ==> At(grid, c) == At(old(grid), c)
    {
      for i := 0 to p.length
        invariant SameShape(grid, old(grid)) && domains == old(domains)
        invariant forall k :: 0 <= k < i ==> At(grid, CellAt(p, k)) == word[k]
        invariant forall c :: InGrid(grid, c) && (forall k :: 0 <= k < i ==> c != CellAt(p, k)) ==>
                    At(grid, c) == At(old(grid), c)
      {
        var cell := CellAt(p, i);
        grid := grid[cell.0 := grid[cell.0][cell.1 := word[i]]];
      }
      forall c | InGrid(grid, c) && c !in Cells(p)
        ensures forall k :: 0 <= k < p.length ==> c != CellAt(p, k)
      {
      }
    }

    /**
     * can_write_word: the slot is one of the crossword's, the word has its
     * length, and every cell of the slot is open or already holds the word's
     * letter.
     */
    method CanWriteWord(p: Slot, word: string) returns (ok: bool)
      requires Valid()
      ensures ok <==> p in positions && Matches(word, TextIn(grid, p))
    {
      if p !in positions {
        return false;
      }
      if |word| != p.length {
        return false;
      }
      var r, c := p.row, p.col;
      var dr, dc := if p.dir == Down then 1 else 0, if p.dir == Right then 1 else 0;
      for i := 0 to p.length
        invariant (r, c) == CellAt(p, i)
        invariant forall k :: 0 <= k < i ==> At(grid, CellAt(p, k)) == Open || At(grid, CellAt(p, k)) == word[k]
      {
        var ch := grid[r][c];
        if !(ch == Open || ch == word[i]) {
          return false;
        }
        r, c := r + dr, c + dc;
      }
      return true;
    }

    /** Every slot's length has buckets in the database. */
    ghost predicate LengthsIndexed(db: WordsDatabase)
    {
      forall p :: p in positions ==> p.length in db
    }

    /** Every slot has a domain, and a domain holds indexes of words of the slot's length. */
    ghost predicate DomainsFit(doms: map<Slot, set<nat>>, words: seq<string>)
    {
      (forall p :: p in doms <==> p in positions)
      && forall p :: p in doms ==> forall w :: w in doms[p] ==> w < |words| && |words[w]| == p.length
    }

    /** What the pruning steps need: every database lookup they make finds a bucket. */
    ghost predicate Searchable(db: WordsDatabase, words: seq<string>)
      reads this`grid, this`domains
    {
      Valid() && DomainsFit(domains, words) && Indexes(db, words) && AllOverAlphabet(words) && LengthsIndexed(db)
    }

    /** Word w of slot p agrees, at the cell p shares with q, with some word of q's domain. */
    ghost predicate Supported(doms: map<Slot, set<nat>>, words: seq<string>, p: Slot, q: Slot, w: nat)
    {
      p in overlap && q in overlap[p] && q in doms
      && exists v :: v in doms[q] && SameLetter(words, v, OffsetIn(q, overlap[p][q]), w, OffsetIn(p, overlap[p][q]))
    }

    /** An arc (a, b) prunes b against a; it holds when every word of b is supported by a. */
    ghost predicate ArcConsistent(doms: map<Slot, set<nat>>, words: seq<string>, a: Slot, b: Slot)
    {
      b in doms ==> forall w :: w in doms[b] ==> Supported(doms, words, b, a, w)
    }

    /** Arc (a, b) would empty b: b has words, but none of them is supported by a. */
    ghost predicate WipedOut(doms: map<Slot, set<nat>>, words: seq<string>, a: Slot, b: Slot)
    {
      b in doms && doms[b] != {} && forall w :: w in doms[b] ==> !Supported(doms, words, b, a, w)
    }

    /** (a, b) is an arc between crossing slots. */
    predicate IsArc(arc: (Slot, Slot))
    {
      arc.1 in affected && arc.0 in affected[arc.1]
    }

    /** doms came from d0 by dropping words, and no domain that had words lost all of them. */
    ghost predicate Shrunk(d0: map<Slot, set<nat>>, doms: map<Slot, set<nat>>)
    {
      (forall p :: p in doms <==> p in d0)
      && forall p :: p in doms ==> doms[p] <= d0[p] && (doms[p] == {} ==> d0[p] == {})
    }

    /** Every word dropped between d0 and doms has no support, in doms, from some slot crossing its own. */
    ghost predicate RemovalsJustified(d0: map<Slot, set<nat>>, doms: map<Slot, set<nat>>, words: seq<string>)
    {
      forall p, w :: p in affected && p in doms && p in d0 && w in d0[p] && w !in doms[p] ==>
        exists q :: q in affected[p] && !Supported(doms, words, p, q, w)
    }

    /** The arcs queued again after p1's domain changed while revising arc (p2, p1). */
    function Requeued(p2: Slot): (r: set<(Slot, Slot)>)
      requires forall p :: p in positions ==> p in affected
      ensures forall arc :: arc in r <==> arc.1 in positions && arc.0 in affected[arc.1] && arc.0 != p2
    {
      set p, p3 | p in positions && p3 in affected[p] && p3 != p2 :: (p3, p)
    }

    /**
     * The lookups arc_consistency makes for the words of p1 against p2 are
     * defined, and each one finds a word of p2's domain exactly when the word
     * of p1 is supported by p2.
     */
    ghost predicate BucketsDecide(doms: map<Slot, set<nat>>, db: WordsDatabase, words: seq<string>, p1: Slot, p2: Slot)
    {
      p1 in overlap && p2 in overlap[p1] && p1 in doms && p2 in doms
      && var cell := overlap[p1][p2];
      var i1, i2 := OffsetIn(p1, cell), OffsetIn(p2, cell);
      p2.length in db && i2 in db[p2.length]
      && forall w :: w in doms[p1] ==>
        w < |words| && 0 <= i1 < |words[w]| && words[w][i1] in db[p2.length][i2]
        && (Supported(doms, words, p1, p2, w) <==> db[p2.length][i2][words[w][i1]] * doms[p2] != {})
    }

    /**
     * The inner loop of arc_consistency: keep the words of p1's domain that
     * have, in p2's domain, a word with the same letter at the shared cell.
     */
    method Revise(p2: Slot, p1: Slot, db: WordsDatabase, words: seq<string>) returns (newDomain: set<nat>)
      requires BucketsDecide(domains, db, words, p1, p2)
      ensures newDomain <= domains[p1]
      ensures forall w :: w in newDomain <==> w in domains[p1] && Supported(domains, words, p1, p2, w)
    {
      var cell := overlap[p1][p2];
      var i1, i2 := OffsetIn(p1, cell), OffsetIn(p2, cell);
      ghost var supported := set w | w in domains[p1] && Supported(domains, words, p1, p2, w);
      newDomain := domains[p1];
      var rest := domains[p1];
      while rest != {}
        invariant rest <= domains[p1]
        invariant supported <= newDomain <= supported + rest
        decreases rest
      {
        var w1 :| w1 in rest;
        rest := rest - {w1};
        if db[p2.length][i2][words[w1][i1]] * domains[p2] == {} {
          newDomain := newDomain - {w1};
        }
      }
    }

    lemma SearchableBucketsDecide(doms: map<Slot, set<nat>>, db: WordsDatabase, words: seq<string>, p1: Slot, p2: Slot)
      requires CrossingTables() && IsArc((p2, p1)) && DomainsFit(doms, words)
      requires Indexes(db, words) && AllOverAlphabet(words) && LengthsIndexed(db)
      ensures BucketsDecide(doms, db, words, p1, p2)
    {
      var cell := overlap[p1][p2];
      var i1, i2 := OffsetIn(p1, cell), OffsetIn(p2, cell);
      OffsetOfCell(p2, cell);
      assert p2 in positions && p2.length in db;
      assert Bucketed(db[p2.length], p2.length);
      assert i2 in db[p2.length];
      forall w | w in doms[p1]
        ensures w < |words| && 0 <= i1 < |words[w]| && words[w][i1] in db[p2.length][i2]
        ensures Supported(doms, words, p1, p2, w) <==> db[p2.length][i2][words[w][i1]] * doms[p2] != {}
      {
        BucketDecidesSupport(doms, db, words, p1, p2, w);
      }
    }

    /**
     * The lookup arc_consistency makes for word w of p1 is defined, and finds a
     * word of p2's domain exactly when w is supported by p2.
     */
    lemma BucketDecidesSupport(doms: map<Slot, set<nat>>, db: WordsDatabase, words: seq<string>, p1: Slot, p2: Slot, w: nat)
      requires CrossingTables() && IsArc((p2, p1)) && DomainsFit(doms, words)
      requires Indexes(db, words) && AllOverAlphabet(words) && LengthsIndexed(db)
      requires p1 in doms && w in doms[p1]
      ensures p1 in overlap && p2 in overlap[p1] && p2 in doms
      ensures var cell := overlap[p1][p2];
        var i1, i2 := OffsetIn(p1, cell), OffsetIn(p2, cell);
        0 <= i1 < |words[w]| && p2.length in db && 0 <= i2 && i2 in db[p2.length] && words[w][i1] in db[p2.length][i2]
        && (Supported(doms, words, p1, p2, w) <==> db[p2.length][i2][words[w][i1]] * doms[p2] != {})
    {
      var cell := overlap[p1][p2];
      OffsetOfCell(p1, cell);
      OffsetOfCell(p2, cell);
      var i1, i2 := OffsetIn(p1, cell), OffsetIn(p2, cell);
      LookupBucket(db, words, p2.length, i2, words[w][i1], doms[p2]);
      var bucket := db[p2.length][i2][words[w][i1]] * doms[p2];
      if bucket != {} {
        var v :| v in bucket;
        assert SameLetter(words, v, i2, w, i1);
      }
    }

    /** Support can only be lost when a domain shrinks. */
    lemma SupportShrinks(doms: map<Slot, set<nat>>, doms': map<Slot, set<nat>>, words: seq<string>, p: Slot, q: Slot, w: nat)
      requires q in doms && q in doms' && doms'[q] <= doms[q]
      ensures Supported(doms', words, p, q, w) ==> Supported(doms, words, p, q, w)
    {
    }

    /** Storing a smaller domain for p1 keeps the domains fitting the words. */
    lemma FitStore(doms: map<Slot, set<nat>>, words: seq<string>, p1: Slot, nd: set<nat>)
      requires DomainsFit(doms, words) && p1 in doms && nd <= doms[p1]
      ensures DomainsFit(doms[p1 := nd], words)
    {
    }

    /** Requeued arcs are arcs. */
    lemma RequeuedAreArcs(queue: set<(Slot, Slot)>, p2: Slot)
      requires CrossingTables() && forall arc :: arc in queue ==> IsArc(arc)
      ensures forall arc :: arc in queue + Requeued(p2) ==> IsArc(arc)
    {
    }

    /** Storing a domain for p1 that is smaller but not empty keeps doms a shrinking of d0. */
    lemma ShrunkStore(d0: map<Slot, set<nat>>, doms: map<Slot, set<nat>>, p1: Slot, nd: set<nat>)
      requires Shrunk(d0, doms) && p1 in doms && nd <= doms[p1] && nd != {}
      ensures Shrunk(d0, doms[p1 := nd])
    {
    }

    /** An arc that holds can leave the queue. */
    lemma PopCovers(arcs: set<(Slot, Slot)>, queue: set<(Slot, Slot)>, doms: map<Slot, set<nat>>, words: seq<string>, a: (Slot, Slot))
      requires forall arc :: arc in arcs ==> arc in queue || ArcConsistent(doms, words, arc.0, arc.1)
      requires a.1 in doms && forall w :: w in doms[a.1] ==> Supported(doms, words, a.1, a.0, w)
      ensures forall arc :: arc in arcs ==> arc in queue - {a} || ArcConsistent(doms, words, arc.0, arc.1)
    {
    }

    /** Storing a revised domain for p1 keeps the dropped words justified. */
    lemma {:induction false} StoreJustified(d0: map<Slot, set<nat>>, doms: map<Slot, set<nat>>, words: seq<string>,
                                            p2: Slot, p1: Slot, nd: set<nat>)
      requires p1 in doms && p2 in doms && p1 != p2 && p1 in affected && p2 in affected[p1] && nd <= doms[p1]
      requires forall w :: w in doms[p1] && w !in nd ==> !Supported(doms, words, p1, p2, w)
      requires RemovalsJustified(d0, doms, words)
      ensures RemovalsJustified(d0, doms[p1 := nd], words)
    {
      var doms' := doms[p1 := nd];
      forall p, w | p in affected && p in doms' && p in d0 && w in d0[p] && w !in doms'[p]
        ensures exists q :: q in affected[p] && !Supported(doms', words, p, q, w)
      {
        if p == p1 && w in doms[p1] {
          SupportShrinks(doms, doms', words, p, p2, w);
          assert !Supported(doms', words, p, p2, w);
        } else {
          var q :| q in affected[p] && !Supported(doms, words, p, q, w);
          if q in doms {
            SupportShrinks(doms, doms', words, p, q, w);
          }
          assert !Supported(doms', words, p, q, w);
        }
      }
    }

    /** After (p2, p1) is revised and p1's domain stored, every arc is queued or consistent. */
    lemma {:induction false} StoreCovers(arcs: set<(Slot, Slot)>, queue: set<(Slot, Slot)>, doms: map<Slot, set<nat>>,
                                         words: seq<string>, p2: Slot, p1: Slot, nd: set<nat>)
      requires forall p :: p in affected <==> p in positions
      requires IsArc((p2, p1)) && p1 != p2 && p1 in doms && nd <= doms[p1]
      requires forall w :: w in nd <==> w in doms[p1] && Supported(doms, words, p1, p2, w)
      requires forall arc :: arc in arcs ==> IsArc(arc)
      requires forall arc :: arc in arcs ==> arc in queue || ArcConsistent(doms, words, arc.0, arc.1)
      ensures forall arc :: arc in arcs ==>
        arc in queue - {(p2, p1)} + Requeued(p2) || ArcConsistent(doms[p1 := nd], words, arc.0, arc.1)
    {
      var doms' := doms[p1 := nd];
      forall arc | arc in arcs && arc !in queue - {(p2, p1)} + Requeued(p2)
        ensures ArcConsistent(doms', words, arc.0, arc.1)
      {
        if arc == (p2, p1) {
          forall w | w in doms'[p1]
            ensures Supported(doms', words, p1, p2, w)
          {
            assert Supported(doms, words, p1, p2, w);
          }
        } else {
          assert arc.0 == p2;
          forall w | arc.1 in doms' && w in doms'[arc.1]
            ensures Supported(doms', words, arc.1, arc.0, w)
          {
            assert Supported(doms, words, arc.1, arc.0, w);
          }
        }
      }
    }

    /**
     * The loop invariant of arc_consistency, with d0 the domains on entry:
     * the domains fit the words, only arcs are given and queued, domains only shrank,
     * every dropped word lacks support, and every arc of the initial queue is
     * still queued or holds.
     */
    ghost predicate AcState(d0: map<Slot, set<nat>>, doms: map<Slot, set<nat>>, arcs: set<(Slot, Slot)>,
                            queue: set<(Slot, Slot)>, words: seq<string>)
    {
      DomainsFit(doms, words)
      && (forall arc :: arc in arcs ==> IsArc(arc)) && (forall arc :: arc in queue ==> IsArc(arc))
      && Shrunk(d0, doms) && RemovalsJustified(d0, doms, words)
      && forall arc :: arc in arcs ==> arc in queue || ArcConsistent(doms, words, arc.0, arc.1)
    }

    /**
     * When every given arc held on entry (in d0), nothing has been dropped and
     * only given arcs are queued: a second pass over arcs that hold is idle.
     */
    ghost predicate Settled(d0: map<Slot, set<nat>>, doms: map<Slot, set<nat>>, arcs: set<(Slot, Slot)>,
                            queue: set<(Slot, Slot)>, words: seq<string>)
    {
      (forall arc :: arc in arcs ==> ArcConsistent(d0, words, arc.0, arc.1)) ==> doms == d0 && queue <= arcs
    }

    /**
     * Revising a queued arc can only drop words when some given arc did not
     * hold on entry.
     */
    lemma {:induction false} SettledRevise(d0: map<Slot, set<nat>>, doms: map<Slot, set<nat>>, arcs: set<(Slot, Slot)>,
                                           queue: set<(Slot, Slot)>, words: seq<string>, p2: Slot, p1: Slot, nd: set<nat>)
      requires Settled(d0, doms, arcs, queue, words) && (p2, p1) in queue && p1 in doms && nd != doms[p1]
      requires forall w :: w in nd <==> w in doms[p1] && Supported(doms, words, p1, p2, w)
      ensures !forall arc :: arc in arcs ==> ArcConsistent(d0, words, arc.0, arc.1)
    {
      var w :| w in doms[p1] && w !in nd;
      assert !Supported(doms, words, p1, p2, w);
      if doms == d0 && queue <= arcs {
        assert (p2, p1) in arcs && !ArcConsistent(d0, words, p2, p1);
      }
    }

    /** Texts of crossing slots agree: each pair has the same letter at the cell the two slots share. */
    ghost predicate Agreeing(texts: map<Slot, string>)
    {
      forall p, q :: p in texts && q in texts && p in overlap && q in overlap[p] ==>
        0 <= OffsetIn(p, overlap[p][q]) < |texts[p]| && 0 <= OffsetIn(q, overlap[p][q]) < |texts[q]|
        && texts[p][OffsetIn(p, overlap[p][q])] == texts[q][OffsetIn(q, overlap[p][q])]
    }

    /**
     * The word spelling p1's text in an agreeing choice of texts is supported
     * by the word spelling p2's text, so revising arc (p2, p1) keeps it.
     */
    lemma {:induction false} ReviseKeepsText(doms: map<Slot, set<nat>>, words: seq<string>, p2: Slot, p1: Slot,
                                             nd: set<nat>, texts: map<Slot, string>)
      requires CrossingTables() && DomainsFit(doms, words) && IsArc((p2, p1))
      requires forall w :: w in nd <==> w in doms[p1] && Supported(doms, words, p1, p2, w)
      ensures Agreeing(texts) && Holds(doms, words, texts) ==>
                exists k :: k in nd && k < |words| && words[k] == texts[p1]
    {
      if Agreeing(texts) && Holds(doms, words, texts) {
        var c := overlap[p1][p2];
        var k :| k in doms[p1] && k < |words| && words[k] == texts[p1];
        var v :| v in doms[p2] && v < |words| && words[v] == texts[p2];
        assert SameLetter(words, v, OffsetIn(p2, c), k, OffsetIn(p1, c));
        assert Supported(doms, words, p1, p2, k);
      }
    }

    /**
     * Revising a crossing arc never drops a word some agreeing choice of texts
     * spells: the revised domain keeps it, and so is not empty.
     */
    lemma {:induction false} ReviseKeeps(doms: map<Slot, set<nat>>, words: seq<string>, p2: Slot, p1: Slot, nd: set<nat>)
      requires CrossingTables() && DomainsFit(doms, words) && IsArc((p2, p1))
      requires forall w :: w in nd <==> w in doms[p1] && Supported(doms, words, p1, p2, w)
      ensures forall texts :: Agreeing(texts) && Holds(doms, words, texts) ==>
                nd != {} && Holds(doms[p1 := nd], words, texts)
    {
      forall texts | Agreeing(texts) && Holds(doms, words, texts)
        ensures nd != {} && Holds(doms[p1 := nd], words, texts)
      {
        ReviseKeepsText(doms, words, p2, p1, nd, texts);
        HoldsStore(doms, words, texts, p1, nd);
      }
    }

    /** A popped arc that already holds leaves the queue without changing any domain. */
    lemma KeepStep(d0: map<Slot, set<nat>>, doms: map<Slot, set<nat>>, arcs: set<(Slot, Slot)>,
                   queue: set<(Slot, Slot)>, words: seq<string>, arc: (Slot, Slot))
      requires AcState(d0, doms, arcs, queue, words) && arc in queue
      requires arc.1 in doms && forall w :: w in doms[arc.1] ==> Supported(doms, words, arc.1, arc.0, w)
      ensures AcState(d0, doms, arcs, queue - {arc}, words)
    {
      PopCovers(arcs, queue, doms, words, arc);
    }

    /**
     * Storing the revised, smaller but non-empty domain of p1 and queueing
     * the arcs arc_consistency adds keeps the invariant, and removes a
     * (slot, word) pair.
     */
    lemma StoreStep(d0: map<Slot, set<nat>>, doms: map<Slot, set<nat>>, arcs: set<(Slot, Slot)>,
                    queue: set<(Slot, Slot)>, words: seq<string>, p2: Slot, p1: Slot, nd: set<nat>)
      requires CrossingTables() && AcState(d0, doms, arcs, queue, words) && (p2, p1) in queue
      requires p1 in doms && nd < doms[p1] && nd != {}
      requires forall w :: w in nd <==> w in doms[p1] && Supported(doms, words, p1, p2, w)
      ensures AcState(d0, doms[p1 := nd], arcs, queue - {(p2, p1)} + Requeued(p2), words)
      ensures Pairs(doms[p1 := nd]) < Pairs(doms)
    {
      var rest := queue - {(p2, p1)};
      assert IsArc((p2, p1));
      ShrunkStore(d0, doms, p1, nd);
      StoreJustified(d0, doms, words, p2, p1, nd);
      StoreCovers(arcs, queue, doms, words, p2, p1, nd);
      PairsShrink(doms, p1, nd);
      FitStore(doms, words, p1, nd);
      RequeuedAreArcs(rest, p2);
    }

    /**
     * The domain d of slot q, crossing slot written, pruned against the letter
     * grid g holds at their shared cell: the words of d having that letter
     * there. (When q does not cross written inside g, d itself.)
     */
    ghost function PrunedDomain(g: Grid, d: set<nat>, words: seq<string>, written: Slot, q: Slot): set<nat>
    {
      if written in overlap && q in overlap[written] && InGrid(g, overlap[written][q])
      then Filter(words, d, OffsetIn(q, overlap[written][q]), At(g, overlap[written][q]))
      else d
    }

    /**
     * doms is d0 with every slot crossing slot written, except those in todo,
     * pruned against the letters of slot written in grid g.
     */
    ghost predicate PrunedExcept(g: Grid, d0: map<Slot, set<nat>>, doms: map<Slot, set<nat>>, words: seq<string>,
                                 written: Slot, todo: set<Slot>)
    {
      (forall q :: q in doms <==> q in d0)
      && forall q :: q in doms ==>
        doms[q] == if written in affected && q in affected[written] && q !in todo
          then PrunedDomain(g, d0[q], words, written, q) else d0[q]
    }

    /**
     * arc_consistency: pop an arc (p2, p1) and revise p1's domain against p2's;
     * when p1 lost words, fail if none is left, else store the new domain and
     * queue every arc (p3, p) whose first slot is not p2. On success every arc
     * of the initial queue holds; on failure some arc would empty a domain.
     * Either way domains only shrink, never to empty, and each dropped word
     * lacks support from some crossing slot.
     */
    method ArcConsistency(arcs: set<(Slot, Slot)>, db: WordsDatabase, words: seq<string>) returns (ok: bool)
      requires Searchable(db, words)
      requires forall arc :: arc in arcs ==> IsArc(arc)
      modifies this`domains
      ensures DomainsFit(domains, words)
      ensures Shrunk(old(domains), domains)
      ensures RemovalsJustified(old(domains), domains, words)
      ensures ok ==> forall arc :: arc in arcs ==> ArcConsistent(domains, words, arc.0, arc.1)
      ensures !ok ==> exists arc :: IsArc(arc) && WipedOut(domains, words, arc.0, arc.1)
      ensures (forall arc :: arc in arcs ==> ArcConsistent(old(domains), words, arc.0, arc.1)) ==> ok && domains == old(domains)
      ensures forall texts :: Agreeing(texts) && Holds(old(domains), words, texts) ==> ok && Holds(domains, words, texts)
    {
      var queue := arcs;
      while queue != {}
        invariant AcState(old(domains), domains, arcs, queue, words)
        invariant Settled(old(domains), domains, arcs, queue, words)
        invariant forall texts :: Agreeing(texts) && Holds(old(domains), words, texts) ==> Holds(domains, words, texts)
        decreases Pairs(domains), queue
      {
        var arc :| arc in queue;
        var p2, p1 := arc.0, arc.1;
        SearchableBucketsDecide(domains, db, words, p1, p2);
        var newDomain := Revise(p2, p1, db, words);
        SubsetSize(newDomain, domains[p1]);
        if |newDomain| == |domains[p1]| {
          KeepStep(old(domains), domains, arcs, queue, words, arc);
          queue := queue - {arc};
          continue;
        }
        SettledRevise(old(domains), domains, arcs, queue, words, p2, p1, newDomain);
        ReviseKeeps(domains, words, p2, p1, newDomain);
        if |newDomain| == 0 {
          assert WipedOut(domains, words, p2, p1);
          return false;
        }
        StoreStep(old(domains), domains, arcs, queue, words, p2, p1, newDomain);
        domains := domains[p1 := newDomain];
        queue := queue - {arc} + Requeued(p2);
      }
      return true;
    }

    /**
     * The lookup update_domains makes for crossing slot q: the words of q's
     * domain in the bucket of the letter now at the shared cell, at that
     * cell's index in q.
     */
    method PruneCrossing(written: Slot, q: Slot, db: WordsDatabase, words: seq<string>) returns (newDomain: set<nat>)
      requires Searchable(db, words) && written in positions && q in affected[written]
      requires forall i :: 0 <= i < written.length ==> IsLetter(At(grid, CellAt(written, i)))
      ensures newDomain == PrunedDomain(grid, domains[q], words, written, q)
    {
      var cell := overlap[written][q];
      CrossingBucket(domains, db, words, written, q);
      var changedChar := grid[cell.0][cell.1];
      var idx := OffsetIn(q, cell);
      newDomain := db[q.length][idx][changedChar] * domains[q];
    }

    /**
     * The bucket update_domains reads for crossing slot q exists, and among
     * q's words it holds those with the written letter at the shared cell.
     */
    lemma CrossingBucket(doms: map<Slot, set<nat>>, db: WordsDatabase, words: seq<string>, written: Slot, q: Slot)
      requires Valid() && DomainsFit(doms, words) && Indexes(db, words) && LengthsIndexed(db)
      requires written in positions && q in affected[written]
      requires forall i :: 0 <= i < written.length ==> IsLetter(At(grid, CellAt(written, i)))
      ensures var cell := overlap[written][q];
        var i := OffsetIn(q, cell);
        InGrid(grid, cell) && 0 <= i && q in doms && q.length in db && i in db[q.length] && At(grid, cell) in db[q.length][i]
        && forall v :: v in db[q.length][i][At(grid, cell)] * doms[q] <==> v in doms[q] && HasLetter(words, v, i, At(grid, cell))
    {
      var cell := overlap[written][q];
      OffsetOfCell(written, cell);
      OffsetOfCell(q, cell);
      assert IsLetter(At(grid, cell)) by {
        assert cell == CellAt(written, OffsetIn(written, cell));
      }
      assert q in positions;
      LookupBucket(db, words, q.length, OffsetIn(q, cell), At(grid, cell), doms[q]);
    }

    /** Pruning only ever drops words. */
    lemma PrunedShrinks(g: Grid, d0: map<Slot, set<nat>>, doms: map<Slot, set<nat>>, words: seq<string>,
                        written: Slot, todo: set<Slot>)
      requires PrunedExcept(g, d0, doms, words, written, todo)
      ensures forall q :: q in doms ==> q in d0 && doms[q] <= d0[q]
    {
    }

    /**
     * Once every crossing slot is pruned, each crossing slot holds its pruned
     * domain, every other slot its old one, and, when no crossing slot is
     * empty, no domain was emptied that had words.
     */
    lemma PrunedAll(g: Grid, d0: map<Slot, set<nat>>, doms: map<Slot, set<nat>>, words: seq<string>, written: Slot)
      requires written in affected && PrunedExcept(g, d0, doms, words, written, {})
      requires forall q :: q in affected[written] ==> q in doms && doms[q] != {}
      ensures forall q :: q in affected[written] ==> doms[q] == PrunedDomain(g, d0[q], words, written, q)
      ensures forall q :: q in doms && q !in affected[written] ==> doms[q] == d0[q]
      ensures forall q :: q in doms && doms[q] == {} ==> d0[q] == {}
    {
    }

    /**
     * The loop invariant of the first loop of update_domains, with d0 the
     * domains on entry: the slots still to prune are crossing slots, the
     * others are pruned, and none of those is empty.
     */
    ghost predicate PruneProgress(g: Grid, d0: map<Slot, set<nat>>, doms: map<Slot, set<nat>>, words: seq<string>,
                                  written: Slot, todo: set<Slot>)
    {
      written in affected && todo <= affected[written]
      && DomainsFit(doms, words) && PrunedExcept(g, d0, doms, words, written, todo)
      && forall q :: q in affected[written] && q !in todo ==> q in doms && doms[q] != {}
    }

    /** Storing the pruned domain of one more crossing slot q, when it is not empty, keeps the invariant. */
    lemma PruneStep(g: Grid, d0: map<Slot, set<nat>>, doms: map<Slot, set<nat>>, words: seq<string>, written: Slot,
                    todo: set<Slot>, q: Slot)
      requires PruneProgress(g, d0, doms, words, written, todo) && q in todo && q in doms
      requires PrunedDomain(g, doms[q], words, written, q) != {}
      ensures PruneProgress(g, d0, doms[q := PrunedDomain(g, doms[q], words, written, q)], words, written, todo - {q})
    {
      var doms' := doms[q := PrunedDomain(g, doms[q], words, written, q)];
      forall q' | q' in doms'
        ensures doms'[q'] == if q' in affected[written] && q' !in todo - {q} then PrunedDomain(g, d0[q'], words, written, q') else d0[q']
      {
        if q' != q {
          assert doms'[q'] == doms[q'];
        }
      }
      FitStore(doms, words, q, doms'[q]);
    }

    /**
     * The first loop of update_domains: prune every slot crossing the freshly
     * written slot, stopping at the first one left without words. On success
     * every crossing slot is pruned, and none is left empty.
     */
    method PruneCrossings(written: Slot, db: WordsDatabase, words: seq<string>) returns (ok: bool)
      requires Searchable(db, words) && written in positions
      requires forall i :: 0 <= i < written.length ==> IsLetter(At(grid, CellAt(written, i)))
      modifies this`domains
      ensures DomainsFit(domains, words)
      ensures forall q :: q in domains ==> q in old(domains) && domains[q] <= old(domains)[q]
      ensures ok ==> forall q :: q in affected[written] ==> domains[q] == PrunedDomain(grid, old(domains)[q], words, written, q)
      ensures ok ==> forall q :: q in domains && q !in affected[written] ==> domains[q] == old(domains)[q]
      ensures ok ==> forall q :: q in affected[written] ==> domains[q] != {}
      ensures ok ==> forall q :: q in domains && domains[q] == {} ==> old(domains)[q] == {}
      ensures !ok ==> exists q :: q in affected[written] && PrunedDomain(grid, old(domains)[q], words, written, q) == {}
    {
      var todo := affected[written];
      while todo != {}
        invariant PruneProgress(grid, old(domains), domains, words, written, todo)
        decreases todo
      {
        var q :| q in todo;
        var newDomain := PruneCrossing(written, q, db, words);
        if newDomain == {} {
          PrunedShrinks(grid, old(domains), domains, words, written, todo);
          assert domains[q] == old(domains)[q];
          return false;
        }
        PruneStep(grid, old(domains), domains, words, written, todo, q);
        domains := domains[q := newDomain];
        todo := todo - {q};
      }
      PrunedShrinks(grid, old(domains), domains, words, written, todo);
      PrunedAll(grid, old(domains), domains, words, written);
      return true;
    }

    /**
     * A text of crossing slot q that fits grid g has, at the cell q shares
     * with the written slot, the letter g holds there; so pruning keeps the
     * word spelling it.
     */
    lemma {:induction false} PrunedKeepsText(g: Grid, d: set<nat>, words: seq<string>, written: Slot, q: Slot,
                                             texts: map<Slot, string>)
      requires CrossingTables() && written in positions && q in affected[written]
      requires SlotFits(g, written) && SlotFits(g, q)
      requires forall i :: 0 <= i < written.length ==> IsLetter(At(g, CellAt(written, i)))
      ensures Fitting(texts, g) && q in texts && (exists k :: k in d && k < |words| && words[k] == texts[q]) ==>
                exists k :: k in PrunedDomain(g, d, words, written, q) && k < |words| && words[k] == texts[q]
    {
      if Fitting(texts, g) && q in texts && exists k :: k in d && k < |words| && words[k] == texts[q] {
        var k :| k in d && k < |words| && words[k] == texts[q];
        var c := overlap[written][q];
        OffsetOfCell(written, c);
        OffsetOfCell(q, c);
        assert IsLetter(At(g, CellAt(written, OffsetIn(written, c))));
        assert TextIn(g, q)[OffsetIn(q, c)] == At(g, c);
        assert HasLetter(words, k, OffsetIn(q, c), At(g, c));
      }
    }

    /**
     * What the first loop of update_domains keeps: when it succeeds, the word
     * spelling a slot's text, for texts fitting grid g, survives in every
     * domain; and whenever such texts exist it succeeds.
     */
    lemma {:induction false} PruneKeeps(g: Grid, d0: map<Slot, set<nat>>, doms: map<Slot, set<nat>>, words: seq<string>,
                                        written: Slot, ok: bool)
      requires CrossingTables() && written in positions && (forall p :: p in positions ==> SlotFits(g, p))
      requires SlotFits(g, written) && forall i :: 0 <= i < written.length ==> IsLetter(At(g, CellAt(written, i)))
      requires DomainsFit(d0, words) && DomainsFit(doms, words)
      requires ok ==> forall q :: q in affected[written] ==> doms[q] == PrunedDomain(g, d0[q], words, written, q)
      requires ok ==> forall q :: q in doms && q !in affected[written] ==> doms[q] == d0[q]
      requires !ok ==> exists q :: q in affected[written] && PrunedDomain(g, d0[q], words, written, q) == {}
      ensures forall texts :: Fitting(texts, g) && Holds(d0, words, texts) ==> ok && Holds(doms, words, texts)
    {
      if ok {
        forall texts, q | Fitting(texts, g) && Holds(d0, words, texts) && q in doms
          ensures q in texts && exists k :: k in doms[q] && k < |words| && words[k] == texts[q]
        {
          if q in affected[written] {
            PrunedKeepsText(g, d0[q], words, written, q, texts);
          }
        }
      } else {
        var q :| q in affected[written] && PrunedDomain(g, d0[q], words, written, q) == {};
        forall texts
          ensures !(Fitting(texts, g) && Holds(d0, words, texts))
        {
          PrunedKeepsText(g, d0[q], words, written, q, texts);
        }
      }
    }

    /**
     * update_domains: prune every slot crossing the freshly written slot to
     * the words with the letter now at the shared cell, failing at the first
     * slot left without words; then, when asked to, run arc consistency on the
     * arcs that prune the written slot against each crossing slot.
     */
    method UpdateDomains(written: Slot, db: WordsDatabase, words: seq<string>, maintainAc: bool) returns (ok: bool)
      requires Searchable(db, words) && written in positions
      requires forall i :: 0 <= i < written.length ==> IsLetter(At(grid, CellAt(written, i)))
      modifies this`domains
      ensures Searchable(db, words)
      ensures forall q :: q in domains ==> q in old(domains) && domains[q] <= old(domains)[q]
      ensures ok ==> forall q :: q in affected[written] ==> domains[q] <= PrunedDomain(grid, old(domains)[q], words, written, q)
      ensures ok && !maintainAc ==> forall q :: q in affected[written] ==> domains[q] == PrunedDomain(grid, old(domains)[q], words, written, q)
      ensures ok && !maintainAc ==> forall q :: q in domains && q !in affected[written] ==> domains[q] == old(domains)[q]
      ensures ok ==> forall q :: q in domains && domains[q] == {} ==> old(domains)[q] == {}
      ensures ok ==> forall q :: q in affected[written] ==> domains[q] != {}
      ensures ok && maintainAc ==> forall q :: q in affected[written] ==> ArcConsistent(domains, words, q, written)
      ensures !ok ==> (exists q :: q in affected[written] && PrunedDomain(grid, old(domains)[q], words, written, q) == {})
                      || (maintainAc && exists arc :: IsArc(arc) && WipedOut(domains, words, arc.0, arc.1))
      ensures forall texts :: Agreeing(texts) && Fitting(texts, grid) && Holds(old(domains), words, texts) ==>
                ok && Holds(domains, words, texts)
    {
      ok := PruneCrossings(written, db, words);
      PruneKeeps(grid, old(domains), domains, words, written, ok);
      if !ok || !maintainAc {
        return;
      }
      ghost var pruned := domains;
      var arcs := set q | q in affected[written] :: (q, written);
      assert forall q :: q in affected[written] ==> (q, written) in arcs;
      ok := ArcConsistency(arcs, db, words);
      assert forall q :: q in domains && domains[q] == {} ==> pruned[q] == {};
    }
  }
}
