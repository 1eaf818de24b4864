/**
 * The backtracking search of the crossword solver (solve and solve_backtrack):
 * pick a slot that still has an open cell by a heuristic, try the words of its
 * domain one after another, prune the domains of the crossing slots after
 * each write, recurse, and restore the grid and the domains from the copies
 * taken before the loop whenever a word leads nowhere.
 */
module CrosswordSolver {
  import opened CrosswordGrid
  import opened CrosswordWords
  import opened Crossword

  /** How the next slot is picked: most unassigned crossings, fewest candidate words, or simply the first. */
  datatype VariableHeuristic = Degree | MinimumRemainingValues | FirstUnassigned

  // ---------------------------------------------------------------------------
  // Choosing the next slot
  // ---------------------------------------------------------------------------

  /** Slot p fits the grid and still has an open cell. */
  predicate HasOpen(g: Grid, p: Slot)
  {
    SlotFits(g, p) && exists i :: 0 <= i < p.length && At(g, CellAt(p, i)) == Open
  }

  /** The slots, in order, whose text still contains an open cell. */
  function Unassigned(positions: seq<Slot>, g: Grid): (u: seq<Slot>)
    ensures forall p :: p in u <==> p in positions && HasOpen(g, p)
  {
    if positions == [] then []
    else (if HasOpen(g, positions[0]) then [positions[0]] else []) + Unassigned(positions[1..], g)
  }

  /** The degree key: how many slots crossing p are not among the assigned ones (positions minus unassigned). */
  function DegreeScore(affected: map<Slot, set<Slot>>, positions: seq<Slot>, unassigned: seq<Slot>, p: Slot): int
  {
    if p in affected then |affected[p] - ((set q | q in positions) - (set q | q in unassigned))| else 0
  }

  /** When the crossings of p are slots, the degree key counts the crossing slots that are still unassigned. */
  lemma DegreeCountsOpenCrossings(affected: map<Slot, set<Slot>>, positions: seq<Slot>, unassigned: seq<Slot>, p: Slot)
    requires p in affected && forall q :: q in affected[p] ==> q in positions
    ensures DegreeScore(affected, positions, unassigned, p) == |set q | q in affected[p] && q in unassigned|
  {
    assert affected[p] - ((set q | q in positions) - (set q | q in unassigned)) == set q | q in affected[p] && q in unassigned;
  }

  /** The MRV key: the number of words left in p's domain. */
  function DomainSize(doms: map<Slot, set<nat>>, p: Slot): int
  {
    if p in doms then |doms[p]| else 0
  }

  /** The index Python's max returns: a largest score, the first one among equals. */
  function FirstMax(scores: seq<int>): (i: nat)
    requires |scores| > 0
    ensures i < |scores|
    ensures forall j :: 0 <= j < |scores| ==> scores[j] <= scores[i]
    ensures forall j :: 0 <= j < i ==> scores[j] < scores[i]
  {
    if |scores| == 1 then 0
    else
      var k := 1 + FirstMax(scores[1..]);
      if scores[0] >= scores[k] then 0 else k
  }

  /**
   * The slot solve_backtrack works on: for Degree the first unassigned slot
   * with the largest degree key, for MinimumRemainingValues the first with the
   * smallest domain (Python's max and min keep the first of equal keys), and
   * otherwise the first unassigned slot.
   */
  function ChooseSlot(heuristic: VariableHeuristic, u: seq<Slot>, affected: map<Slot, set<Slot>>,
                      positions: seq<Slot>, doms: map<Slot, set<nat>>): (i: nat)
    requires |u| > 0
    ensures i < |u|
    ensures heuristic == Degree ==>
      (forall j :: 0 <= j < |u| ==> DegreeScore(affected, positions, u, u[j]) <= DegreeScore(affected, positions, u, u[i]))
      && forall j :: 0 <= j < i ==> DegreeScore(affected, positions, u, u[j]) < DegreeScore(affected, positions, u, u[i])
    ensures heuristic == MinimumRemainingValues ==>
      (forall j :: 0 <= j < |u| ==> DomainSize(doms, u[i]) <= DomainSize(doms, u[j]))
      && forall j :: 0 <= j < i ==> DomainSize(doms, u[i]) < DomainSize(doms, u[j])
    ensures heuristic == FirstUnassigned ==> i == 0
  {
    match heuristic
    case Degree =>
      var scores := seq(|u|, j requires 0 <= j < |u| => DegreeScore(affected, positions, u, u[j]));
      assert forall j :: 0 <= j < |u| ==> scores[j] == DegreeScore(affected, positions, u, u[j]);
      FirstMax(scores)
    case MinimumRemainingValues =>
      var scores := seq(|u|, j requires 0 <= j < |u| => -DomainSize(doms, u[j]));
      assert forall j :: 0 <= j < |u| ==> scores[j] == -DomainSize(doms, u[j]);
      FirstMax(scores)
    case FirstUnassigned => 0
  }

  // ---------------------------------------------------------------------------
  // What the search keeps true
  // ---------------------------------------------------------------------------

  /** Every open cell lies in some slot; otherwise the heuristics would run out of slots before the grid is full. */
  ghost predicate Covered(positions: seq<Slot>, g: Grid)
  {
    forall c :: c in OpenCells(g) ==> exists p :: p in positions && c in Cells(p)
  }

  /**
   * Every slot fits the grid and has a non-empty domain, and either its text
   * is already a word of the list or every word of its domain agrees with
   * every letter written in it.
   */
  ghost predicate Consistent(positions: seq<Slot>, g: Grid, doms: map<Slot, set<nat>>, words: seq<string>)
  {
    forall p :: p in positions ==>
      SlotFits(g, p) && p in doms
      && (IsWord(words, TextIn(g, p))
          || ((doms[p] != {} || HasOpen(g, p)) && forall w :: w in doms[p] ==> w < |words| && Matches(words[w], TextIn(g, p))))
  }

  /** The state solve_backtrack starts from. */
  ghost predicate Ready(cw: CrossWord, db: WordsDatabase, words: seq<string>)
    reads cw`grid, cw`domains
  {
    cw.Searchable(db, words) && cw.CrossingsExact()
    && Covered(cw.positions, cw.grid) && Consistent(cw.positions, cw.grid, cw.domains, words)
  }

  /** h is g with some open cells filled in: the same shape, and every cell that was not open is kept. */
  ghost predicate Extends(g: Grid, h: Grid)
  {
    SameShape(g, h) && forall c :: InGrid(g, c) && At(g, c) != Open ==> InGrid(h, c) && At(h, c) == At(g, c)
  }

  /** A solution grown from g: no open cell is left, and the text of every slot is a word of the list. */
  ghost predicate Solution(positions: seq<Slot>, g: Grid, h: Grid, words: seq<string>)
  {
    Filled(h) && Extends(g, h) && forall p :: p in positions ==> SlotFits(h, p) && IsWord(words, TextIn(h, p))
  }

  /** The text a grid h spells in each slot that fits it. */
  ghost function TextsOf(positions: seq<Slot>, h: Grid): (texts: map<Slot, string>)
    ensures forall p :: p in texts <==> p in positions && SlotFits(h, p)
  {
    map p | p in positions && SlotFits(h, p) :: TextIn(h, p)
  }

  /**
   * No solution grown from g has been pruned away: for every one, each slot's
   * domain still holds a word spelling that slot's text in it.
   */
  ghost predicate Complete(positions: seq<Slot>, g: Grid, doms: map<Slot, set<nat>>, words: seq<string>)
  {
    forall h :: Solution(positions, g, h, words) ==> Holds(doms, words, TextsOf(positions, h))
  }

  /** A grid grown from g spells, in every slot, a text matching what g holds there. */
  lemma ExtendedText(g: Grid, h: Grid, p: Slot)
    requires Extends(g, h) && SlotFits(g, p)
    ensures SlotFits(h, p) && Matches(TextIn(h, p), TextIn(g, p))
  {
    forall i | 0 <= i < p.length
      ensures TextIn(g, p)[i] == Open || TextIn(g, p)[i] == TextIn(h, p)[i]
    {
      assert InGrid(g, CellAt(p, i));
    }
  }

  /**
   * The texts of a solution grown from g agree wherever two slots cross, and
   * each fits what g already holds in its slot.
   */
  lemma {:induction false} SolutionTexts(cw: CrossWord, g: Grid, h: Grid, words: seq<string>)
    requires cw.CrossingTables() && forall p :: p in cw.positions ==> SlotFits(g, p)
    ensures Solution(cw.positions, g, h, words) ==>
              cw.Agreeing(TextsOf(cw.positions, h)) && Fitting(TextsOf(cw.positions, h), g)
  {
    if Solution(cw.positions, g, h, words) {
      var texts := TextsOf(cw.positions, h);
      forall p, q | p in texts && q in texts && p in cw.overlap && q in cw.overlap[p]
        ensures 0 <= OffsetIn(p, cw.overlap[p][q]) < |texts[p]| && 0 <= OffsetIn(q, cw.overlap[p][q]) < |texts[q]|
        ensures texts[p][OffsetIn(p, cw.overlap[p][q])] == texts[q][OffsetIn(q, cw.overlap[p][q])]
      {
        var c := cw.overlap[p][q];
        OffsetOfCell(p, c);
        OffsetOfCell(q, c);
      }
      forall p | p in texts && SlotFits(g, p)
        ensures Matches(texts[p], TextIn(g, p))
      {
        ExtendedText(g, h, p);
      }
    }
  }

  /**
   * A solution grown from g0 that spells word in slot p is one grown from g1,
   * the grid with word written into p.
   */
  lemma {:induction false} SolutionThroughWrite(positions: seq<Slot>, g0: Grid, g1: Grid, h: Grid, words: seq<string>,
                                                p: Slot, word: string)
    requires WrittenInto(g0, g1, p, word)
    ensures Solution(positions, g0, h, words) && SlotFits(h, p) && TextIn(h, p) == word ==> Solution(positions, g1, h, words)
  {
    if Solution(positions, g0, h, words) && SlotFits(h, p) && TextIn(h, p) == word {
      forall c | InGrid(g1, c) && At(g1, c) != Open
        ensures InGrid(h, c) && At(h, c) == At(g1, c)
      {
        if c in Cells(p) {
          OffsetOfCell(p, c);
          assert At(g1, c) == TextIn(g1, p)[OffsetIn(p, c)];
        }
      }
    }
  }

  /**
   * Conversely, a solution grown from g1, which extends g0 and holds no open
   * cell in slot p, is grown from g0 and spells in p what g1 holds there.
   */
  lemma {:induction false} SolutionOfWrite(positions: seq<Slot>, g0: Grid, g1: Grid, h: Grid, words: seq<string>,
                                           p: Slot, word: string)
    requires WrittenInto(g0, g1, p, word) && Extends(g0, g1)
    requires forall i :: 0 <= i < p.length ==> At(g1, CellAt(p, i)) != Open
    ensures Solution(positions, g1, h, words) ==>
              Solution(positions, g0, h, words) && SlotFits(h, p) && TextIn(h, p) == word
  {
    if Solution(positions, g1, h, words) {
      SolutionGrows(positions, g0, g1, h, words);
      SameShapeFits(g1, h, p);
      forall i | 0 <= i < p.length
        ensures TextIn(h, p)[i] == word[i]
      {
        assert TextIn(g1, p)[i] == word[i];
      }
    }
  }

  lemma SameShapeFits(g: Grid, h: Grid, p: Slot)
    requires SameShape(g, h) && SlotFits(g, p)
    ensures SlotFits(h, p)
  {
  }

  /** A grid with an open cell covered by the slots has an unassigned slot. */
  lemma {:induction false} OpenSlotExists(positions: seq<Slot>, g: Grid)
    requires !Filled(g) && Covered(positions, g)
    requires forall p :: p in positions ==> SlotFits(g, p)
    ensures Unassigned(positions, g) != []
  {
    var r, c :| 0 <= r < |g| && 0 <= c < |g[r]| && g[r][c] == Open;
    assert (r, c) in OpenCells(g);
    var p :| p in positions && (r, c) in Cells(p);
    OffsetOfCell(p, (r, c));
    assert HasOpen(g, p);
    assert p in Unassigned(positions, g);
  }

  /** In a full grid the consistency invariant makes every slot's text a word. */
  lemma {:induction false} FilledSlotsAreWords(positions: seq<Slot>, g: Grid, doms: map<Slot, set<nat>>, words: seq<string>)
    requires Consistent(positions, g, doms, words) && Filled(g)
    ensures forall p :: p in positions ==> SlotFits(g, p) && IsWord(words, TextIn(g, p))
  {
    forall p | p in positions
      ensures IsWord(words, TextIn(g, p))
    {
      var t := TextIn(g, p);
      assert forall i :: 0 <= i < |t| ==> t[i] != Open;
      assert forall v :: v in doms[p] && v < |words| && Matches(words[v], t) ==> words[v] == t;
    }
  }

  /** Writing a word over the open cells of a slot removes at least one open cell and adds none. */
  lemma {:induction false} WriteShrinksOpen(g0: Grid, g1: Grid, p: Slot)
    requires SameShape(g0, g1) && HasOpen(g0, p)
    requires forall i :: 0 <= i < p.length ==> InGrid(g1, CellAt(p, i)) && At(g1, CellAt(p, i)) != Open
    requires forall c :: InGrid(g1, c) && c !in Cells(p) ==> At(g1, c) == At(g0, c)
    ensures OpenCells(g1) < OpenCells(g0)
  {
    var i :| 0 <= i < p.length && At(g0, CellAt(p, i)) == Open;
    assert CellAt(p, i) in OpenCells(g0) - OpenCells(g1);
    forall c | c in OpenCells(g1)
      ensures c in OpenCells(g0)
    {
      if c in Cells(p) {
        OffsetOfCell(p, c);
      }
    }
  }

  /** A slot that does not cross p shares no cell with it. */
  lemma UncrossedDisjoint(cw: CrossWord, p: Slot, q: Slot)
    requires cw.CrossingTables() && cw.CrossingsExact() && p in cw.positions && q in cw.positions
    requires q != p && q !in cw.affected[p]
    ensures forall c :: c in Cells(q) ==> c !in Cells(p)
  {
    assert q !in Neighbours(cw.positions, p);
    forall c | c in Cells(q)
      ensures c !in Cells(p)
    {
      assert c !in Cells(p) * Cells(q);
    }
  }

  /** A cell of q other than the overlap cell is not a cell of the crossing slot p. */
  lemma OnlyOverlapShared(cw: CrossWord, p: Slot, q: Slot, i: nat)
    requires cw.CrossingTables() && cw.CrossingsExact() && p in cw.positions && q in cw.affected[p]
    requires i < q.length && i != OffsetIn(q, cw.overlap[p][q])
    ensures CellAt(q, i) !in Cells(p)
  {
    var c := cw.overlap[p][q];
    var d := CellAt(q, i);
    assert c in Cells(p) * Cells(q);
    OffsetOfCell(q, c);
    assert OffsetIn(q, d) == i;
    assert d in Cells(q);
    assert d in Cells(p) * Cells(q) <==> d == c;
  }

  /** The text of q keeps every letter whose cell lies outside slot p, the only slot written. */
  lemma TextKept(g0: Grid, g1: Grid, p: Slot, q: Slot, i: nat)
    requires SameShape(g0, g1) && SlotFits(g0, q) && SlotFits(g1, q) && i < q.length
    requires forall c :: InGrid(g1, c) && c !in Cells(p) ==> At(g1, c) == At(g0, c)
    requires CellAt(q, i) !in Cells(p)
    ensures TextIn(g1, q)[i] == TextIn(g0, q)[i]
  {
  }

  /** A slot crossing p whose text was a word keeps it: p's word agrees with the letter already at their shared cell. */
  lemma {:induction false} CrossingWordKept(cw: CrossWord, g0: Grid, g1: Grid, words: seq<string>, p: Slot, w: nat, q: Slot)
    requires cw.CrossingTables() && cw.CrossingsExact() && p in cw.positions && q in cw.affected[p]
    requires AllOverAlphabet(words)
    requires SameShape(g0, g1) && SlotFits(g0, p) && SlotFits(g1, p) && SlotFits(g0, q) && SlotFits(g1, q)
    requires w < |words| && Matches(words[w], TextIn(g0, p)) && TextIn(g1, p) == words[w]
    requires forall c :: InGrid(g1, c) && c !in Cells(p) ==> At(g1, c) == At(g0, c)
    requires IsWord(words, TextIn(g0, q))
    ensures TextIn(g1, q) == TextIn(g0, q)
  {
    var c := cw.overlap[p][q];
    var t0, t1 := TextIn(g0, q), TextIn(g1, q);
    OffsetOfCell(q, c);
    OffsetOfCell(p, c);
    var k :| 0 <= k < |words| && words[k] == t0;
    assert IsLetter(t0[OffsetIn(q, c)]);
    forall i | 0 <= i < q.length
      ensures t1[i] == t0[i]
    {
      if i != OffsetIn(q, c) {
        OnlyOverlapShared(cw, p, q, i);
        TextKept(g0, g1, p, q, i);
      }
    }
  }

  /** A slot crossing p whose words all fitted its text still has only fitting words after pruning against p's letter. */
  lemma {:induction false} CrossingWordsFit(cw: CrossWord, g0: Grid, g1: Grid, d0q: set<nat>, d1q: set<nat>,
                                            words: seq<string>, p: Slot, q: Slot)
    requires cw.CrossingTables() && cw.CrossingsExact() && p in cw.positions && q in cw.affected[p]
    requires SameShape(g0, g1) && SlotFits(g0, q) && SlotFits(g1, q)
    requires forall c :: InGrid(g1, c) && c !in Cells(p) ==> At(g1, c) == At(g0, c)
    requires forall v :: v in d0q ==> v < |words| && Matches(words[v], TextIn(g0, q))
    requires d1q <= cw.PrunedDomain(g1, d0q, words, p, q)
    ensures forall v :: v in d1q ==> v < |words| && Matches(words[v], TextIn(g1, q))
  {
    var c := cw.overlap[p][q];
    OffsetOfCell(q, c);
    forall v, i | v in d1q && 0 <= i < q.length
      ensures TextIn(g1, q)[i] == Open || TextIn(g1, q)[i] == words[v][i]
    {
      assert HasLetter(words, v, OffsetIn(q, c), At(g1, c));
      if i != OffsetIn(q, c) {
        OnlyOverlapShared(cw, p, q, i);
        TextKept(g0, g1, p, q, i);
      }
    }
  }

  /**
   * Slot q after a word was written into slot p: p's text is a word; a slot
   * crossing p shares only the overlap cell with it, whose letter its pruned
   * domain agrees with; any other slot is untouched.
   */
  lemma {:induction false} AssignKeepsSlot(cw: CrossWord, g0: Grid, d0: map<Slot, set<nat>>, g1: Grid,
                                           d1: map<Slot, set<nat>>, words: seq<string>, p: Slot, w: nat, q: Slot)
    requires cw.CrossingTables() && cw.CrossingsExact() && p in cw.positions && q in cw.positions
    requires AllOverAlphabet(words)
    requires Consistent(cw.positions, g0, d0, words)
    requires SameShape(g0, g1) && SlotFits(g0, p) && SlotFits(g1, p) && SlotFits(g0, q)
    requires w < |words| && Matches(words[w], TextIn(g0, p)) && TextIn(g1, p) == words[w]
    requires forall c :: InGrid(g1, c) && c !in Cells(p) ==> At(g1, c) == At(g0, c)
    requires q in d1 && d1[q] <= d0[q] && (d1[q] == {} ==> d0[q] == {})
    requires q in cw.affected[p] ==> d1[q] != {} && d1[q] <= cw.PrunedDomain(g1, d0[q], words, p, q)
    ensures SlotFits(g1, q)
    ensures IsWord(words, TextIn(g1, q))
            || ((d1[q] != {} || HasOpen(g1, q)) && forall v :: v in d1[q] ==> v < |words| && Matches(words[v], TextIn(g1, q)))
  {
    SameShapeFits(g0, g1, q);
    if q == p {
      assert IsWord(words, TextIn(g1, q));
    } else if q !in cw.affected[p] {
      UncrossedDisjoint(cw, p, q);
      forall i | 0 <= i < q.length
        ensures TextIn(g1, q)[i] == TextIn(g0, q)[i]
      {
        assert CellAt(q, i) in Cells(q);
        TextKept(g0, g1, p, q, i);
      }
      assert TextIn(g1, q) == TextIn(g0, q);
      if HasOpen(g0, q) {
        var i :| 0 <= i < q.length && At(g0, CellAt(q, i)) == Open;
        assert At(g1, CellAt(q, i)) == TextIn(g1, q)[i];
      }
    } else if IsWord(words, TextIn(g0, q)) {
      CrossingWordKept(cw, g0, g1, words, p, w, q);
    } else {
      CrossingWordsFit(cw, g0, g1, d0[q], d1[q], words, p, q);
    }
  }

  /** The consistency invariant survives writing a matching word and pruning with update_domains. */
  lemma {:induction false} AssignKeeps(cw: CrossWord, g0: Grid, d0: map<Slot, set<nat>>, g1: Grid,
                                       d1: map<Slot, set<nat>>, words: seq<string>, p: Slot, w: nat)
    requires cw.CrossingTables() && cw.CrossingsExact() && p in cw.positions
    requires AllOverAlphabet(words)
    requires Consistent(cw.positions, g0, d0, words)
    requires SameShape(g0, g1) && SlotFits(g1, p)
    requires w < |words| && Matches(words[w], TextIn(g0, p)) && TextIn(g1, p) == words[w]
    requires forall c :: InGrid(g1, c) && c !in Cells(p) ==> At(g1, c) == At(g0, c)
    requires forall q :: q in cw.positions ==> q in d1
    requires forall q :: q in d1 ==> q in d0 && d1[q] <= d0[q]
    requires forall q :: q in d1 && d1[q] == {} ==> d0[q] == {}
    requires forall q :: q in cw.affected[p] ==> d1[q] != {} && d1[q] <= cw.PrunedDomain(g1, d0[q], words, p, q)
    ensures Consistent(cw.positions, g1, d1, words)
    ensures Extends(g0, g1)
  {
    forall q | q in cw.positions
      ensures SlotFits(g1, q) && q in d1
      ensures IsWord(words, TextIn(g1, q))
              || ((d1[q] != {} || HasOpen(g1, q)) && forall v :: v in d1[q] ==> v < |words| && Matches(words[v], TextIn(g1, q)))
    {
      AssignKeepsSlot(cw, g0, d0, g1, d1, words, p, w, q);
    }
    forall c | InGrid(g0, c) && At(g0, c) != Open
      ensures InGrid(g1, c) && At(g1, c) == At(g0, c)
    {
      if c in Cells(p) {
        OffsetOfCell(p, c);
      }
    }
  }

  /**
   * After a word w that fits slot p (which had an open cell) was written and
   * update_domains succeeded, the search may go on: the state is ready again,
   * it has fewer open cells, and it extends the grid before the write.
   */
  lemma AssignReady(cw: CrossWord, db: WordsDatabase, words: seq<string>, g0: Grid, d0: map<Slot, set<nat>>, g1: Grid,
                    p: Slot, w: nat)
    requires cw.grid == g1 && cw.Searchable(db, words) && cw.CrossingsExact()
    requires Covered(cw.positions, g0) && Consistent(cw.positions, g0, d0, words)
    requires p in cw.positions && HasOpen(g0, p)
    requires w < |words| && Matches(words[w], TextIn(g0, p))
    requires WrittenInto(g0, g1, p, words[w])
    requires forall q :: q in cw.domains ==> q in d0 && cw.domains[q] <= d0[q]
    requires forall q :: q in cw.domains && cw.domains[q] == {} ==> d0[q] == {}
    requires forall q :: q in cw.affected[p] ==> cw.domains[q] != {} && cw.domains[q] <= cw.PrunedDomain(g1, d0[q], words, p, q)
    ensures Ready(cw, db, words)
    ensures |OpenCells(g1)| < |OpenCells(g0)|
    ensures Extends(g0, g1)
  {
    AssignKeeps(cw, g0, d0, g1, cw.domains, words, p, w);
    forall i | 0 <= i < p.length
      ensures InGrid(g1, CellAt(p, i)) && At(g1, CellAt(p, i)) != Open
    {
      assert IsLetter(words[w][i]);
    }
    WriteShrinksOpen(g0, g1, p);
    ProperSubsetSmaller(OpenCells(g1), OpenCells(g0));
    CoveredShrinks(cw.positions, g0, g1);
  }

  /** g1 is g0 with word written into slot p: the same shape, p reads the word, every other cell is kept. */
  ghost predicate WrittenInto(g0: Grid, g1: Grid, p: Slot, word: string)
  {
    SameShape(g0, g1) && SlotFits(g1, p) && TextIn(g1, p) == word
    && forall c :: InGrid(g1, c) && c !in Cells(p) ==> At(g1, c) == At(g0, c)
  }

  lemma ProperSubsetSmaller<T>(a: set<T>, b: set<T>)
    requires a < b
    ensures |a| < |b|
  {
    var x :| x in b && x !in a;
    assert |b| == |a| + |b - a|;
    assert x in b - a;
  }

  lemma CoveredShrinks(positions: seq<Slot>, g0: Grid, g1: Grid)
    requires Covered(positions, g0) && OpenCells(g1) <= OpenCells(g0)
    ensures Covered(positions, g1)
  {
  }

  // ---------------------------------------------------------------------------
  // The search
  // ---------------------------------------------------------------------------

  /**
   * solve_backtrack: succeed on a full grid; otherwise choose an unassigned
   * slot and try the words of its domain one by one until one leads to a
   * solution. A success leaves a solution grown from the grid it started
   * with; a failure leaves the grid and the domains exactly as they were, and,
   * when the domains have lost no solution, means that there is none.
   */
  method SolveBacktrack(cw: CrossWord, db: WordsDatabase, words: seq<string>, maintainAc: bool,
                        heuristic: VariableHeuristic) returns (solved: bool)
    requires Ready(cw, db, words) && Complete(cw.positions, cw.grid, cw.domains, words)
    modifies cw
    ensures solved ==> Solution(cw.positions, old(cw.grid), cw.grid, words)
    ensures !solved ==> cw.grid == old(cw.grid) && cw.domains == old(cw.domains)
    ensures !solved ==> forall h :: !Solution(cw.positions, old(cw.grid), h, words)
    decreases |OpenCells(cw.grid)|, 1
  {
    if Filled(cw.grid) {
      FilledSlotsAreWords(cw.positions, cw.grid, cw.domains, words);
      return true;
    }
    var unassigned := Unassigned(cw.positions, cw.grid);
    OpenSlotExists(cw.positions, cw.grid);
    var p := unassigned[ChooseSlot(heuristic, unassigned, cw.affected, cw.positions, cw.domains)];
    var candidates := cw.domains[p];
    UntriedStart(cw.positions, cw.grid, cw.domains, words, p);
    while candidates != {}
      invariant cw.grid == old(cw.grid) && cw.domains == old(cw.domains)
      invariant Ready(cw, db, words) && Complete(cw.positions, cw.grid, cw.domains, words)
      invariant Untried(cw.positions, cw.grid, words, p, candidates)
      decreases candidates
    {
      var w :| w in candidates;
      candidates := candidates - {w};
      solved := TryWord(cw, db, words, maintainAc, heuristic, p, w);
      if solved {
        return;
      }
      UntriedStep(cw.positions, cw.grid, words, p, candidates + {w}, w);
    }
    UntriedNone(cw.positions, cw.grid, words, p);
    return false;
  }

  /** Every solution grown from g spells in slot p a word whose index is among candidates. */
  ghost predicate Untried(positions: seq<Slot>, g: Grid, words: seq<string>, p: Slot, candidates: set<nat>)
  {
    forall h :: Solution(positions, g, h, words) ==>
      SlotFits(h, p) && exists k :: k in candidates && k < |words| && words[k] == TextIn(h, p)
  }

  /** When the domains lost no solution, the domain of slot p covers every solution's word there. */
  lemma {:induction false} UntriedStart(positions: seq<Slot>, g: Grid, doms: map<Slot, set<nat>>, words: seq<string>,
                                        p: Slot)
    requires Complete(positions, g, doms, words) && p in positions && p in doms
    ensures Untried(positions, g, words, p, doms[p])
  {
    forall h | Solution(positions, g, h, words)
      ensures SlotFits(h, p) && exists k :: k in doms[p] && k < |words| && words[k] == TextIn(h, p)
    {
      assert TextsOf(positions, h)[p] == TextIn(h, p);
    }
  }

  /** A candidate no solution spells in slot p can be struck off. */
  lemma {:induction false} UntriedStep(positions: seq<Slot>, g: Grid, words: seq<string>, p: Slot,
                                       candidates: set<nat>, w: nat)
    requires Untried(positions, g, words, p, candidates) && p in positions && w < |words|
    requires forall h :: Solution(positions, g, h, words) ==> TextIn(h, p) != words[w]
    ensures Untried(positions, g, words, p, candidates - {w})
  {
  }

  /** With no candidate left there is no solution. */
  lemma {:induction false} UntriedNone(positions: seq<Slot>, g: Grid, words: seq<string>, p: Slot)
    ensures Untried(positions, g, words, p, {}) ==> forall h :: !Solution(positions, g, h, words)
  {
  }

  /**
   * One turn of solve_backtrack's loop: if word w can be written into slot p,
   * write it, prune with update_domains and recurse; after a failed prune or a
   * failed recursion restore the grid and the domains from the copies. A
   * failure, when the domains have lost no solution, means that no solution
   * spells word w in slot p.
   */
  method TryWord(cw: CrossWord, db: WordsDatabase, words: seq<string>, maintainAc: bool,
                 heuristic: VariableHeuristic, p: Slot, w: nat) returns (solved: bool)
    requires Ready(cw, db, words) && Complete(cw.positions, cw.grid, cw.domains, words)
    requires p in cw.positions && HasOpen(cw.grid, p) && w < |words|
    modifies cw
    ensures solved ==> Solution(cw.positions, old(cw.grid), cw.grid, words)
    ensures !solved ==> cw.grid == old(cw.grid) && cw.domains == old(cw.domains)
    ensures !solved ==> forall h :: Solution(cw.positions, old(cw.grid), h, words) ==> TextIn(h, p) != words[w]
    decreases |OpenCells(cw.grid)|, 0
  {
    var domainsBefore, gridBefore := cw.domains, cw.grid;
    solved := false;
    var fits := cw.CanWriteWord(p, words[w]);
    if fits {
      var pruned := Assign(cw, db, words, maintainAc, p, w);
      if pruned {
        ghost var written := cw.grid;
        solved := SolveBacktrack(cw, db, words, maintainAc, heuristic);
        if solved {
          SolutionGrows(cw.positions, gridBefore, written, cw.grid, words);
          return;
        }
      }
      Restore(cw, gridBefore, domainsBefore);
    } else {
      forall h | Solution(cw.positions, gridBefore, h, words)
        ensures TextIn(h, p) != words[w]
      {
        ExtendedText(gridBefore, h, p);
      }
    }
  }

  /** Put back the grid and the domains copied before a word was tried. */
  method Restore(cw: CrossWord, g: Grid, d: map<Slot, set<nat>>)
    modifies cw`grid, cw`domains
    ensures cw.grid == g && cw.domains == d
  {
    cw.grid := g;
    cw.domains := d;
  }

  /** A solution grown from h is one grown from g when h extends g. */
  lemma SolutionGrows(positions: seq<Slot>, g: Grid, h: Grid, k: Grid, words: seq<string>)
    requires Extends(g, h) && Solution(positions, h, k, words)
    ensures Solution(positions, g, k, words)
  {
  }

  /**
   * Write word w, which fits slot p, into p and prune the domains with
   * update_domains. When pruning succeeds the search may go on from the new
   * state: it is ready, has fewer open cells, and extends the old grid, whose
   * solutions spelling w in p are exactly the new grid's solutions, none of
   * them pruned away. Pruning fails only when no solution spells w in p.
   */
  method Assign(cw: CrossWord, db: WordsDatabase, words: seq<string>, maintainAc: bool, p: Slot, w: nat)
    returns (pruned: bool)
    requires Ready(cw, db, words) && Complete(cw.positions, cw.grid, cw.domains, words)
    requires p in cw.positions && HasOpen(cw.grid, p)
    requires w < |words| && Matches(words[w], TextIn(cw.grid, p))
    modifies cw
    ensures pruned ==> Ready(cw, db, words) && |OpenCells(cw.grid)| < |OpenCells(old(cw.grid))|
    ensures pruned ==> Extends(old(cw.grid), cw.grid)
    ensures pruned ==> Complete(cw.positions, cw.grid, cw.domains, words)
    ensures pruned ==> forall h :: Solution(cw.positions, cw.grid, h, words) <==>
                         Solution(cw.positions, old(cw.grid), h, words) && TextIn(h, p) == words[w]
    ensures !pruned ==> forall h :: Solution(cw.positions, old(cw.grid), h, words) ==> TextIn(h, p) != words[w]
  {
    ghost var domainsBefore, gridBefore := cw.domains, cw.grid;
    WriteStep(cw, db, words, p, w);
    ghost var written := cw.grid;
    pruned := cw.UpdateDomains(p, db, words, maintainAc);
    if pruned {
      AssignReady(cw, db, words, gridBefore, domainsBefore, written, p, w);
      WrittenSolutions(cw, gridBefore, domainsBefore, written, cw.domains, words, p, w);
    } else {
      forall h | Solution(cw.positions, gridBefore, h, words)
        ensures TextIn(h, p) != words[w]
      {
        SolutionThroughWrite(cw.positions, gridBefore, written, h, words, p, words[w]);
        SolutionTexts(cw, written, h, words);
      }
    }
  }

  /**
   * After a word was written into slot p and the domains pruned without
   * losing a text of a solution of the new grid, the new grid's solutions are
   * the old grid's solutions spelling the word in p, and none was pruned away.
   */
  lemma {:induction false} WrittenSolutions(cw: CrossWord, g0: Grid, d0: map<Slot, set<nat>>, g1: Grid,
                                            d1: map<Slot, set<nat>>, words: seq<string>, p: Slot, w: nat)
    requires cw.CrossingTables() && p in cw.positions && w < |words| && (forall q :: q in cw.positions ==> SlotFits(g1, q))
    requires WrittenInto(g0, g1, p, words[w]) && Extends(g0, g1)
    requires forall i :: 0 <= i < p.length ==> IsLetter(At(g1, CellAt(p, i)))
    requires Complete(cw.positions, g0, d0, words)
    requires forall texts :: cw.Agreeing(texts) && Fitting(texts, g1) && Holds(d0, words, texts) ==> Holds(d1, words, texts)
    ensures Complete(cw.positions, g1, d1, words)
    ensures forall h :: Solution(cw.positions, g1, h, words) <==>
                        Solution(cw.positions, g0, h, words) && TextIn(h, p) == words[w]
  {
    forall h
      ensures Solution(cw.positions, g1, h, words) <==>
              Solution(cw.positions, g0, h, words) && TextIn(h, p) == words[w]
      ensures Solution(cw.positions, g1, h, words) ==> Holds(d1, words, TextsOf(cw.positions, h))
    {
      SolutionOfWrite(cw.positions, g0, g1, h, words, p, words[w]);
      SolutionThroughWrite(cw.positions, g0, g1, h, words, p, words[w]);
      SolutionTexts(cw, g1, h, words);
    }
  }

  /**
   * The write half of Assign: word w goes into slot p, the domains stay as
   * they are, the slots still fit the grid, and p now holds alphabet letters,
   * which is what the pruning step looks up.
   */
  method WriteStep(cw: CrossWord, db: WordsDatabase, words: seq<string>, p: Slot, w: nat)
    requires Ready(cw, db, words) && p in cw.positions
    requires w < |words| && |words[w]| == p.length
    modifies cw
    ensures cw.Searchable(db, words) && cw.domains == old(cw.domains)
    ensures WrittenInto(old(cw.grid), cw.grid, p, words[w])
    ensures forall i :: 0 <= i < p.length ==> IsLetter(At(cw.grid, CellAt(p, i)))
  {
    ghost var g0 := cw.grid;
    cw.WriteWord(p, words[w]);
    ghost var g1 := cw.grid;
    assert words[w][..p.length] == words[w];
    forall q | q in cw.positions
      ensures SlotFits(g1, q) && forall c :: c in Cells(q) ==> InGrid(g1, c)
    {
      SameShapeFits(g0, g1, q);
    }
    forall i | 0 <= i < p.length
      ensures IsLetter(At(g1, CellAt(p, i)))
    {
      assert TextIn(g1, p)[i] == words[w][i];
    }
  }

  /** Every cell of every slot is open: the grid skeleton the solver is given. */
  ghost predicate BlankSlots(positions: seq<Slot>, g: Grid)
  {
    forall p :: p in positions ==> SlotFits(g, p) && p.length > 0 && forall i :: 0 <= i < p.length ==> At(g, CellAt(p, i)) == Open
  }

  /**
   * solve: give every slot the words of its length as its domain, build the
   * word database, make the domains arc consistent when asked to (ignoring
   * the outcome), and run the backtracking search.
   */
  method Solve(cw: CrossWord, words: seq<string>, maintainAc: bool, heuristic: VariableHeuristic) returns (solved: bool)
    requires cw.Valid() && cw.CrossingsExact()
    requires AllOverAlphabet(words)
    requires forall p :: p in cw.positions ==> exists k :: 0 <= k < |words| && |words[k]| == p.length
    requires BlankSlots(cw.positions, cw.grid) && Covered(cw.positions, cw.grid)
    modifies cw
    ensures solved ==> Solution(cw.positions, old(cw.grid), cw.grid, words)
    ensures !solved ==> cw.grid == old(cw.grid)
    ensures !solved ==> forall h :: !Solution(cw.positions, old(cw.grid), h, words)
  {
    var db := Prepare(cw, words, maintainAc);
    solved := SolveBacktrack(cw, db, words, maintainAc, heuristic);
  }

  /**
   * The set-up half of solve: domains of the words of each slot's length, the
   * word database, and the optional initial arc consistency pass, after which
   * the search may start.
   */
  method Prepare(cw: CrossWord, words: seq<string>, maintainAc: bool) returns (db: WordsDatabase)
    requires cw.Valid() && cw.CrossingsExact()
    requires AllOverAlphabet(words)
    requires forall p :: p in cw.positions ==> exists k :: 0 <= k < |words| && |words[k]| == p.length
    requires BlankSlots(cw.positions, cw.grid) && Covered(cw.positions, cw.grid)
    modifies cw`domains
    ensures Ready(cw, db, words)
    ensures Complete(cw.positions, cw.grid, cw.domains, words)
  {
    ghost var g := cw.grid;
    InitialDomains(cw, words);
    AllWordsComplete(cw.positions, g, cw.domains, words);
    ghost var d0 := cw.domains;
    db := CreateWordDatabase(words);
    assert cw.LengthsIndexed(db);
    if maintainAc {
      InitialArcConsistency(cw, db, words);
      forall h | Solution(cw.positions, g, h, words)
        ensures Holds(cw.domains, words, TextsOf(cw.positions, h))
      {
        SolutionTexts(cw, g, h, words);
      }
    }
    assert cw.grid == g;
    InitiallyConsistent(cw.positions, g, cw.domains, words);
    assert cw.Searchable(db, words);
  }

  /** Every slot starts with the indexes of all the words of its length as its domain. */
  method InitialDomains(cw: CrossWord, words: seq<string>)
    requires forall p :: p in cw.positions ==> exists k :: 0 <= k < |words| && |words[k]| == p.length
    modifies cw`domains
    ensures forall p :: p in cw.domains <==> p in cw.positions
    ensures forall p :: p in cw.domains ==> forall w :: w in cw.domains[p] <==> 0 <= w < |words| && |words[w]| == p.length
  {
    var byLength := SplitWordsByLength(words);
    cw.domains := map p | p in cw.positions :: byLength[p.length];
  }

  /**
   * The arc consistency pass solve makes over every crossing before the
   * search; its outcome is ignored, so only the shape of the domains matters
   * afterwards.
   */
  method InitialArcConsistency(cw: CrossWord, db: WordsDatabase, words: seq<string>)
    requires cw.Searchable(db, words)
    modifies cw`domains
    ensures cw.DomainsFit(cw.domains, words)
    ensures forall texts :: cw.Agreeing(texts) && Holds(old(cw.domains), words, texts) ==> Holds(cw.domains, words, texts)
  {
    var _ := cw.ArcConsistency(CrossingArcs(cw), db, words);
  }

  /** Every crossing, in both directions: the arcs of the initial arc consistency pass. */
  function CrossingArcs(cw: CrossWord): (arcs: set<(Slot, Slot)>)
    requires cw.CrossingTables()
    ensures forall arc :: arc in arcs ==> cw.IsArc(arc)
    ensures forall p, q :: p in cw.positions && q in cw.affected[p] ==> (p, q) in arcs
  {
    set p, q | p in cw.positions && q in cw.affected[p] :: (p, q)
  }

  /** Domains holding every word of each slot's length lose no solution. */
  lemma {:induction false} AllWordsComplete(positions: seq<Slot>, g: Grid, doms: map<Slot, set<nat>>, words: seq<string>)
    requires forall p :: p in doms ==> p in positions && forall w :: 0 <= w < |words| && |words[w]| == p.length ==> w in doms[p]
    ensures Complete(positions, g, doms, words)
  {
    forall h, p | Solution(positions, g, h, words) && p in doms
      ensures p in TextsOf(positions, h)
      ensures exists k :: k in doms[p] && k < |words| && words[k] == TextsOf(positions, h)[p]
    {
      var k :| 0 <= k < |words| && words[k] == TextIn(h, p);
      assert k in doms[p];
    }
  }

  /** Non-empty domains of fitting words over blank slots satisfy the consistency invariant. */
  lemma {:induction false} InitiallyConsistent(positions: seq<Slot>, g: Grid, doms: map<Slot, set<nat>>, words: seq<string>)
    requires BlankSlots(positions, g)
    requires forall p :: p in positions ==> p in doms
    requires forall p :: p in positions ==> forall w :: w in doms[p] ==> w < |words| && |words[w]| == p.length
    ensures Consistent(positions, g, doms, words)
  {
    forall p | p in positions
      ensures HasOpen(g, p)
    {
      assert At(g, CellAt(p, 0)) == Open;
    }
    forall p, w | p in positions && w in doms[p]
      ensures Matches(words[w], TextIn(g, p))
    {
      var t := TextIn(g, p);
      assert forall i :: 0 <= i < |t| ==> t[i] == Open;
    }
  }
}
