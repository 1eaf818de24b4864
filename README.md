# Verified models of four student projects

This project models, in Dafny, the rule and algorithm cores of four independent programs from one repository of university projects, and proves what each promises.

- **Crossword CSP solver** (`crossword-CSP-solver/crossword.py`):
  - a grid of `'#'` and `' '` cells becomes word slots (runs of open cells closed by a block, to the right or down);
  - crossing slots and their shared cells are computed;
  - words are indexed by length, position and letter;
  - a backtracking search fills the grid, choosing the next slot by degree or by fewest remaining values;
  - the search prunes the slots' domains of candidate words after each assignment, and optionally with an AC-3 worklist, restoring grid and domains when a candidate fails.
- **Azul rules engine** (`azul-board-game/azul/*.py`):
  - tiles and points;
  - pattern lines that fill and overflow to the floor;
  - wall lines with colour-to-column placement and adjacency scoring;
  - boards with round and end-game scoring;
  - the bag drawing through a permutation and refilling from used tiles;
  - factories, the table centre and the table area;
  - the end-game bonus calculators;
  - the game: start checks, turns, the starting-player marker, rounds and dense ranking.
- **Delivery-service simulation** (`delivery-service-simulation/delivery-service/*.cpp`):
  - cities with first-wins neighbour distances;
  - the map: road creation, path distance, and the shortest-path search with its predecessor table;
  - couriers: path planning on `deliver`, a day-by-day drive with a carried-over distance budget, pick-ups and deliveries;
  - the courier handler: id generation, choice of the cheapest courier and pricing;
  - the delivery service: post-receipt validation, weight multipliers, package ids, the log order and time shifts.
- **Fantom pawns** (`fantom-board-game/hrac.py`): the agents and the phantom of a Scotland Yard variant, placed on any node numbered up to 202 and moving by handing in one ticket of a transport kind.

Objects whose fields the programs update in place are classes with `modifies` and `reads` frames (`CrossWord`, `PatternLine`, `Wall`, `Board`, `Bag`, `TableArea`, `Game`, `City`, `Map`, `Courier`, `CourierHandler`, `DeliveryService`, `Pawn`). Each of their methods is specified by functions of the old state, and lemmas prove what the programs promise about those functions. Pure computations are functions with lemmas. Loops are methods with invariants.

Two defects in the delivery service (see "## Findings") are each modelled twice. An as-written member exhibits the defect on a concrete map. A corrected member, with the intended property proved, is the one the rest of the model uses.

## Model

| member | source | states |
|---|---|---|
| `CrosswordGrid.CheckLine` | crossword-CSP-solver/crossword.py:49-60 | the runs emitted for a line are exactly its runs of at least two open cells that a blocked cell closes (a run touching the end of the line is not emitted), in increasing order |
| `CrosswordGrid.ScanCell` | crossword-CSP-solver/crossword.py:52-59 | one step of the scan keeps the scan invariant: every run closed before the next cell is listed, and the remembered start is the first open cell of the current gap |
| `CrosswordGrid.PrevBlocked` | crossword-CSP-solver/crossword.py:53-58 | the last blocked cell before an index: blocked itself, and nothing between it and the index is blocked |
| `CrosswordGrid.ClosedRun` | crossword-CSP-solver/crossword.py:53-56 | a blocked cell closes the run begun at the first open cell of its gap, exactly when that run is at least two long, and no other run ends there |
| `CrosswordGrid.NoRunClosed` | crossword-CSP-solver/crossword.py:53-56 | a blocked cell after a gap without open cells closes no run |
| `CrosswordGrid.RunsDisjoint` | crossword-CSP-solver/crossword.py:49-60 | two different runs of one line never overlap |
| `CrosswordGrid.ListedNext` | crossword-CSP-solver/crossword.py:52-59 | passing a cell adds to the list exactly the runs that cell closes |
| `CrosswordGrid.Column` | crossword-CSP-solver/crossword.py:67 | column c read top to bottom: one entry per row, entry r is `grid[r][c]` |
| `CrosswordGrid.RowSlots` | crossword-CSP-solver/crossword.py:65 | the slots of row r are exactly its runs tagged Right |
| `CrosswordGrid.ColumnSlots` | crossword-CSP-solver/crossword.py:68 | the slots of column c are exactly its runs tagged Down |
| `CrosswordGrid.GetPositions` | crossword-CSP-solver/crossword.py:43-70 | the positions are exactly the closed runs of the rows (Right) and of the columns (Down), with every row slot listed before every column slot |
| `CrosswordGrid.SlotOfGridFacts` | crossword-CSP-solver/crossword.py:43-70 | every position is at least two cells long, lies inside the grid and has no blocked cell |
| `CrosswordGrid.CrossingIsUnique` | crossword-CSP-solver/crossword.py:98-100 | two different positions share at most one cell, so the overlap cell is well defined |
| `CrosswordGrid.TextIn` | crossword-CSP-solver/crossword.py:112-116 | the text at a position has its length, and its letter i is the grid cell i steps from the start in its direction |
| `CrosswordGrid.FilledIffNoOpenCell` | crossword-CSP-solver/crossword.py:422 | the grid holds no `' '` exactly when its set of open cells is empty |
| `CrosswordGrid.OffsetOfCell` | crossword-CSP-solver/crossword.py:196 | the index of a shared cell in a slot is in range and names that cell |
| `Crossword.SlotSquares` | crossword-CSP-solver/crossword.py:79-85 | stepping from a slot's first cell collects exactly its cells |
| `Crossword.AllSquares` | crossword-CSP-solver/crossword.py:77-85 | the squares table has one entry per position, its set of cells |
| `Crossword.CrossingSlots` | crossword-CSP-solver/crossword.py:89-100 | for one position: the other positions sharing a cell with it, each mapped to a cell in both |
| `Crossword.ComputeNeighbours` | crossword-CSP-solver/crossword.py:73-100 | `positions_affected[p]` is exactly the other positions sharing a cell with p, and `overlap[p][q]` is defined for exactly those q and lies in both slots |
| `Crossword.Neighbours` | crossword-CSP-solver/crossword.py:92-99 | q is a neighbour of p exactly when q is a position, differs from p and shares a cell with it |
| `Crossword.CrossWord.constructor` | crossword-CSP-solver/crossword.py:37-40 | the crossword keeps the grid, its positions are exactly the grid's slots, and the crossing tables are exact |
| `Crossword.CrossWord.OverlapSymmetric` | crossword-CSP-solver/crossword.py:98-100 | crossing is symmetric and both directions name the same overlap cell |
| `Crossword.CrossWord.WriteWord` | crossword-CSP-solver/crossword.py:119-126 | after writing, the text at the slot is the word's first `length` letters, every other cell is unchanged, and the domains are untouched |
| `Crossword.CrossWord.CanWriteWord` | crossword-CSP-solver/crossword.py:129-162 | true exactly when the slot is a position, the word has its length, and every cell is open or already holds the word's letter |
| `Crossword.Filter` | crossword-CSP-solver/crossword.py:200 | the words of a domain with a given letter at a given index: a subset of the domain, with exactly those words |
| `Crossword.CrossWord.PruneCrossing` | crossword-CSP-solver/crossword.py:189-200 | the new domain of a crossing slot is its old domain cut to the words with the written letter at the shared cell |
| `Crossword.CrossWord.CrossingBucket` | crossword-CSP-solver/crossword.py:196-200 | the database lookup update_domains makes is defined (no KeyError) and the bucket meets the domain in exactly the words with that letter |
| `Crossword.CrossWord.PruneCrossings` | crossword-CSP-solver/crossword.py:188-207 | domains only shrink; on success every crossing slot holds its pruned domain, none empty, and the others are unchanged; on failure some crossing slot's pruned domain is empty |
| `Crossword.CrossWord.PruneStep` | crossword-CSP-solver/crossword.py:200-207 | storing one more non-empty pruned domain keeps the pruning invariant |
| `Crossword.CrossWord.PrunedAll` | crossword-CSP-solver/crossword.py:188-207 | once every crossing slot is pruned, crossing slots hold their pruned domains and all others their old ones |
| `Crossword.CrossWord.PrunedShrinks` | crossword-CSP-solver/crossword.py:207 | pruning only ever drops words |
| `Crossword.CrossWord.UpdateDomains` | crossword-CSP-solver/crossword.py:165-217 | domains only shrink; on success each crossing slot keeps a non-empty subset of its pruned domain (exactly it without arc consistency) and, with arc consistency, is consistent with the written slot; failure means an emptied pruned domain or a wiped-out arc; for any texts of the slots that agree where slots cross and fit the grid, a word spelling each text that survived before survives, and then the update succeeds |
| `Crossword.CrossWord.PrunedKeepsText` | crossword-CSP-solver/crossword.py:196-200 | a text of a crossing slot that fits the grid has the written letter at the shared cell, so pruning keeps the word spelling it |
| `Crossword.CrossWord.PruneKeeps` | crossword-CSP-solver/crossword.py:188-207 | the first loop of update_domains keeps, in every domain, the word spelling each text of texts fitting the grid, and it fails only when no such texts exist |
| `Crossword.CrossWord.Revise` | crossword-CSP-solver/crossword.py:241-251 | the revised domain of p1 keeps exactly the words that some word of p2's domain supports at the shared cell |
| `Crossword.CrossWord.BucketDecidesSupport` | crossword-CSP-solver/crossword.py:246-250 | the lookup arc_consistency makes is defined and finds a word exactly when the word is supported |
| `Crossword.CrossWord.SearchableBucketsDecide` | crossword-CSP-solver/crossword.py:246-250 | every lookup of an arc between crossing slots is defined and decides support |
| `Crossword.CrossWord.Requeued` | crossword-CSP-solver/crossword.py:265 | the re-queued arcs are exactly the (p3, p) with p a position, p3 crossing p and p3 different from the popped p2 (the comprehension rebinds p1) |
| `Crossword.CrossWord.ArcConsistency` | crossword-CSP-solver/crossword.py:220-268 | domains only shrink and never to empty, each dropped word lacks support from some crossing slot; on success every initial arc is consistent, on failure some arc would wipe a domain out; when every given arc already holds it succeeds and changes no domain, so a second pass is idle; for any texts that agree where slots cross, a word spelling a slot's text is never dropped, and then the pass succeeds; the loop terminates |
| `Crossword.CrossWord.ReviseKeepsText` | crossword-CSP-solver/crossword.py:245-251 | revising arc (p2, p1) keeps the word spelling p1's text in agreeing texts, since the word spelling p2's text supports it |
| `Crossword.CrossWord.ReviseKeeps` | crossword-CSP-solver/crossword.py:241-262 | after a revision every agreeing choice of texts still has its words in the domains, and the revised domain is not empty |
| `Crossword.CrossWord.SettledRevise` | crossword-CSP-solver/crossword.py:240-260 | revising a queued arc drops a word only when some given arc did not hold on entry |
| `Crossword.CrossWord.StoreStep` | crossword-CSP-solver/crossword.py:253-265 | storing a smaller non-empty revised domain and re-queueing keeps the loop invariant and lowers the number of (slot, word) pairs, which is why the loop ends |
| `Crossword.CrossWord.KeepStep` | crossword-CSP-solver/crossword.py:255-257 | popping an arc that already holds keeps the loop invariant |
| `Crossword.CrossWord.StoreCovers` | crossword-CSP-solver/crossword.py:264-265 | after a store, every arc is queued or consistent |
| `Crossword.CrossWord.StoreJustified` | crossword-CSP-solver/crossword.py:250-251 | every word ever dropped lacks support from a crossing slot |
| `Crossword.CrossWord.PopCovers` | crossword-CSP-solver/crossword.py:240 | an arc that holds can leave the queue |
| `Crossword.CrossWord.SupportShrinks` | crossword-CSP-solver/crossword.py:250 | support lost stays lost when domains shrink |
| `Crossword.PairsShrink` | crossword-CSP-solver/crossword.py:264 | storing a strictly smaller domain lowers the total number of (slot, word) pairs |
| `CrosswordWords.SplitWordsByLength` | crossword-CSP-solver/crossword.py:330-345 | every word's length is a key, no set is empty, and the set of length L holds exactly the indexes of the words of length L |
| `CrosswordWords.AlphabetLetters` | crossword-CSP-solver/crossword.py:361 | the alphabet is exactly the letters a to z and the apostrophe |
| `CrosswordWords.LetterBuckets` | crossword-CSP-solver/crossword.py:368-370 | one empty bucket for every letter of the alphabet |
| `CrosswordWords.EmptyBuckets` | crossword-CSP-solver/crossword.py:367-370 | a new length gets an empty bucket for every position and letter |
| `CrosswordWords.CreateWordDatabase` | crossword-CSP-solver/crossword.py:348-375 | `db[L][j][c]` exists for every length that occurs, every j < L and every letter, and holds exactly the indexes of the words of length L with letter c at position j |
| `CrosswordWords.IndexWord` | crossword-CSP-solver/crossword.py:362-373 | one pass of the outer loop turns a database of the first i words into one of the first i + 1 |
| `CrosswordWords.InsertBucket` | crossword-CSP-solver/crossword.py:373 | inserting an index changes exactly one bucket, by adding that index |
| `CrosswordWords.FillBucket` | crossword-CSP-solver/crossword.py:372-373 | after letter j of word i is indexed, the bucket holds word i exactly when that letter matches |
| `CrosswordWords.LookupBucket` | crossword-CSP-solver/crossword.py:200 | among words of length L, those in `db[L][j][c]` are exactly the ones with letter c at position j |
| `CrosswordSolver.Unassigned` | crossword-CSP-solver/crossword.py:426 | the unassigned positions are exactly those whose text still contains an open cell |
| `CrosswordSolver.DegreeCountsOpenCrossings` | crossword-CSP-solver/crossword.py:430 | the degree key counts the crossing slots that are still unassigned |
| `CrosswordSolver.FirstMax` | crossword-CSP-solver/crossword.py:433 | Python's max: a largest key, and the first one among equals |
| `CrosswordSolver.ChooseSlot` | crossword-CSP-solver/crossword.py:429-437 | degree picks the first slot of largest degree key, MRV the first of smallest domain, otherwise the first unassigned slot |
| `CrosswordSolver.OpenSlotExists` | crossword-CSP-solver/crossword.py:422-433 | when the grid is not full and every open cell lies in a slot, an unassigned slot exists (the max is never taken of an empty list) |
| `CrosswordSolver.FilledSlotsAreWords` | crossword-CSP-solver/crossword.py:422-423 | in a full grid the search invariant makes every slot's text a word |
| `CrosswordSolver.WriteShrinksOpen` | crossword-CSP-solver/crossword.py:470 | writing a word over a slot with an open cell removes at least one open cell and adds none |
| `CrosswordSolver.CrossingWordKept` | crossword-CSP-solver/crossword.py:468-470 | a crossing slot that held a word keeps it, since the matching word agrees at the shared cell |
| `CrosswordSolver.CrossingWordsFit` | crossword-CSP-solver/crossword.py:474 | after pruning, every word left for a crossing slot still fits its text |
| `CrosswordSolver.AssignKeeps` | crossword-CSP-solver/crossword.py:468-474 | writing a matching word and pruning keeps the search invariant and extends the grid |
| `CrosswordSolver.AssignReady` | crossword-CSP-solver/crossword.py:468-480 | after a successful write and prune the search may recurse: the state is ready and has fewer open cells |
| `CrosswordSolver.SolveBacktrack` | crossword-CSP-solver/crossword.py:407-488 | true only with a full grid whose every slot holds a word and which extends the starting grid; false leaves the grid and the domains exactly as they were and, when the domains have lost no solution, means no solution grows from the grid |
| `CrosswordSolver.TryWord` | crossword-CSP-solver/crossword.py:466-485 | one candidate: success gives a solution; failure restores the grid and the domains from the copies and means that no solution spells this word in the slot |
| `CrosswordSolver.Assign` | crossword-CSP-solver/crossword.py:470-474 | after write and successful prune the state is ready, has fewer open cells and extends the old grid, whose solutions spelling the word in the slot are exactly the new grid's, none pruned away; a failed prune means no solution spells the word there |
| `CrosswordSolver.WrittenSolutions` | crossword-CSP-solver/crossword.py:470-474 | the new grid's solutions are the old grid's solutions spelling the word, and the pruned domains lose none of them |
| `CrosswordSolver.SolutionThroughWrite` | crossword-CSP-solver/crossword.py:470 | a solution spelling the written word in the slot is a solution grown from the written grid |
| `CrosswordSolver.SolutionOfWrite` | crossword-CSP-solver/crossword.py:470 | a solution grown from the written grid is grown from the old grid and spells the word in the slot |
| `CrosswordSolver.SolutionTexts` | crossword-CSP-solver/crossword.py:112-116 | the texts of a solution agree wherever two slots cross and fit what the grid already holds |
| `CrosswordSolver.ExtendedText` | crossword-CSP-solver/crossword.py:112-116 | a grid grown from g spells, in every slot, a text that g's letters match |
| `CrosswordSolver.UntriedStart` | crossword-CSP-solver/crossword.py:444 | before the loop, every solution's word in the chosen slot is among the candidates |
| `CrosswordSolver.UntriedStep` | crossword-CSP-solver/crossword.py:466-485 | a candidate that no solution spells in the slot can be struck off |
| `CrosswordSolver.UntriedNone` | crossword-CSP-solver/crossword.py:487-488 | with no candidate left, no solution grows from the grid |
| `CrosswordSolver.AllWordsComplete` | crossword-CSP-solver/crossword.py:491-494 | domains holding every word of each slot's length lose no solution |
| `CrosswordSolver.WriteStep` | crossword-CSP-solver/crossword.py:470 | the word is written into the slot, domains unchanged, and the slot now holds alphabet letters |
| `CrosswordSolver.Restore` | crossword-CSP-solver/crossword.py:475-476 | the grid and the domains become the copies taken before the loop |
| `CrosswordSolver.SolutionGrows` | crossword-CSP-solver/crossword.py:480-481 | a solution grown from an extension of g is grown from g |
| `CrosswordSolver.InitialDomains` | crossword-CSP-solver/crossword.py:491-494 | every position's domain is exactly the indexes of the words of its length |
| `CrosswordSolver.CrossingArcs` | crossword-CSP-solver/crossword.py:505 | the initial queue holds every crossing in both directions, and only crossings |
| `CrosswordSolver.InitialArcConsistency` | crossword-CSP-solver/crossword.py:504-506 | the initial pass leaves domains that fit the words (its result is ignored), and keeps, for agreeing texts of the slots, the words spelling them |
| `CrosswordSolver.InitiallyConsistent` | crossword-CSP-solver/crossword.py:491-494 | domains of fitting words over blank slots satisfy the search invariant |
| `CrosswordSolver.Prepare` | crossword-CSP-solver/crossword.py:490-506 | after setting up domains, database and the optional pass, the search may start, and the domains lose no solution |
| `CrosswordSolver.Solve` | crossword-CSP-solver/crossword.py:380-509 | true only with a solution grown from the starting grid; false leaves the grid as it was and means that no solution grows from it |
| `AzulTypes.Code` | azul-board-game/azul/simple_types.py:63-68 | each tile prints as its one letter (S, R, B, Y, G, L), and the letter decodes back to the tile |
| `AzulTypes.CompressTileList` | azul-board-game/azul/simple_types.py:73-74 | the compressed text has one letter per tile, letter i being tile i's code |
| `AzulTypes.CompressRoundTrip` | azul-board-game/azul/simple_types.py:73-74 | decoding the compressed text gives the tile list back |
| `AzulTypes.Sum` | azul-board-game/azul/simple_types.py:15-17 | the sum of no points is 0 and the sum of one is that one |
| `AzulTypes.SumAppend` | azul-board-game/azul/simple_types.py:15-17 | the sum of a concatenation adds the two sums |
| `AzulTypes.SumOfSwap` | azul-board-game/azul/simple_types.py:15-17 | swapping two entries leaves the sum unchanged |
| `AzulTypes.PointsOrder` | azul-board-game/azul/simple_types.py:19-27 | equality and `<` are those of the values: `<` is irreflexive, transitive and total |
| `AzulTypes.RemoveFirst` | azul-board-game/azul/used_tiles.py:17-18 | Python's `list.remove`: one occurrence fewer when the tile occurs, the list unchanged otherwise |
| `AzulTypes.RemoveHead` | azul-board-game/azul/table_center.py:17-18 | removing a list's first element gives its tail |
| `AzulTypes.RemoveEachSnoc` | azul-board-game/azul/bag.py:33-34 | removing one more tile after a run of removals |
| `AzulTypes.RemovePrefix` | azul-board-game/azul/bag.py:33-34 | removing a prefix tile by tile leaves the matching suffix |
| `AzulTypes.Matching` | azul-board-game/azul/factory.py:21 | the tiles equal to the colour, as many as the list holds |
| `AzulTypes.Others` | azul-board-game/azul/factory.py:22-23 | the list without the colour: counts of other tiles kept, and together with `Matching` exactly the list |
| `AzulTypes.OthersRemoveFirst` | azul-board-game/azul/table_center.py:17-18 | removing one tile of the colour does not change the rest |
| `AzulTypes.OthersOfFree` | azul-board-game/azul/table_center.py:17 | the loop stops once the colour is gone |
| `AzulTypes.TileCounts` | azul-board-game/azul/used_tiles.py:27-33 | one entry per tile type present, with its count, sorted by letter |
| `AzulTypes.CountsIn` | azul-board-game/azul/used_tiles.py:28-32 | the counted types of a given letter order, in that order |
| `AzulTypes.GroupedIn` | azul-board-game/azul/table_center.py:30 | the tiles of the listed types grouped in that order: same counts, sorted |
| `AzulTypes.SortedByLetter` | azul-board-game/azul/table_center.py:30 | `sorted(tiles, key=str)`: a permutation of the tiles, sorted by letter |
| `AzulTypes.SortedText` | azul-board-game/azul/table_center.py:29-30 | the printed state has one letter per tile, in alphabetical order, and decodes to a permutation of the tiles |
| `AzulBag.UsedTiles.constructor` | azul-board-game/azul/used_tiles.py:12-13 | a new store is empty |
| `AzulBag.UsedTiles.Give` | azul-board-game/azul/used_tiles.py:15-19 | the given tiles are appended without one starting-player marker; the store gains exactly them, less that marker |
| `AzulBag.UsedTiles.TakeAll` | azul-board-game/azul/used_tiles.py:21-25 | returns every stored tile in order and leaves the store empty |
| `AzulBag.UsedTiles.State` | azul-board-game/azul/used_tiles.py:27-33 | each tile type present with its positive count, sorted by letter, none missing |
| `AzulBag.Gather` | azul-board-game/azul/bag.py:41 | entry i is the tile at the i-th listed position |
| `AzulBag.GatherSubMultiset` | azul-board-game/azul/bag.py:41 | tiles picked at distinct positions are among the bag's tiles, so each `remove` at bag.py:34 finds its tile |
| `AzulBag.RemoveAll` | azul-board-game/azul/bag.py:33-34 | removing the handed-out tiles one by one leaves the bag's multiset minus them |
| `AzulBag.Bag.constructor` | azul-board-game/azul/bag.py:16-20 | the bag holds the initial tiles and the used-tiles store, with the permutation source |
| `AzulBag.Bag.Take` | azul-board-game/azul/bag.py:22-36 | `count` tiles handed out: the tiles at the first `count` positions of the next permutation of the bag (refilled from the used tiles when short), the bag keeps the rest, nothing lost |
| `AzulBag.Bag.Refill` | azul-board-game/azul/bag.py:27-28 | after the loop the bag holds at least `count` tiles; the used tiles are taken once and only when needed |
| `AzulBag.Bag.RemoveTaken` | azul-board-game/azul/bag.py:33-34 | the handed-out tiles leave the bag, each by its first occurrence |
| `AzulBag.Bag.GetRandomTiles` | azul-board-game/azul/bag.py:38-42 | the tiles at the first `count` positions of a fresh permutation of the bag; the bag is unchanged |
| `AzulBag.Bag.TakeAllFromUsedTiles` | azul-board-game/azul/bag.py:44-45 | the used tiles are appended to the bag and their store is emptied |
| `AzulBag.Bag.State` | azul-board-game/azul/bag.py:47-53 | each tile type in the bag with its positive count, sorted by letter, none missing |
| `AzulBag.IdentityDrawTakesPrefix` | azul-board-game/azul/bag.py:38-42 | with the identity permutation a draw hands out the bag's first tiles and leaves the rest in order |
| `AzulTable.TableCenter.constructor` | azul-board-game/azul/table_center.py:11-12 | a new centre is empty |
| `AzulTable.RemoveAllOf` | azul-board-game/azul/table_center.py:17-18 | the `while idx in tiles: remove` loop leaves exactly the tiles of other colours |
| `AzulTable.TableCenter.Take` | azul-board-game/azul/table_center.py:14-24 | the player gets every tile of the colour plus one marker if one was left; the centre keeps the rest |
| `AzulTable.CentreTakeKeepsTiles` | azul-board-game/azul/table_center.py:14-24 | taking from the centre loses no tile and leaves none of the colour |
| `AzulTable.TableCenter.State` | azul-board-game/azul/table_center.py:29-30 | one letter per tile, alphabetical, decoding to a permutation of the centre |
| `AzulTable.TableCenter.StartNewRound` | azul-board-game/azul/table_center.py:32-34 | a marker is appended |
| `AzulTable.TableCenter.Add` | azul-board-game/azul/table_center.py:36-37 | the given tiles are appended |
| `AzulTable.Factory.constructor` | azul-board-game/azul/factory.py:14-17 | a new factory is empty and knows its bag and centre |
| `AzulTable.Factory.Take` | azul-board-game/azul/factory.py:19-26 | the player gets every tile of the colour, the others go to the centre in order, the factory is emptied, nothing lost |
| `AzulTable.Factory.State` | azul-board-game/azul/factory.py:31-32 | one letter per tile, alphabetical, decoding to a permutation of the factory |
| `AzulTable.Factory.StartNewRound` | azul-board-game/azul/factory.py:34-36 | four tiles drawn from the bag are appended; factory plus bag supply keep their tiles |
| `AzulTable.TileOfIndex` | azul-board-game/azul/table_area.py:22 | colour index 0..4 names black, blue, green, red, yellow |
| `AzulTable.TileIndicesNameEveryColour` | azul-board-game/azul/table_area.py:22 | the five indexes name the five colours, each once |
| `AzulTable.TableArea.constructor` | azul-board-game/azul/table_area.py:15-28 | a fresh empty centre and `n` fresh empty factories sharing the bag |
| `AzulTable.TakeFromTable` | azul-board-game/azul/table_area.py:30-34 | source 0 takes from the centre, source i from factory i, with the colour the index names |
| `AzulTable.TableArea.Take` | azul-board-game/azul/table_area.py:30-34 | the table's new state and the tiles handed out are those `TakeFromTable` gives |
| `AzulTable.TakeKeepsTiles` | azul-board-game/azul/table_area.py:30-34 | a take loses no tile: handed out plus left on the table is the table before |
| `AzulTable.TakeHandsColour` | azul-board-game/azul/table_center.py:14-24 | the player gets the marker exactly when taking from a centre holding it, and otherwise only tiles of the chosen colour |
| `AzulTable.TableArea.StartNewRound` | azul-board-game/azul/table_area.py:40-44 | a marker goes to the centre, four bag tiles to each factory in order, and no tile is lost |
| `AzulTable.TableArea.RefillFactory` | azul-board-game/azul/table_area.py:43-44 | one factory gains four bag tiles and no other factory changes |
| `AzulWall.PatternIsRotation` | azul-board-game/azul/board.py:35-41 | wall row r is the first row's colour order rotated right by r |
| `AzulWall.ColumnOf` | azul-board-game/azul/wall_line.py:25 | `tile_types.index(tile)`: the one column of the row holding that colour |
| `AzulWall.Column` | azul-board-game/azul/wall_line.py:38-40 | column c of the wall, top to bottom |
| `AzulWall.Wall.constructor` | azul-board-game/azul/wall_line.py:16-21 | a new wall has every cell empty |
| `AzulWall.Wall.CanPutTile` | azul-board-game/azul/wall_line.py:23-25 | true exactly when the colour's cell in that row is empty |
| `AzulWall.Wall.PutTile` | azul-board-game/azul/wall_line.py:30-36 | the tile lands in its colour's column, no other cell changes, the points are the placement score, and the colour can no longer be put in that row |
| `AzulWall.Placed` | azul-board-game/azul/wall_line.py:32-33 | the wall with one cell filled and every other cell as before |
| `AzulWall.Wall.State` | azul-board-game/azul/wall_line.py:42-52 | five letters: a filled cell's tile letter, an empty cell's colour in lower case |
| `AzulWall.CellText` | azul-board-game/azul/wall_line.py:47-50 | the text of one cell, and a filled cell never reads like an empty one |
| `AzulWall.CountRowPoints` | azul-board-game/azul/wall_line.py:122-137 | the points are the length of the horizontal run of filled cells through the tile |
| `AzulWall.CountColumnPoints` | azul-board-game/azul/wall_line.py:139-160 | 1 plus the filled cells met walking up and walking down until an empty cell |
| `AzulWall.CountPointsAfterPut` | azul-board-game/azul/wall_line.py:86-107 | 1 for a tile without neighbours, otherwise the row run when it has a horizontal neighbour plus the column run when it has a vertical one |
| `AzulWall.RunIsMaximal` | azul-board-game/azul/wall_line.py:124-137 | the counted run is the maximal block of filled cells containing the tile |
| `AzulWall.NeighbourIffLongRun` | azul-board-game/azul/wall_line.py:94 | a filled neighbour exists exactly when the run is longer than one |
| `AzulWall.PlacementScoreBounds` | azul-board-game/azul/wall_line.py:86-107 | a placement scores between 1 and 10 |
| `AzulWall.IsolatedScoresOne` | azul-board-game/azul/wall_line.py:107 | a tile without neighbours scores exactly 1 |
| `AzulWall.CrossScoresBothRuns` | azul-board-game/azul/wall_line.py:98-105 | a tile with neighbours both ways scores its row run plus its column run, counting itself twice |
| `AzulScoring.GameFinished` | azul-board-game/azul/game_finished.py:9-19 | GAME_FINISHED exactly when some wall row has no empty cell, NORMAL exactly when none does |
| `AzulScoring.ColumnsAloneDoNotFinish` | azul-board-game/azul/game_finished.py:15-19 | a full column with a gap in every row does not end the game |
| `AzulScoring.HorizontalRowPoints` | azul-board-game/azul/final_points_calculation.py:33-37 | 2 points per complete row |
| `AzulScoring.VerticalColumnPoints` | azul-board-game/azul/final_points_calculation.py:40-46 | 7 points per complete column |
| `AzulScoring.ColorPoints` | azul-board-game/azul/final_points_calculation.py:49-57 | 10 points per colour whose five cells (the diagonal `(i + j) % 5`) are all filled |
| `AzulScoring.TallyIsCardinality` | azul-board-game/azul/final_points_calculation.py:36 | the Python `sum(... for ... if ...)` counts the qualifying indexes |
| `AzulScoring.ComponentsAppend` | azul-board-game/azul/final_points_calculation.py:16-17 | the points of a concatenation of components add up |
| `AzulScoring.StandardBonusIsSum` | azul-board-game/azul/instance_factory.py:46-57 | the bonus the game builds is rows plus columns plus colours |
| `AzulScoring.ExampleWallScores26` | azul-board-game/test/test_final_points_calculation.py:22-41 | the wall of that test scores 2 + 14 + 10 = 26 |
| `AzulScoring.PointsCalculation.constructor` | azul-board-game/azul/final_points_calculation.py:9-10 | no components |
| `AzulScoring.PointsCalculation.AddComponent` | azul-board-game/azul/final_points_calculation.py:12-14 | the components are appended, and the points of any wall grow by theirs |
| `AzulScoring.PointsCalculation.GetPoints` | azul-board-game/azul/final_points_calculation.py:16-17 | the sum of the components' points; 0 without components |
| `AzulBoard.Floor.constructor` | azul-board-game/azul/board.py:29-32 | the floor keeps the penalty pattern and the used-tiles store and starts empty |
| `AzulBoard.Floor.Put` | azul-board-game/azul/pattern_line.py:34 | dropped tiles are appended to the floor |
| `AzulBoard.Floor.FinishRound` | azul-board-game/azul/board.py:79 | the penalty is the pattern summed over the floor's tiles; they go to the used tiles (less the marker) and the floor empties |
| `AzulBoard.BoardFloorPenalty` | azul-board-game/azul/board.py:29-31 | with the board's pattern a floor costs at most 14 points up to seven tiles, and 3 more for each further tile |
| `AzulBoard.PenaltyPastPattern` | azul-board-game/azul/board.py:29-32 | past the end of the pattern every tile costs its last entry |
| `AzulBoard.SmallFloorPenalty` | azul-board-game/azul/board.py:29-32 | with the pattern 1, 2, 3 four tiles cost 9 and two cost 3 |
| `AzulBoard.PatternLine.constructor` | azul-board-game/azul/pattern_line.py:17-24 | an empty line of the given capacity, without a colour, bound to its floor, wall row and used tiles |
| `AzulBoard.PatternLine.Put` | azul-board-game/azul/pattern_line.py:26-43 | the marker goes to the floor; refused tiles go to the floor; accepted tiles fill the line up to capacity and the excess goes to the floor |
| `AzulBoard.PatternLine.PutRest` | azul-board-game/azul/pattern_line.py:36-43 | after the marker: an empty list does nothing, a refused one goes to the floor, an accepted one is appended |
| `AzulBoard.PatternLine.AppendTiles` | azul-board-game/azul/pattern_line.py:45-56 | the line gains the tiles that fit its free places, and the rest go to the floor in one put |
| `AzulBoard.Fits` | azul-board-game/azul/pattern_line.py:47-50 | the kept part and the overflow together are the tiles given, and the kept part is as long as the room allows |
| `AzulBoard.PutKeepsTiles` | azul-board-game/azul/pattern_line.py:26-56 | a put loses no tile and creates none: each ends up on the line or on the floor |
| `AzulBoard.PutKeepsLineUniform` | azul-board-game/azul/pattern_line.py:58-68 | a line only ever accepting its own colour stays of one colour, and the marker always goes to the floor |
| `AzulBoard.PatternLine.FinishRound` | azul-board-game/azul/pattern_line.py:70-84 | a line short of capacity scores 0 and stays; a full line puts its first tile on its wall row, scores that placement, gives the rest to the used tiles and empties |
| `AzulBoard.PatternLine.State` | azul-board-game/azul/pattern_line.py:86-88 | underscores for the free places, then the letters of the tiles on the line |
| `AzulBoard.RoundPointsBounds` | azul-board-game/azul/board.py:77 | each full line scores between 1 and 10 at the end of a round |
| `AzulBoard.RoundWallKeepsTiles` | azul-board-game/azul/board.py:77 | finishing a round only fills wall cells, and every filled cell keeps its tile |
| `AzulBoard.RoundWallPlacesFullLines` | azul-board-game/azul/board.py:77 | after the round every full line's colour is in its wall row |
| `AzulBoard.Board.constructor` | azul-board-game/azul/board.py:21-63 | empty wall, five empty pattern lines of capacity 1 to 5 bound to their wall rows, an empty floor, 0 points |
| `AzulBoard.Board.Put` | azul-board-game/azul/board.py:65-69 | the tiles are put on the chosen pattern line, as `PatternLine.Put` does |
| `AzulBoard.Board.FinishRound` | azul-board-game/azul/board.py:71-88 | the lines finish top to bottom, the points become old points + line points - floor penalty, the discards go to the used tiles, and the result says whether a row is complete |
| `AzulBoard.Board.FinishLines` | azul-board-game/azul/board.py:77 | the points each line scores, summing to the round's line points |
| `AzulBoard.Board.FinishLine` | azul-board-game/azul/board.py:77 | line k finishes, adding its placement score |
| `AzulBoard.Board.EndGame` | azul-board-game/azul/board.py:90-96 | the bonus of the final points calculation is added, and the wall is unchanged |
| `AzulGame.NumberOfFactories` | azul-board-game/azul/game.py:254-257 | 5, 7 and 9 factories for 2, 3 and 4 players |
| `AzulGame.BagTiles` | azul-board-game/azul/instance_factory.py:35-41 | 100 colour tiles and no marker |
| `AzulGame.CheckIds` | azul-board-game/azul/game.py:67-72 | the ids are accepted exactly when none repeats |
| `AzulGame.DistinctIffSingle` | azul-board-game/azul/game.py:71 | distinct exactly when every id counts once |
| `AzulGame.Rotated` | azul-board-game/azul/game.py:162-163 | a rotation keeps the players |
| `AzulGame.RotateOnceMore` | azul-board-game/azul/game.py:163 | one more loop pass moves the next player to the front |
| `AzulGame.RotatedDistinct` | azul-board-game/azul/game.py:162-163 | a rotation keeps the ids distinct |
| `AzulGame.RotateToStarter` | azul-board-game/azul/game.py:162-163 | the loop ends with the players rotated until the starter is first |
| `AzulGame.IndexOf` | azul-board-game/azul/game.py:162 | the first position of the starter |
| `AzulGame.EvaluateScores` | azul-board-game/azul/game.py:184-186 | sorted by points, highest first, stable for equal points, a permutation of the entries |
| `AzulGame.InsertKeepsDescending` | azul-board-game/azul/game.py:186 | inserting keeps the scoreboard descending |
| `AzulGame.InsertKeepsGroups` | azul-board-game/azul/game.py:186 | inserting keeps the order among equal points |
| `AzulGame.DenseRanks` | azul-board-game/azul/game.py:188-201 | rank 1 first and one more each time the points drop: equal points share a rank |
| `AzulGame.RanksClimb` | azul-board-game/azul/game.py:197-201 | ranks never fall down the scoreboard, and two ranks are equal exactly when the points are |
| `AzulGame.Game.constructor` | azul-board-game/azul/game.py:36-46 | a game with no players, not started and not ended |
| `AzulGame.Game.Start` | azul-board-game/azul/game.py:52-83 | accepted exactly when the game has not ended or started, the count is 2 to 4, matches the ids and no id repeats; a refusal changes nothing; acceptance deals the first round |
| `AzulGame.Game.Begin` | azul-board-game/azul/game.py:74-81 | the players in the given order, the first on turn, the marker in the centre, four tiles on each factory, boards at 0 points |
| `AzulGame.Game.CreateGame` | azul-board-game/azul/game.py:85-103 | fresh used tiles, a bag of the 100 tiles, the standard bonus, a table with the players' number of factories and a board per player |
| `AzulGame.Game.Outcome` | azul-board-game/azul/game.py:129 | the player gets the marker exactly when taking it from the centre, and otherwise only the chosen colour |
| `AzulGame.Game.Take` | azul-board-game/azul/game.py:105-143 | accepted exactly when the game has not ended, the player is on turn and every index is in range; a refusal changes nothing; the tiles go to the player's line, the marker makes the player the next starter, and the round ends or the turn passes |
| `AzulGame.Game.Move` | azul-board-game/azul/game.py:129-133 | the table changes as the take says, the starter is recorded on the marker, and the tiles land on the player's line and floor |
| `AzulGame.Game.Play` | azul-board-game/azul/game.py:129-143 | If tiles remain on the table, the players stay the same and the next one is on turn. A player who took the starting-player marker is recorded as the next starter, the taken tiles are on the chosen line and the overflow is on the floor. If the table is empty, the round ends. The game ends exactly when some board has a complete wall row. Otherwise the players are rotated so the starter is first and on turn. |
| `AzulGame.Game.PassTurn` | azul-board-game/azul/game.py:141 | the turn passes to the next player, modulo the player count |
| `AzulGame.Game.StartNewRound` | azul-board-game/azul/game.py:145-167 | every board finishes the round; the game ends exactly when some wall has a complete row; otherwise the players are rotated to the starter, who is on turn, and the table is dealt again |
| `AzulGame.Game.FinishBoards` | azul-board-game/azul/game.py:155-158 | every board finishes the round, and GAME_FINISHED is among the results exactly when some wall has a complete row |
| `AzulGame.Game.NextRound` | azul-board-game/azul/game.py:162-167 | the players are rotated to the starter, who is on turn, and a marker is added; each factory gets four tiles when the supply holds enough |
| `AzulGame.DealRound` | azul-board-game/azul/table_area.py:40-44 | the marker goes to the centre; four tiles to each factory when the supply suffices, otherwise the factories stay as they were |
| `AzulGame.RefillTable` | azul-board-game/azul/table_area.py:40-44 | the marker goes to the centre and four bag tiles to each factory, the boards unchanged |
| `AzulGame.Game.EndGame` | azul-board-game/azul/game.py:169-182 | every board adds its bonus, and the scoreboard is the standings sorted by points and densely ranked |
| `AzulGame.Game.DetermineWinner` | azul-board-game/azul/game.py:188-204 | the ranks are dense and the game is over |
| `AzulGame.Standings` | azul-board-game/azul/game.py:177-179 | each player's id with the board's points |
| `AzulGame.FinishAllBoards` | azul-board-game/azul/game.py:156-157 | every board, in creation order, finishes the round, result i being board i's |
| `AzulGame.EndAllBoards` | azul-board-game/azul/game.py:177-179 | every board adds its bonus and the entries list the points |
| `DeliveryCity.City.constructor` | delivery-service-simulation/delivery-service/City.cpp:10-11 | A new city has the given name and no neighbours. |
| `DeliveryCity.City.AddNeighbour` | delivery-service-simulation/delivery-service/City.cpp:13-20 | The city becomes a neighbour exactly when it already was one, or when the distance is non-negative and the name is not this city's. A neighbour already present keeps its first distance. No other neighbour is added, removed or changed. |
| `DeliveryCity.City.DistanceTo` | delivery-service-simulation/delivery-service/City.cpp:22-34 | The distance is non-negative exactly when the city is a neighbour; otherwise it is -1. |
| `DeliveryCity.LookupByName` | delivery-service-simulation/delivery-service/City.cpp:5-8 | Two cities with the same name (the hash-map equality of neighbours) are the same neighbour, at the same distance. |
| `DeliveryPackage.Rank` | delivery-service-simulation/delivery-service/Package.h:6-7 | Each status has its position in the declaration order, one of three, and that position selects its status message. |
| `DeliveryPackage.RankInjective` | delivery-service-simulation/delivery-service/Package.h:6 | Different statuses have different positions. |
| `DeliveryPackage.Package.constructor` | delivery-service-simulation/delivery-service/Package.cpp:3-5 | A new package has the given id, location and status; the status defaults to NOT_PICKED_UP (Package.h:15). |
| `DeliveryPackage.Package.ChangeLocation` | delivery-service-simulation/delivery-service/Package.cpp:7-9 | The location becomes the new one and the status is unchanged. |
| `DeliveryPackage.Package.ChangePackageStatus` | delivery-service-simulation/delivery-service/Package.cpp:11-13 | The status becomes the new one and the location is unchanged. |
| `DeliveryGraph.LengthNonNegative` | delivery-service-simulation/delivery-service/Map.cpp:66-84 | On a map whose roads are non-negative, no walk has a negative length. |
| `DeliveryGraph.LengthPrefix` | delivery-service-simulation/delivery-service/Map.cpp:76-82 | With distances that are not negative, a prefix of a walk is a walk no longer than the whole. |
| `DeliveryGraph.LengthSplit` | delivery-service-simulation/delivery-service/Map.cpp:76-82 | The length of a walk is the length of a prefix plus the length of the rest, starting from the prefix's last city. |
| `DeliveryGraph.LengthExtend` | delivery-service-simulation/delivery-service/Map.cpp:76-82 | Adding one road at the end of a walk adds that road's distance to the length. |
| `DeliveryGraph.LengthCons` | delivery-service-simulation/delivery-service/Map.cpp:76-82 | Adding one road at the front of a walk adds that road's distance to the length. |
| `DeliveryGraph.WalkJoin` | delivery-service-simulation/delivery-service/Map.cpp:86-119 | Two walks that meet at a city join into one walk whose length is the sum of theirs. |
| `DeliveryGraph.WalkLeaves` | delivery-service-simulation/delivery-service/Map.cpp:86-119 | A walk from inside a set of cities to a city outside it has a road that leaves the set. |
| `DeliveryGraph.RankedDistinct` | delivery-service-simulation/delivery-service/Map.cpp:166-186 | A path along which the visiting order strictly increases passes no city twice. |
| `DeliveryMap.WithCity` | delivery-service-simulation/delivery-service/Map.cpp:42-47 | The graph gains the named city with no neighbours if it was missing; every other city is unchanged. |
| `DeliveryMap.Link` | delivery-service-simulation/delivery-service/Map.cpp:53-54 | One side of a road, by the rules of City::addNeighbour; the set of cities is unchanged. |
| `DeliveryMap.Connect` | delivery-service-simulation/delivery-service/Map.cpp:38-55 | After creating a road, the map holds both of its cities and no others are added. |
| `DeliveryMap.ConnectKeepsDistances` | delivery-service-simulation/delivery-service/Map.cpp:38-55 | Creating a road keeps every existing distance: between two cities, the first distance wins. |
| `DeliveryMap.ConnectJoins` | delivery-service-simulation/delivery-service/Map.cpp:38-55 | A road with a non-negative distance between two different cities joins them both ways at one distance. That distance is the new one unless they were already neighbours. |
| `DeliveryMap.ConnectAddsOnlyItsRoad` | delivery-service-simulation/delivery-service/Map.cpp:38-55 | Creating a road adds no road other than the one between its two cities, in either direction. |
| `DeliveryMap.ConnectKeepsRoads` | delivery-service-simulation/delivery-service/Map.cpp:38-55 | Creating a road keeps the roads well formed: symmetric, non-negative, no loops and no unknown cities. |
| `DeliveryMap.BuildRoads` | delivery-service-simulation/delivery-service/Map.cpp:17-35 | The roads built from any map file are well formed. |
| `DeliveryMap.Map.constructor` | delivery-service-simulation/delivery-service/Map.cpp:3-36 | The map is the result of creating the file's roads in order, and every city object is new. |
| `DeliveryMap.Map.CreatePath` | delivery-service-simulation/delivery-service/Map.cpp:38-55 | The graph becomes Connect of the old graph. Existing city objects are kept and missing ones are created fresh. |
| `DeliveryMap.Map.Join` | delivery-service-simulation/delivery-service/Map.cpp:50-54 | Each of the two cities takes the other as a neighbour, in that order; no city is added. |
| `DeliveryMap.Map.AddCity` | delivery-service-simulation/delivery-service/Map.cpp:42-47 | Creates the named city unless the map has one; existing cities keep their objects. |
| `DeliveryMap.Map.AddNeighbourOf` | delivery-service-simulation/delivery-service/Map.cpp:53 | Only the city stored under the key changes: it takes the other city as a neighbour. |
| `DeliveryMap.Map.GetCity` | delivery-service-simulation/delivery-service/Map.cpp:58-64 | The result is null exactly when the map has no city of that name; otherwise it is the stored city of that name. |
| `DeliveryMap.Map.FindDistanceOfPath` | delivery-service-simulation/delivery-service/Map.cpp:66-84 | For a walk, the result is its length, which is not negative (0 for fewer than two cities). When two consecutive cities are not neighbours, the result is -1. |
| `DeliveryMap.Map.FindShortestPath` | delivery-service-simulation/delivery-service/Map.cpp:86-119 | On a map with one component, the result is a walk from begin to end through distinct cities, and no walk between them is shorter. The path is [begin] when begin is end. |
| `DeliveryDijkstra.StartTable` | delivery-service-simulation/delivery-service/Map.cpp:93-108 | The starting table: every city unreached (-1) with no predecessor, except begin at distance 0. |
| `DeliveryDijkstra.Relax` | delivery-service-simulation/delivery-service/Map.cpp:126-138 | The table after relaxing each road out of the current city: a neighbour takes the distance through it when it was unreached or is now closer. |
| `DeliveryDijkstra.RelaxNoFurther` | delivery-service-simulation/delivery-service/Map.cpp:135-137 | Relaxing never forgets a reached city and never lengthens a distance. |
| `DeliveryDijkstra.ClosestUnvisited` | delivery-service-simulation/delivery-service/Map.cpp:140-160 | The intended move: a reached, unvisited city whose distance is no larger than any other reached, unvisited city's. |
| `DeliveryDijkstra.NeighbourStep` | delivery-service-simulation/delivery-service/Map.cpp:140-160 | The move as written: among the unvisited neighbours of the current city, the last one met, replaced by any with a strictly smaller distance. |
| `DeliveryDijkstra.DijkstraStepAsWritten` | delivery-service-simulation/delivery-service/Map.cpp:122-164 | One step as written: relax the roads out of the last visited city, then visit the neighbour chosen as written. |
| `DeliveryDijkstra.StarMapConnected` | delivery-service-simulation/delivery-service/Map.cpp:88 | The star map (one centre, three leaves) has well-formed roads and a single component, so it meets the search's expectation. |
| `DeliveryDijkstra.StarMapStrandsSearch` | delivery-service-simulation/delivery-service/Map.cpp:141-147 | From the centre the search reaches a leaf. There, unvisited cities remain, but the leaf has no unvisited neighbour, so the stub pointer is read uninitialised. |
| `DeliveryDijkstra.RunAsWrittenStep` | delivery-service-simulation/delivery-service/Map.cpp:113-115 | A run as written is extended by one relaxation followed by one move as written. |
| `DeliveryDijkstra.RelaxedLinkedBack` | delivery-service-simulation/delivery-service/Map.cpp:135-137 | After relaxing, every recorded predecessor is a neighbour of the city that records it. |
| `DeliveryDijkstra.ExploreAsWritten` | delivery-service-simulation/delivery-service/Map.cpp:110-115 | The loop as written is a run as written. On success every city was visited. It stops with None exactly where the current city has no unvisited neighbour while some city is unvisited. |
| `DeliveryDijkstra.FollowedWalk` | delivery-service-simulation/delivery-service/Map.cpp:166-186 | A path that follows recorded predecessors, each of them a neighbour, is a walk. |
| `DeliveryDijkstra.MakePathAsWritten` | delivery-service-simulation/delivery-service/Map.cpp:166-186 | The path read back as written starts at begin, ends at end, follows the recorded predecessors and meets begin only at its head. |
| `DeliveryDijkstra.ShortestPathAsWritten` | delivery-service-simulation/delivery-service/Map.cpp:86-119 | findShortestPath as written: when it returns a path, every city was visited and the path is a walk from begin to end following the final table. |
| `DeliveryDijkstra.DiamondRun` | delivery-service-simulation/delivery-service/Map.cpp:140-160 | On the diamond A-B 1, A-C 2, B-D 10, C-D 1, the run as written from A visits A, B, D, C. It records D at 11 through B. |
| `DeliveryDijkstra.DiamondAsWritten` | delivery-service-simulation/delivery-service/Map.cpp:86-119 | On the diamond, the search as written from A to D returns A-B-D, of length 11, while A-C-D is a walk of length 3. |
| `DeliveryDijkstra.DiamondBack` | delivery-service-simulation/delivery-service/Map.cpp:177-184 | Following the recorded predecessors on the diamond from D back to A gives A-B-D. |
| `DeliveryDijkstra.DiamondLengths` | delivery-service-simulation/delivery-service/Map.cpp:66-84 | On the diamond, A-B-D is a walk of length 11 and A-C-D a walk of length 3. |
| `DeliveryDijkstra.DiamondRoads` | delivery-service-simulation/delivery-service/Map.cpp:38-55 | The diamond's roads are well formed. |
| `DeliveryDijkstra.BeginIsShortest` | delivery-service-simulation/delivery-service/Map.cpp:98-101 | The distance 0 given to the start city is the shortest there is. |
| `DeliveryDijkstra.RelaxStep` | delivery-service-simulation/delivery-service/Map.cpp:126-138 | Relaxing out of the current city keeps the search's invariant. Visited distances stay the shortest, predecessors stay visited neighbours that account for the distance, and every visited city is relaxed. |
| `DeliveryDijkstra.NextShortest` | delivery-service-simulation/delivery-service/Map.cpp:140-160 | Once every visited city is relaxed, the closest reached unvisited city has the shortest distance there is. |
| `DeliveryDijkstra.ReachedOutside` | delivery-service-simulation/delivery-service/Map.cpp:88 | On a map with a single component, while some city is unvisited, some unvisited city is already reached, so the step always has a city to move to. |
| `DeliveryDijkstra.AppendStep` | delivery-service-simulation/delivery-service/Map.cpp:162-163 | Visiting the closest reached city keeps the search's invariant, with that city as the current one. |
| `DeliveryDijkstra.DijkstraStep` | delivery-service-simulation/delivery-service/Map.cpp:122-164 | The intended step: relax, then visit a new city. The invariant is kept, and the number of visited cities grows by one. |
| `DeliveryDijkstra.InitialSearch` | delivery-service-simulation/delivery-service/Map.cpp:93-111 | The starting table with only begin visited satisfies the search's invariant. |
| `DeliveryDijkstra.MakePath` | delivery-service-simulation/delivery-service/Map.cpp:166-186 | Reading the predecessors back from end gives a walk from begin to end. Its visiting order increases along it, and its length is the distance recorded for end. |
| `DeliveryDijkstra.Explore` | delivery-service-simulation/delivery-service/Map.cpp:110-115 | The intended loop visits every city. Each ends with the shortest distance there is and a chain of predecessors back to begin. |
| `DeliveryDijkstra.ShortestPath` | delivery-service-simulation/delivery-service/Map.cpp:86-119 | On a map with one component, the result is a walk from begin to end through distinct cities, and no walk between them is shorter. |
| `DeliveryCourier.Register` | delivery-service-simulation/delivery-service/Courier.cpp:16-27 | The package is appended to the city's list, which is created when missing; no other city's list changes. |
| `DeliveryCourier.RegisterTracked` | delivery-service-simulation/delivery-service/Courier.cpp:16-27 | Registering a package for pick-up and delivery, and adding it to the parcels, keeps every listed package among the parcels. |
| `DeliveryCourier.EndOf` | delivery-service-simulation/delivery-service/Courier.cpp:61-66 | The city the next leg starts from: the last city of the path, or the courier's own city when the path is empty. |
| `DeliveryCourier.InOrderFrom` | delivery-service-simulation/delivery-service/Courier.cpp:33-44 | A path that passes source and then destination still does so from the courier's city. |
| `DeliveryCourier.WithoutMeaning` | delivery-service-simulation/delivery-service/Courier.cpp:136-139 | Removing a package from the carried list leaves exactly the other packages. |
| `DeliveryCourier.StampMeaning` | delivery-service-simulation/delivery-service/Courier.cpp:121 | One record per package, in list order, each holding the package's id, the day and the new status. |
| `DeliveryCourier.DeliveryMeaning` | delivery-service-simulation/delivery-service/Courier.cpp:127-148 | Exactly the packages that are both listed for the city and carried get delivered, each once. Exactly the carried packages not listed stay carried. |
| `DeliveryCourier.DeliveryStep` | delivery-service-simulation/delivery-service/Courier.cpp:128-142 | Handing over one more listed package: it is delivered and removed when it is still carried, and skipped otherwise. |
| `DeliveryCourier.DriveStep` | delivery-service-simulation/delivery-service/Courier.cpp:104-106 | When the next road can be passed, driving on is: pass it, hand over there, then drive on from there. |
| `DeliveryCourier.DriveMeaning` | delivery-service-simulation/delivery-service/Courier.cpp:104-106 | Driving on passes further roads of the route, spending their lengths. It stops where the next road is longer than the distance left, or where the path ends, and records changes on the current day only. |
| `DeliveryCourier.HandOutStays` | delivery-service-simulation/delivery-service/Courier.cpp:112-149 | Handing over keeps the courier's day, city, path and distance left, and records changes on its day only. |
| `DeliveryCourier.DayMeaning` | delivery-service-simulation/delivery-service/Courier.cpp:89-109 | With an empty path only the day passes. Otherwise the distance limit is added to what was left, and the courier passes the first roads of its path until the next one is too long. The day goes up by one, and changes are recorded on that day only. |
| `DeliveryCourier.DayDated` | delivery-service-simulation/delivery-service/Courier.cpp:89-109 | Every change a day of a courier records carries that day. |
| `DeliveryCourier.DayAlong` | delivery-service-simulation/delivery-service/Courier.cpp:89-109 | After a day the courier is still along the walk it started on, one day later. |
| `DeliveryCourier.DaysMeaning` | delivery-service-simulation/delivery-service/Courier.cpp:83-85 | After n days the courier is along the walk it started on, n days later. Every change is recorded on one of those days. |
| `DeliveryCourier.HistoryDays` | delivery-service-simulation/delivery-service/Courier.cpp:83-85 | A run of n simulated days is what n days of its first state give. |
| `DeliveryCourier.Courier.Snapshot` | delivery-service-simulation/delivery-service/Courier.h:10-45 | The state a day's simulation works on: day, city, path, distance left and the package lists. |
| `DeliveryCourier.Courier.constructor` | delivery-service-simulation/delivery-service/Courier.cpp:4-8 | A new courier: the given id, city, map and distance limit, at day 0 with nothing left to drive, an empty path and no packages. |
| `DeliveryCourier.Courier.Deliver` | delivery-service-simulation/delivery-service/Courier.cpp:11-55 | The package is registered for pick-up at source and for delivery at destination. The path is then extended so that it passes source and then destination. The city, day, distance left and carried packages are unchanged. |
| `DeliveryCourier.Courier.Enlist` | delivery-service-simulation/delivery-service/Courier.cpp:16-27 | The package is registered for pick-up at source and delivery at destination; nothing else changes but the parcels. |
| `DeliveryCourier.Courier.Reroute` | delivery-service-simulation/delivery-service/Courier.cpp:29-54 | The path is kept when it passes source and then destination. It gains one shortest leg to destination when it passes source, and shortest legs to source and on to destination otherwise. |
| `DeliveryCourier.Courier.Planned` | delivery-service-simulation/delivery-service/Courier.cpp:33-54 | The planned path is a walk from the courier's city that meets that plan. |
| `DeliveryCourier.Courier.Scan` | delivery-service-simulation/delivery-service/Courier.cpp:33-44 | The scan tells exactly whether the path passes source and then destination, and whether it passes source at all. |
| `DeliveryCourier.Courier.AppendPathToCity` | delivery-service-simulation/delivery-service/Courier.cpp:58-72 | The old path is a prefix of the new one. What is added is a shortest walk from the old end (or the courier's city) to destination, without that first city, so the path now ends at destination. |
| `DeliveryCourier.Courier.Extended` | delivery-service-simulation/delivery-service/Courier.cpp:58-72 | The extended path is a walk from the courier's city, keeps the old path as a prefix, and ends at destination by a shortest leg. |
| `DeliveryCourier.Courier.Move` | delivery-service-simulation/delivery-service/Courier.cpp:152-177 | The courier moves exactly when the path is not empty and the next road is no longer than the distance left. Then it is in the next city, the path loses that city, the distance left loses the road, and every carried package is there too. Otherwise nothing changes. |
| `DeliveryCourier.Courier.Relocate` | delivery-service-simulation/delivery-service/Courier.cpp:173-175 | Every carried package is now in the city, with its status unchanged. |
| `DeliveryCourier.Courier.DistanceOnRoad` | delivery-service-simulation/delivery-service/Courier.cpp:161 | The distance of the road to the next city, as the courier's city stores it. |
| `DeliveryCourier.Courier.PickUp` | delivery-service-simulation/delivery-service/Courier.cpp:116-124 | The packages waiting in the city are picked up in order. They become IN_DELIVERY and are appended to the carried list, and the city's pick-up entry is removed. |
| `DeliveryCourier.Courier.HandOver` | delivery-service-simulation/delivery-service/Courier.cpp:127-148 | The listed packages that are carried are delivered, in order, and removed from the carried list. Listed packages not carried keep their status. The city's entry is dropped only when its list is empty. |
| `DeliveryCourier.Courier.HandleOnLocationDeliveries` | delivery-service-simulation/delivery-service/Courier.cpp:112-149 | Pick-up then hand-over in the courier's city. Each change is recorded on the current day, in order, and every listed package stays among the parcels. |
| `DeliveryCourier.Courier.ShiftDay` | delivery-service-simulation/delivery-service/Courier.cpp:89-109 | The new state and the new records are exactly one simulated day of the old state, and the day goes up by one. Every package of the courier then has the location and status that day gives it (`DaySpots`). |
| `DeliveryCourier.Courier.Journey` | delivery-service-simulation/delivery-service/Courier.cpp:99-106 | The day of a courier with somewhere to go: the limit is added to what was left, it hands over where it stands, then it travels on. The state, the records and every package's location and status are those of that outing (`Outing`, `OutingSpots`). |
| `DeliveryCourier.Courier.Refuel` | delivery-service-simulation/delivery-service/Courier.cpp:98-99 | The distance limit is added to the distance left from the day before, and nothing else of the courier's state changes. |
| `DeliveryCourier.Courier.Tour` | delivery-service-simulation/delivery-service/Courier.cpp:101-106 | The hand-over where the courier stands, then the moves with a hand-over in every city reached. The state, the records and every package's location and status are those of that round (`Round`, `RoundSpots`). |
| `DeliveryCourier.Courier.Visit` | delivery-service-simulation/delivery-service/Courier.cpp:101 | The hand-over in the courier's city, as one step of the day. The packages picked up become IN_DELIVERY and then those handed over DELIVERED, and no package moves (`HandOutSpots`). |
| `DeliveryCourier.Courier.Step` | delivery-service-simulation/delivery-service/Courier.cpp:104 | One move, exactly when the next road can be passed, with the new city, path and distance left. The carried packages are then in the new city, and no package list or status changes. |
| `DeliveryCourier.Courier.Travel` | delivery-service-simulation/delivery-service/Courier.cpp:104-106 | The courier moves and hands over for as long as the next road can be passed. The state and the records are the drive of the old state, and every package's location and status are what that drive gives it (`DriveSpots`). |
| `DeliveryCourier.Courier.Advance` | delivery-service-simulation/delivery-service/Courier.cpp:104-105 | One move and the hand-over where it arrives. The rest of the drive from the new state, packages included, is the rest of the drive from the old one. When no move is made, the path is unchanged and no move is possible. |
| `DeliveryCourier.Courier.ShiftTime` | delivery-service-simulation/delivery-service/Courier.cpp:75-87 | Simulates max(days, 0) days. The day advances by that much, and the state is the last of a run of simulated days (`Lived`). Each change is dated within those days. Every package of the courier has the location and status those days give it (`DaysSpots`). |
| `DeliveryCourier.Courier.NextDay` | delivery-service-simulation/delivery-service/Courier.cpp:84 | One more day of the loop: the run grows by the simulated day of the current state, with that day's records, and the packages' locations and statuses by that day's. |
| `DeliveryHandler.PricePerDistance` | delivery-service-simulation/delivery-service/CourierHandler.h:12-15 | The price of a kilometre is positive, and it is the basic price (5 euro-cents) exactly for basic couriers (the first-class price is 10). |
| `DeliveryHandler.PathDistance` | delivery-service-simulation/delivery-service/CourierHandler.cpp:126 | The distance the map measures is non-negative exactly when the path is a walk; otherwise it is -1. |
| `DeliveryHandler.CopyUntilDelivered` | delivery-service-simulation/delivery-service/CourierHandler.cpp:77-90 | The copy is a prefix of the path. It stops at the first city where destination follows source, or takes the whole path when the path does not pass them in that order. Both flags say exactly what the copy met. |
| `DeliveryHandler.CandidateRoute` | delivery-service-simulation/delivery-service/CourierHandler.cpp:71-120 | The route a courier would travel: the copied prefix, then shortest walks to source and on to destination where these are missing. |
| `DeliveryHandler.Select` | delivery-service-simulation/delivery-service/CourierHandler.cpp:67-133 | The scan as intended, with each route measured from the courier's own location. The result is a courier index, or index 0 when there are no couriers. |
| `DeliveryHandler.SelectAsWritten` | delivery-service-simulation/delivery-service/CourierHandler.cpp:125 | The scan as written, with each route measured from the best courier found so far. The result is a courier index, or index 0 when there are no couriers. |
| `DeliveryHandler.SelectLeast` | delivery-service-simulation/delivery-service/CourierHandler.cpp:128-132 | When every distance is below INT_MAX, the chosen courier has the least distance, measured from its own location, and every courier scanned before it has a larger one. |
| `DeliveryHandler.SelectNonNegative` | delivery-service-simulation/delivery-service/CourierHandler.cpp:126-132 | When every route is a walk from the courier's own location, the chosen distance, and so the price, is not negative. |
| `DeliveryHandler.LineMap` | delivery-service-simulation/delivery-service/CourierHandler.cpp:125 | The line map A-B-C-D with roads of 1 km, used to show the as-written scan's defect. |
| `DeliveryHandler.LineMapConnected` | delivery-service-simulation/delivery-service/Map.cpp:88 | The line map has a single component, as the search expects. |
| `DeliveryHandler.SelectAsWrittenNegative` | delivery-service-simulation/delivery-service/CourierHandler.cpp:125-143 | Couriers in A and D, package from B to C: the as-written scan picks the courier in D at distance -1, which gives a price of -5. The intended scan gives a non-negative distance. |
| `DeliveryHandler.Choose` | delivery-service-simulation/delivery-service/CourierHandler.cpp:67-133 | Every courier's route is a candidate route, and the chosen courier and distance are those of Select over the routes. |
| `DeliveryHandler.Consider` | delivery-service-simulation/delivery-service/CourierHandler.cpp:71-132 | One round of the scan: the route of courier i is added, and the best so far is Select over one more courier. |
| `DeliveryHandler.SelectExtend` | delivery-service-simulation/delivery-service/CourierHandler.cpp:128-132 | Select over one more courier replaces the best only when the new distance is strictly smaller. |
| `DeliveryHandler.Measure` | delivery-service-simulation/delivery-service/CourierHandler.cpp:125-126 | The distance of the route from the courier's own location, as the map measures it. |
| `DeliveryHandler.AssignInGroup` | delivery-service-simulation/delivery-service/CourierHandler.cpp:54-135 | The first courier, in listing order, with the shortest candidate route is asked to deliver the package. No other courier of the group changes. |
| `DeliveryHandler.EngageListed` | delivery-service-simulation/delivery-service/CourierHandler.cpp:135 | The chosen courier is asked to deliver the package, and the others are unchanged. |
| `DeliveryHandler.Engage` | delivery-service-simulation/delivery-service/CourierHandler.cpp:135 | The courier registers the package and plans its path. |
| `DeliveryHandler.IdsListed` | delivery-service-simulation/delivery-service/CourierHandler.h:31-36 | Ids generated as offset + 1, offset + 2, and so on, in that order, list the couriers. |
| `DeliveryHandler.Enrol` | delivery-service-simulation/delivery-service/CourierHandler.cpp:22-26 | A new courier with the next id is stored under that id, and no other entry changes. |
| `DeliveryHandler.Hire` | delivery-service-simulation/delivery-service/CourierHandler.cpp:21-36 | Creates count new couriers in the starting city, keyed by ids offset + 1 up to offset + count, each with the type's distance limit. |
| `DeliveryHandler.Staff` | delivery-service-simulation/delivery-service/CourierHandler.cpp:20-36 | Creates the basic couriers and then the first-class couriers, all new and all distinct. |
| `DeliveryHandler.ShiftOne` | delivery-service-simulation/delivery-service/CourierHandler.cpp:155 | One courier simulates the days. Its new state and its changes are n simulated days of its old state (`Lived`, `Days`). Each change is dated within the shift, and its packages' locations and statuses are those the days give. |
| `DeliveryHandler.ShiftNext` | delivery-service-simulation/delivery-service/CourierHandler.cpp:154-157 | The courier at position i simulates the days after those before it: its state and changes are n simulated days of its old state. No other courier's state changes. |
| `DeliveryHandler.ShiftAll` | delivery-service-simulation/delivery-service/CourierHandler.cpp:154-161 | Every courier of a group simulates the days, in listing order. Each ends on the trip n days of its old trip give (`Reports`), and the changes are the couriers' records, one after the other. |
| `DeliveryHandler.ShiftEach` | delivery-service-simulation/delivery-service/CourierHandler.cpp:154-161 | The loop over a group: after it every courier has lived the days, the trips and records are the reports of the couriers in listing order, and the changes are those records one after the other. |
| `DeliveryHandler.ReportsMeaning` | delivery-service-simulation/delivery-service/CourierHandler.cpp:154-157 | Each courier's report is n simulated days of its own trip with its own distance limit. |
| `DeliveryHandler.ReportsNext` | delivery-service-simulation/delivery-service/CourierHandler.cpp:154-157 | Once the couriers before position i have reported, one more courier living its days extends the reports by its own. |
| `DeliveryHandler.CourierHandler.constructor` | delivery-service-simulation/delivery-service/CourierHandler.cpp:4-7 | The handler over the couriers created for it, on day 0. |
| `DeliveryHandler.CourierHandler.Create` | delivery-service-simulation/delivery-service/CourierHandler.cpp:4-37 | Fails for a starting city the map does not have, and then for fewer than one courier of either type; it succeeds exactly otherwise. On success the basic couriers are 1001, 1002, ... and the first-class couriers 2001, 2002, ..., all in the starting city. |
| `DeliveryHandler.CourierHandler.GetCourier` | delivery-service-simulation/delivery-service/CourierHandler.cpp:40-51 | A courier is found exactly when the id is a basic or first-class courier's, looking at basic couriers first. |
| `DeliveryHandler.CourierHandler.GetCourierId` | delivery-service-simulation/delivery-service/CourierHandler.cpp:40-51 | A courier found by id carries that id. |
| `DeliveryHandler.CourierHandler.AssignPackage` | delivery-service-simulation/delivery-service/CourierHandler.cpp:54-146 | Among couriers of the requested type, the first in listing order whose candidate route from its own location is shortest gets the package. The price is that distance times the type's price per kilometre. No other courier changes. |
| `DeliveryHandler.CourierHandler.ShiftTime` | delivery-service-simulation/delivery-service/CourierHandler.cpp:149-164 | Every basic courier and then every first-class courier simulates the days. Each ends on the trip those days of its old trip give. The changes are the basic couriers' records and then the first-class couriers', in listing order (`Reported`), each dated within the shift. The ghost results are the couriers' trips after the shift. |
| `DeliveryReceipt.UpTo` | delivery-service-simulation/delivery-service/DeliveryService.cpp:62-65 | The field read up to the first comma: a comma-free prefix, followed by a comma or the end. |
| `DeliveryReceipt.GetLine` | delivery-service-simulation/delivery-service/DeliveryService.cpp:62-65 | std::getline with ',' as delimiter fails exactly on a stream at its end or with nothing left. Otherwise the field is comma-free, and it is either the rest of the input (end reached) or followed by one consumed comma. |
| `DeliveryReceipt.ParseSound` | delivery-service-simulation/delivery-service/DeliveryService.cpp:60-69 | Four fields read from a receipt can be carried by a receipt, and the receipt is those fields joined by commas followed by the unread text. |
| `DeliveryReceipt.ParseJoin` | delivery-service-simulation/delivery-service/DeliveryService.cpp:60-69 | Conversely, a receipt written from four readable fields and an ending is read as exactly those fields. |
| `DeliveryReceipt.ReadCommas` | delivery-service-simulation/delivery-service/DeliveryService.cpp:62-65 | A receipt that is read holds at least three commas. |
| `DeliveryReceipt.Stoi` | delivery-service-simulation/delivery-service/DeliveryService.cpp:80-85 | std::stoi fails with invalid_argument exactly when no digit follows the white space and sign. A converted value lies within the 32-bit int range. |
| `DeliveryReceipt.StoiShow` | delivery-service-simulation/delivery-service/DeliveryService.cpp:82 | Every 32-bit int written in decimal is read back by std::stoi, whatever non-digit text follows. |
| `DeliveryReceipt.StoiFraction` | delivery-service-simulation/delivery-service/DeliveryService.cpp:82 | "1.5" converts to 1: the fraction is ignored. |
| `DeliveryReceipt.StoiLetter` | delivery-service-simulation/delivery-service/DeliveryService.cpp:83-85 | A weight that starts with anything other than white space, a sign or a digit is not an integer. |
| `DeliveryReceipt.ParseType` | delivery-service-simulation/delivery-service/DeliveryService.cpp:88-95 | A type is read exactly from "basic" or "firstClass"; any other name is rejected. |
| `DeliveryReceipt.ParseTypeName` | delivery-service-simulation/delivery-service/DeliveryService.cpp:89-92 | The name of each courier type is read back as that type. |
| `DeliveryReceipt.Validate` | delivery-service-simulation/delivery-service/DeliveryService.cpp:60-95 | The checks in order: the format error exactly when four fields cannot be read, and the city error exactly when they can but a city is unknown. On success the order holds the two known cities, the converted weight and the named type. |
| `DeliveryReceipt.ValidateOrder` | delivery-service-simulation/delivery-service/DeliveryService.cpp:79-95 | With both cities known, the receipt is refused for its weight exactly when std::stoi fails, in the same way. It is refused for its type exactly when the weight converts and the type name is unknown. |
| `DeliveryReceipt.ValidateShow` | delivery-service-simulation/delivery-service/DeliveryService.cpp:54-95 | Every order with known, comma-free cities is accepted back when written as a receipt. |
| `DeliveryService.Multiplier` | delivery-service-simulation/delivery-service/DeliveryService.h:20-26 | The weight multiplier lies between 1 and 7, and it is 1 exactly below 100 grams. |
| `DeliveryService.MultiplierMonotone` | delivery-service-simulation/delivery-service/DeliveryService.h:20-26 | A heavier package never has a smaller multiplier. |
| `DeliveryService.MultiplierThresholds` | delivery-service-simulation/delivery-service/DeliveryService.h:20-26 | Each threshold weight has its own multiplier, and a gram less has a smaller one. |
| `DeliveryService.DeliveryPriceCalculation` | delivery-service-simulation/delivery-service/DeliveryService.cpp:152-161 | The price is the price for the distance times the multiplier of the weight. |
| `DeliveryService.LogOrderedPrecedes` | delivery-service-simulation/delivery-service/DeliveryService.cpp:128-132 | The log order is the comparator or equality, and it is total. |
| `DeliveryService.LogOrderedAntisymmetric` | delivery-service-simulation/delivery-service/DeliveryService.cpp:128-132 | Two changes each of which may come before the other are equal. |
| `DeliveryService.LogOrderedTransitive` | delivery-service-simulation/delivery-service/DeliveryService.cpp:128-132 | The log order is transitive. |
| `DeliveryService.SortedUnique` | delivery-service-simulation/delivery-service/DeliveryService.cpp:133 | Two sorted arrangements of the same changes are equal, so what the log holds does not depend on the order in which changes are reported. |
| `DeliveryService.Insert` | delivery-service-simulation/delivery-service/DeliveryService.cpp:133 | One insertion step of the sort: a change put into a sorted sequence gives a sorted sequence holding it and the others. |
| `DeliveryService.Log` | delivery-service-simulation/delivery-service/DeliveryService.cpp:122-149 | The lines written to the log are the changes, sorted by day, then status, then id, and a permutation of them. |
| `DeliveryService.Advance` | delivery-service-simulation/delivery-service/DeliveryService.cpp:48 | The handler's couriers simulate the days, each dated within them. The changes are exactly those the couriers report, the basic couriers' before the first-class couriers', and the couriers end on the trips those days give (`Reported`). |
| `DeliveryService.Assign` | delivery-service-simulation/delivery-service/DeliveryService.cpp:108 | The handler gives the package to the courier of the requested type whose route is cheapest, at that price for the distance. |
| `DeliveryService.DeliveryService.constructor` | delivery-service-simulation/delivery-service/DeliveryService.cpp:4-13 | The service on day 0, with no packages and an empty log. |
| `DeliveryService.DeliveryService.Create` | delivery-service-simulation/delivery-service/DeliveryService.cpp:4-20 | Fails exactly as the courier handler's constructor does; otherwise the service is on day 0 with no packages, an empty log and the handler's couriers. |
| `DeliveryService.DeliveryService.GetPackageInformation` | delivery-service-simulation/delivery-service/DeliveryService.cpp:23-37 | The text starts with "Package ID: " exactly when the package exists, and then it ends with that package's status message. |
| `DeliveryService.DeliveryService.SendPackage` | delivery-service-simulation/delivery-service/DeliveryService.cpp:54-119 | A receipt that fails a check is refused with that check's error and changes nothing, using no id. An accepted one becomes package 100 + the next number, not picked up, in its source city. The handler assigns it, it is priced by distance times weight multiplier and logged, and its information then reports it. |
| `DeliveryService.DeliveryService.Place` | delivery-service-simulation/delivery-service/DeliveryService.cpp:99-118 | The accepted order is numbered, stored, assigned, priced and logged. |
| `DeliveryService.DeliveryService.Dispatch` | delivery-service-simulation/delivery-service/DeliveryService.cpp:108-113 | The handler assigns the stored package. The price is the multiplier times the price for the distance, and the creation is logged on the current day as NOT_PICKED_UP. |
| `DeliveryService.DeliveryService.Note` | delivery-service-simulation/delivery-service/DeliveryService.cpp:112-113 | A single change is appended to the log as it is. |
| `DeliveryService.DeliveryService.Admit` | delivery-service-simulation/delivery-service/DeliveryService.cpp:99-104 | A new package with the next id (never used before), not picked up, in the source city, is stored under its id; the counter goes up by one. |
| `DeliveryService.DeliveryService.Simulate` | delivery-service-simulation/delivery-service/DeliveryService.cpp:48 | The handler simulates the days, and the service's own state is unchanged. The couriers end on the trips those days give, and the changes are exactly their reports, basic couriers first (`Reported`). |
| `DeliveryService.DeliveryService.Record` | delivery-service-simulation/delivery-service/DeliveryService.cpp:49-50 | The lines are logged and the day moves on by the number of days. The couriers' trips are unchanged. |
| `DeliveryService.DeliveryService.ShiftTime` | delivery-service-simulation/delivery-service/DeliveryService.cpp:40-52 | A negative number of days is refused and changes nothing. Otherwise the couriers simulate the days and the day moves on. The changes are exactly those the couriers report, basic couriers first (`Reported`), each dated within the shift. They are logged sorted by day, then status, then id. |
| `FantomPawns.Slot` | fantom-board-game/hrac.py:29 | Python list indexing: index way addresses an element of n exactly when -n <= way < n. That element is way itself or, for a negative index, way + n; outside that range the indexing raises IndexError (None). |
| `FantomPawns.TotalNonNegative` | fantom-board-game/hrac.py:7 | Ticket counts that are not negative add up to a total that is not negative. |
| `FantomPawns.TotalLowered` | fantom-board-game/hrac.py:31 | Lowering one count by one lowers the total number of tickets by one. |
| `FantomPawns.Spend` | fantom-board-game/hrac.py:31 | Handing in a ticket of kind way lowers that count by one and leaves the others as they were. The total drops by one, and no count becomes negative. |
| `FantomPawns.Pawn.Agent` | fantom-board-game/hrac.py:3-7 | A new agent is not placed, holds 10 bus, 9 taxi and 5 tram tickets, and has no showing rounds. |
| `FantomPawns.Pawn.Phantom` | fantom-board-game/hrac.py:59-65 | A new phantom, tagged "black" by default, is not placed, holds 4 bus, 3 taxi, 3 tram, 2 sail and 2 double tickets, and shows itself in rounds 3, 8, 13, 18 and 24. |
| `FantomPawns.Pawn.Place` | fantom-board-game/hrac.py:9-18 | Placing succeeds exactly for a node no higher than 202, and the pawn then stands there. A node beyond the board is refused and the position is kept. |
| `FantomPawns.Pawn.Move` | fantom-board-game/hrac.py:20-42 | A move succeeds exactly when the node is on the board, the board links the position to it by that kind, the kind indexes a ticket and one is left. The pawn then stands there and holds one ticket of that kind fewer. Any other move is refused and changes nothing. |
| `FantomPawns.SpendAll` | fantom-board-game/hrac.py:28-32 | A pawn makes at most as many moves as it has tickets: after any sequence of moves its counts are not negative, and the total has dropped by exactly the number of moves. |

## Left out

- Input and output are not modelled:
  - crossword: `load_words`, `load_grids`, `__str__`, `solve_one_crossword` and `solve_all_crosswords`, with their progress printing and solution files;
  - Azul: `Game.state`, `get_state_of_boards`, `Board.state`, `TableArea.state`, `notify`, the observers and `register_callback`;
  - delivery: the log file and map-file reading, and the `LoggingFileException` and `MapFileException` they raise;
  - fantom: the tkinter demo at the end of hrac.py.
  The map constructor takes the roads already split into lines.
- `number_of_eliminated_words` and the least-constraining-value ordering of `solve_backtrack` are not modelled. Candidate words are tried in an arbitrary order chosen with `:|`. With that ordering and an `LCV_size` below a domain's size, the program tries only a random sample of the domain, so its False no longer rules out a solution; the completeness of `CrosswordSolver.SolveBacktrack` holds for the search without it.
- Python's set iteration order, and `std::unordered_map`'s, is unspecified.
  - Crossword domains and arcs are sets, and the model chooses among them arbitrarily.
  - The order in which couriers are scanned and simulated is a listing fixed at creation (`basicOrder`, `firstClassOrder`). This follows the tests, which accept either courier.
- `Bag.get_random_tiles` draws with `random`. `AzulBag.Bag` takes the permutation generator as a constructor parameter, `permutations(draw, n)`, and proves results for any generator that yields permutations.
- `exists_path` of the board lives in the `mapa` module, which is not part of this model. `FantomPawns.Pawn.Move` takes it as a function parameter.
- `azul/floor.py` is not part of this model. `AzulBoard.Floor` keeps the tiles put on it. It scores the penalty pattern -1, -1, -2, -2, -2, -3, -3 (the last value repeating), gives its tiles to the used tiles and empties at the end of a round. This is the behaviour the pattern-line and board tests fix.
- CrosswordWords.CreateWordDatabase, Crossword.CrossWord.constructor, CrosswordSolver.Solve: a word with a letter outside a-z and `'` makes `create_word_database` raise `KeyError` while it builds the database (crossword.py:373); a later lookup for a length or letter the database lacks raises `KeyError` too. The model requires every word over that alphabet and a word of every slot length.
- Crossword.CrossWord.constructor: also requires a grid that is not empty and whose rows are each at least as long as the first (`CrosswordGrid.ColumnsDefined`). On an empty grid, or with a shorter row, crossword.py:66-67 raises `IndexError` (`grid[0]`, `row[c]`).
- CrosswordGrid.GetPositions: requires the same grid shape (`CrosswordGrid.ColumnsDefined`), for the same `IndexError` at crossword.py:66-67.
- CrosswordSolver.Solve: requires every open cell to lie in some slot, because otherwise `max` of an empty list raises. It also requires the slots to start blank, as in the grid files the solver reads.
- AzulBag.Bag.Take: requires the bag and the used tiles to hold `count` tiles between them. With fewer, the refill loop at bag.py:27-28 never ends.
- AzulTable.Factory.StartNewRound, AzulTable.TableCenter.StartNewRound, AzulTable.TableArea.StartNewRound: each requires four tiles per factory in the bag and used tiles, for the same reason.
- AzulGame.DealRound: when the bag and the used tiles, after every board has discarded, hold fewer than four tiles per factory, the program never returns from `Bag.take`. The model instead puts the marker in the centre and leaves the factories as they were (`Game.Short`).
- AzulGame.Game.Take: requires the game to have started. Before `start`, `self._player_on_turn` is not yet set, so game.py:121 raises `AttributeError`.
- AzulBoard.PatternLine.Put: excludes a tile list whose first tile after the starting-player marker is a second marker. The program would look that marker up on the wall and crash.
- AzulGame.Game.StartNewRound: the rotation loop at game.py:162-163 needs a recorded starter. The model proves one is recorded whenever the table is empty, since the marker always returns to the centre.
- DeliveryCourier.Courier.Move: requires every pair of consecutive path cities to be neighbours. For a non-neighbour, `distanceToNeighbouringCity` returns -1, which the program treats as a road it can always take.
- DeliveryCourier.Courier.Valid: does not state that every carried package has status IN_DELIVERY and the courier's location. Each method that changes packages states instead where every package of the courier is and what its status is after the call, as a function of the old state (`SpotsOf`, `HandOutSpots`, `DriveSpots`, `DaySpots`, `DaysSpots`).
- DeliveryHandler.ShiftNext, DeliveryHandler.ShiftAll, DeliveryHandler.CourierHandler.ShiftTime, DeliveryService.DeliveryService.ShiftTime: state every courier's new trip and records, but not the packages' locations and statuses after the shift. `DeliveryHandler.ShiftOne` states those for each courier (`DaysSpots`); a group-wide statement over the couriers' parcels is not part of this model.
- DeliveryService.Log: `std::sort` sorts the vector in place. The model computes the sorted lines as a function (an insertion sort, `Insert`), with the same result: the changes, sorted, and a permutation of them.
- DeliveryService.Assign, DeliveryService.DeliveryService.SendPackage, DeliveryService.DeliveryService.Place, DeliveryService.DeliveryService.Dispatch: do not restate, at the service's level, which courier took the package (`DeliveryHandler.Delivering`). `DeliveryHandler.CourierHandler.AssignPackage` states it.
- C++ `int` arithmetic is unbounded in the model. Sums of road distances, prices times multipliers and the day counter can overflow 32 bits in the program, and the model does not wrap them.
- DeliveryReceipt.Validate: `std::stoi` raises `std::out_of_range` for a weight beyond 32 bits. `sendPackage` does not catch it, so the exception escapes; the model returns the error `WeightOutOfRange`.
- DeliveryHandler.CourierHandler.GetCourier: returns None where the program throws `CourierNotFoundException`.
- DeliveryDijkstra.ExploreAsWritten: returns None where the program reads the uninitialised `whereToMove` pointer, because the current city has no unvisited neighbour.
- DeliveryDijkstra.MakePathAsWritten: bounds its steps by the table size and returns None for a predecessor cycle or a city without a predecessor. The program would loop, or read the `""` sentinel and throw `std::out_of_range`.
- DeliveryDijkstra.ExploreAsWritten, DeliveryDijkstra.MakePathAsWritten, DeliveryDijkstra.ShortestPathAsWritten, DeliveryHandler.SelectAsWritten: these as-written members only exhibit the two defects listed under "## Findings". The rest of the delivery model, `DeliveryCourier.Courier.AppendPathToCity`, `DeliveryHandler.CourierHandler.AssignPackage` and the pricing in `DeliveryService`, runs on the corrected search (`DeliveryDijkstra.ShortestPath`) and the corrected scan (`DeliveryHandler.Select`), so the simulated routes and prices are those of the intended program.
- FantomPawns.Pawn.Place, FantomPawns.Pawn.Move: node and ticket-kind arguments are integers, so the `TypeError` branches of hrac.py cannot be reached. `Phantom.place`'s `TypeError` branch returns None rather than False.
- `invalid_move` prints only with `debug=True`, and no call passes it, so it has no effect.

## Findings

| source | as written | input that shows it | evidently intended | confidence | as-written member | corrected member |
|---|---|---|---|---|---|---|
| delivery-service-simulation/delivery-service/CourierHandler.cpp:125 | every candidate route is prefixed with the location of the best courier found so far (`bestCourier->getLocation()`), not with the candidate's own | line map A-B-C-D, roads of 1 km; basic couriers in A (scanned first) and D; package from B to C: the route of the courier in D measured from A is no walk, so its distance is -1, it is chosen, and the price is -5 | each route measured from the candidate courier's own location, giving the least non-negative distance | not executed | `DeliveryHandler.SelectAsWritten`, `DeliveryHandler.SelectAsWrittenNegative` | `DeliveryHandler.Select`, `DeliveryHandler.SelectLeast`, `DeliveryHandler.CourierHandler.AssignPackage` |
| delivery-service-simulation/delivery-service/Map.cpp:140-160 | each search step moves only to the closest unvisited neighbour of the current city | roads A-B 1, A-C 2, B-D 10, C-D 1, search from A to D: the step visits A, B, D, C and returns A-B-D of length 11, while A-C-D has length 3; on a star map it reads an uninitialised pointer | Dijkstra's step: the closest reached unvisited city over the whole map, giving a shortest path | not executed | `DeliveryDijkstra.ShortestPathAsWritten`, `DeliveryDijkstra.DiamondAsWritten`, `DeliveryDijkstra.StarMapStrandsSearch` | `DeliveryDijkstra.ShortestPath`, `DeliveryMap.Map.FindShortestPath` |
