# Squava engines, modelled and verified in Dafny

Squava is tic-tac-toe on a 5x5 board in which four marks in a row win and
three marks in a row (without making four) lose. The repository holds a
family of computer players, each a copy of the same few ideas:

- a catalogue of the 48 losing triplets and 28 winning quads, indexed by
  the cells they pass through;
- a board evaluator (`deltaValue`, `staticValue`, `wholeBoardValue`) that
  stops the search on a complete line and otherwise scores the position
  with line bonuses, "avoid" penalties and a positional bias table;
- minimax with alpha-beta pruning (`alphaBeta`), NegaScout (`negaScout`,
  with move reordering, and a variant returning the principal line), a
  threaded root search with a record pool, an opening book, two opening
  explorers and a position prober;
- a move keeper that collects the best-valued moves;
- Monte Carlo tree search players (`mcts.go`, `squavam.go`, `mcts3.go`,
  `squava2.py`).

The model keeps each engine's own form. A player whose methods update
fields is a Dafny `class`, its board an `array` of 25 cells (cell
(x, y) is index 5x + y, the row-major order the engines scan in). Each
search is a method proved against a recursive specification function
(`Search.Node`, `Scout.NS`, `History.NS3`, `Opening.Node`), and the
properties the source promises (values, leaf counts, board restored, keeper
contents, permutations, termination of the book) are proved about those
functions. Where copies differ only in a constant (loss formula, cut-off
test, penalties, tallies, bias tables) one generic engine is parameterised
by a `SearchRule`, and `Variants` fixes each file's constants.

Files: `lines.dfy` (board, catalogue), `winner.dfy` (the referee
`findWinner`), `index.dfy` (per-cell index), `evaluate.dfy` (`deltaValue`),
`static.dfy` (`staticValue`, `wholeBoardValue`), `keeper.dfy` (move
keepers), `search.dfy` (alpha-beta engine), `variants.dfy` (per-file
constants), `negascout.dfy` and `order.dfy` (NegaScout and move
reordering), `sns3.dfy` (NegaScout with history), `threaded.dfy`
(`squavathr.go`), `playoff.dfy` (`playoff2.go`, `playoff4.go`),
`book.dfy` (`abbook.go` opening book), `bias.dfy` (`setScores`),
`opening.dfy` (`opening2.go`, `opening3.go`), `probe.dfy` (`probe.go`),
`mcts.dfy`, `mcts_tree.dfy`, `mcts3.dfy`, `squava2.dfy` (Monte Carlo
players).

## Model

| member | source | states |
|---|---|---|
| Lines.IdxRowCol | squava.go:168-189 | row c/5 and column c%5 of a cell index are on the board and give the index back, so row-major scans and cell indexes agree |
| Lines.EmptiesFill | squava.go:262-316 | filling an empty cell lowers the count of empty cells by one: every search step makes progress |
| Lines.CatalogueWellFormed | squava.go:338-417 | the catalogue holds 48 triplets and 28 quads, each of distinct on-board cells |
| Lines.CompleteMeansOwned | squava.go:191-214 | on a valid board a line sums to p times its length exactly when player p holds every cell of it |
| Lines.CompleteOwner | squava.go:228 | every cell of a complete line holds the same player, whose mark times the length is the sum |
| Lines.ThroughMember | src/alphabeta/alphabeta.go:34-47 | a line is listed at cell c exactly when it is a catalogue line passing through c |
| Lines.ThroughWellFormed | src/alphabeta/alphabeta.go:34-47 | the per-cell lists keep the catalogue's shapes, and every listed line passes through its cell |
| Lines.CheckableCellsTouchEveryLine | src/alphabeta/alphabeta.go:141-145 | every triplet and every quad passes through one of the nine checkable cells |
| Lines.CheckableListsCoverCatalogue | src/alphabeta/alphabeta.go:141-145 | every catalogue line is listed at some checkable cell, so scanning those lists examines the whole catalogue |
| Referee.WinnerMeaning | squava.go:191-214 | findWinner is UNSET exactly when no line is complete; otherwise the owner of a complete quad, or, with no quad complete, the opponent of a complete triplet's owner |
| Referee.DecideMeaning | squava.go:191-214 | on any well-formed lines the quads-then-triplets verdict names no one exactly when no line is complete, else the owner of a complete quad, or the opponent of a complete triplet's owner |
| Referee.ScanLines | squava.go:194-210 | the line loop returns the sum of the first line summing to plus or minus its length, 0 when none does |
| Referee.FindWinner | squava.go:191-214 | the method equals the referee function Winner: quads first, then triplets |
| Referee.ScanDecide | squava.go:191-214 | the two line loops together return the Decide verdict on the given lines |
| LineIndexing.IndexLines | src/alphabeta/alphabeta.go:34-47 | appending every line to each of its cells' lists gives each cell's old list followed by the lines through it |
| LineIndexing.LineIndex.CalculateIndexedMatrices | src/alphabeta/alphabeta.go:34-47 | the per-cell lists gain exactly the catalogue lines through each cell, in catalogue order |
| LineIndexing.LineIndex.constructor | src/alphabeta/alphabeta.go:31 | the package state starts with no index built |
| LineIndexing.LineIndex.Prepare | src/alphabeta/alphabeta.go:49-59 | the lists are built once, on first use; a later call leaves them unchanged |
| LineIndexing.IndexedLinesWellFormed | src/alphabeta/alphabeta.go:34-47 | the built index lists exactly the lines through each cell, each of the right shape |
| Evaluate.LossFormsAgree | src/alphabeta/alphabeta.go:173 | sum/3*(LOSS+ply) and -sum/3*(WIN-ply) give the same value, since LOSS is -WIN |
| Evaluate.No2PenaltyCounts | src/abgeo/alphabetavoid.go:140-212 | each no2 triplet the move completes to two marks costs the mover exactly 100, once |
| Evaluate.NoMiddle2PenaltyCounts | src/abgeo/alphabetavoid.go:140-212 | each noMiddle2 quad whose middle cells the mover holds costs exactly 100, once |
| Evaluate.NoMiddle2OnlyInterior | src/abgeo/alphabetavoid.go:440-445 | a cell that is no middle cell of a listed quad is never charged the noMiddle2 penalty |
| Evaluate.DeltaMeaning | squava.go:218-260 | a complete quad wins WIN-ply for its owner before any triplet is looked at; a complete triplet loses WIN-ply for its owner; otherwise the search stops exactly at the cut-off, adding the carried value only then |
| Evaluate.ScanQuads | squava.go:222-236 | the quad loop returns the first complete quad's owner, otherwise the sum of the plus or minus 3 bonuses over all quads |
| Evaluate.ScanTriplets | squava.go:238-244 | the triplet loop returns the sum of the first complete triplet, or 0 |
| Evaluate.ChargeNo2 | src/abgeo/alphabetavoid.go:168-190 | the no2 loop charges the mover 100 for each listed triplet at plus or minus 2 |
| Evaluate.ChargeNoMiddle2 | src/abgeo/alphabetavoid.go:192-205 | the noMiddle2 loop charges 100 for each listed quad whose middle the mover holds at sum plus or minus 2 |
| Evaluate.DeltaValue | squava.go:218-260 | deltaValue returns the Delta verdict of its file's rule: the loss formula, the penalties, the cut-off test and the carried value |
| Static.LineStepMeaning | src/negascout/negascout.go:165-193 | the first line of a scan decides it exactly when that line is complete, at the line's value |
| Static.PassDecided | src/negascout/negascout.go:165-193 | a scan is decided exactly when one of its lines is complete |
| Static.PassFirst | src/negascout/negascout.go:165-193 | a decided scan is decided by its first complete line, at that line's value |
| Static.PassOpen | src/negascout/negascout.go:176-178 | an open scan has added ten times the sum of each three-of-four quad to its starting total |
| Static.NoDeadlyTerm | sns3.go:247-298 | without deadly quads the deadly term is zero whatever the board |
| Static.GatherComplete | src/negascout/negascout.go:165-193 | scanning the lists of covering cells finds a complete line exactly when the catalogue has one |
| Static.StaticMeaning | src/negascout/negascout.go:161-223 | a complete quad decides for its owner at the win size before any triplet; otherwise a complete triplet decides against its owner; otherwise the quad bonus, deadly term and bias, stopping past the depth limit |
| Static.WholeBoardMeaning | playoff4.go:218-268 | a complete quad or triplet decides at WIN for or against its owner, otherwise the quad bonus plus the side's bias |
| Static.InterleavePhase | playoff4.go:220-250 | the cell-by-cell scan, quads then triplets at each cell, decides exactly when a complete line exists, at the value of one |
| Static.ScanLines | src/negascout/negascout.go:167-179 | one list of lines is summed line by line and the scan returns at the first complete line |
| Static.ChargeDeadly | src/negascout/negascout.go:195-202 | each deadly quad with interior sum plus or minus 2 and empty ends is charged as the file's form says |
| Static.AddBias | src/negascout/negascout.go:204-213 | the bias loop adds each cell's mark times its bias |
| Static.StaticValueOf | src/negascout/negascout.go:161-223 | staticValue's result is the StaticValue specification |
| Static.WholeBoardValueOf | playoff4.go:218-268 | wholeBoardValue's result is the WholeBoardValue specification with the side's table |
| Keeper.BestAppend | src/movekeeper/movekeeper.go:26-36 | one more offer raises the best value to it exactly when it is larger |
| Keeper.CellsValuedOffered | src/movekeeper/movekeeper.go:26-36 | every kept cell was offered with the kept value |
| Keeper.CellsValuedCount | src/movekeeper/movekeeper.go:26-36 | every offer with the kept value is kept, once |
| Keeper.MoveKeeper.constructor | src/movekeeper/movekeeper.go:17-24 | nothing kept, with the given starting bound and flag |
| Keeper.MoveKeeper.SetMove | src/movekeeper/movekeeper.go:26-36 | a lower value is ignored, a larger one restarts the list, an equal one is appended; the list is the cells offered at the best value |
| Keeper.MoveKeeper.ChooseMove | src/movekeeper/movekeeper.go:38-52 | (-1, -1, 0) with nothing kept; otherwise the first kept cell when deterministic, else the kept cell at the supplied random index |
| Keeper.SlotStep | sns3.go:536-543 | an offer at least the bound takes over the slot, a lower one leaves it |
| Keeper.SlotKeeper.constructor | sns3.go:529-534 | the slot starts at the given cell and bound, nothing offered |
| Keeper.SlotKeeper.SetMove | sns3.go:536-543 | the slot is overwritten whenever the value reaches the bound |
| Keeper.SlotKeeper.ChooseMove | sns3.go:545-548 | the slot as it stands: the last offer at the best value after any offer at or above the start |
| Search.StepCases | src/alphabeta/alphabeta.go:193-251 | the loop step of alphaBeta spelled out: a stop or a cut-off ends the node, otherwise the fold continues |
| Search.BuiltIndexShaped | src/alphabeta/alphabeta.go:34-47 | a built index gives every cell lists of the shapes the evaluator needs |
| Search.RootStep | squava.go:168-189 | one more root cell: an offer with its value when the cell is empty, nothing otherwise |
| Search.RootOffersEmpty | squava.go:168-189 | every root offer names an empty cell |
| Search.RootOffersCount | squava.go:168-189 | the root makes exactly one offer per empty cell |
| Search.DepthGrows | src/alphabeta/alphabeta.go:70-80 | with growing limits the search depth never falls as the game goes on |
| Search.Engine.constructor | src/alphabeta/alphabeta.go:49-59 | an empty board, the line index built on first use, the given depth, flag and bias table |
| Search.Engine.MakeMove | src/alphabeta/alphabeta.go:65-67 | the mark goes into cell (x, y); the book engine also counts the move |
| Search.Engine.SetDepth | src/alphabeta/alphabeta.go:70-80 | the depth is the first limit whose move threshold is passed, checked in turn |
| Search.Engine.Judge | src/alphabeta/alphabeta.go:149-191 | the evaluator's verdict on the current board with the ply's bias table |
| Search.Engine.AlphaBeta | src/alphabeta/alphabeta.go:193-251 | the value and leaves the Node specification gives, the counter grown as the file counts, the board restored |
| Search.Engine.Sweep | src/alphabeta/alphabeta.go:196-249 | the maximizer's and minimizer's loops over the board; any other player yields 0 |
| Search.Engine.Visit | src/alphabeta/alphabeta.go:199-220 | one cell of the loop: an occupied cell is passed over, an empty one tried and folded into the value and window |
| Search.Engine.Fold | src/alphabeta/alphabeta.go:207-218 | the maximizer keeps the larger value and raises alpha, the minimizer the smaller and lowers beta; a cut once the window closes |
| Search.Engine.TryCell | src/alphabeta/alphabeta.go:200-206 | the mover's mark goes in, the child is judged and searched, and the cell is cleared |
| Search.Engine.Descend | squava.go:262-316 | with the mark in place the child is judged (the "after" shape) and searched unless that stops |
| Search.Engine.RootCell | squava.go:172-184 | one root move: the maximizer's mark, judged at ply 0 and, unless stopped, the minimizer's reply searched |
| Search.Engine.RootSweep | squava.go:172-184 | every empty cell's RootCell value offered to the keeper in row-major order |
| Search.Engine.RootVisit | squava.go:172-184 | one root cell: the offers and the counter grow exactly by that cell's RootOffers step |
| Search.Engine.Choose | src/alphabeta/alphabeta.go:83-108 | the keeper ends with the RootOffers of the board and the move drawn from it |
| Search.Engine.ChooseMove | src/alphabeta/alphabeta.go:83-108 | the counter restarts, the root loop picks a move from the best offers, and that move is made |
| Variants.EvalCutoffForms | squava.go:218-260 | ply == maxDepth and ply >= maxDepth give the same verdict at or below the cut-off |
| Variants.NodeCutoffForms | squava.go:262-316 | a search entered at or above the cut-off gives the same value and counts under either test |
| Variants.RootCutoffForms | src/alphabeta/alphabeta.go:83-108 | the root offers the same values and counts under either cut-off test when the depth limit is not negative |
| Variants.NewAlphaBeta | src/alphabeta/alphabeta.go:49-59 | the generic engine with alphabeta.go's rule, depths and table |
| Variants.NewAlphaBetaGeo | src/abgeo/alphabetavoid.go:53-63 | the generic engine with alphabetavoid.go's rule and depths |
| Variants.NewAlphaBetaBook | src/abbook/abbook.go:54-66 | the generic engine with abbook.go's rule, counting moves |
| Variants.NewSquava | squava.go:34-153 | squava.go's globals: empty board, depth 10, its rule and table |
| Variants.NewNegaScout | src/negascout/negascout.go:49-59 | the NegaScout engine with negascout.go's rule and depths, its minimizer's order ending with the good cells only |
| Variants.NewSns | sns.go:31-135 | sns.go's globals: depth 10, the end-game depth as the late limit, and the minimizer's order ending with the whole maximizer's order |
| Ordering.QuadBucketMeaning | src/negascout/negascout.go:400-488 | a quad bucket is dull exactly when no quad through the cell holds two or three marks of one kind |
| Ordering.TripletBucketMeaning | src/negascout/negascout.go:400-488 | a triplet bucket is dull exactly when no triplet through the cell sums to plus or minus 2; good means the minimizer has two in some triplet, bad the maximizer |
| Ordering.ClassifyMeaning | src/negascout/negascout.go:400-488 | a cell's bucket, quads decided before triplets, in terms of the lines through it |
| Ordering.PickMembers | src/negascout/negascout.go:400-488 | a cell is picked for a bucket exactly when it is an empty cell of the order in that bucket |
| Ordering.PickSplit | src/negascout/negascout.go:400-488 | the three buckets split the empty cells of the order between them |
| Ordering.InitialOrderOnce | src/negascout/negascout.go:381-388 | the initial order names every cell exactly once |
| Ordering.OrdersArePermutations | src/negascout/negascout.go:400-488 | both new orders hold exactly the empty cells of the order, as often as it holds them |
| Ordering.OrdersListEachEmptyCellOnce | src/negascout/negascout.go:400-488 | from the initial order, each new order lists every empty cell once and nothing else |
| Ordering.MaxOrderOnEmpty | src/negascout/negascout.go:400-488 | on the empty board the maximizer's order is the initial order itself |
| Ordering.SnsMinOrderRepeats | sns.go:161-232 | on the empty board sns.go's minimizer order lists all 25 cells twice, 50 entries |
| Ordering.PickCount | sns.go:161-222 | a bucket's list holds a cell as often as the order does when the cell is empty and in that bucket, and never otherwise |
| Ordering.SnsMinOrderCounts | sns.go:225-231 | for a cell the order names once, sns.go's minimizer order lists it twice when it is empty and not good, once when good, never when taken |
| Ordering.SnsMinOrderListsTwice | sns.go:161-232 | from the initial order, sns.go's minimizer order lists each empty cell twice unless it is good, and no taken cell |
| Ordering.ClassifyCell | src/negascout/negascout.go:405-460 | the method returns the Classify bucket of a cell |
| Ordering.Buckets | src/negascout/negascout.go:403-470 | the bucketing loop returns the Pick buckets and the count of empty cells |
| Ordering.Reorder | src/negascout/negascout.go:400-488 | the maximizer's order is good, dull, bad, one entry per empty cell; the minimizer's is bad, dull and then the good cells (negascout.go, again one entry per empty cell) or the whole maximizer's order (sns.go) |
| Scout.ProbeCases | src/negascout/negascout.go:225-255 | the null-window probe's three outcomes: a probe no better than the score keeps it; at the window's edge or two plies above the limit the probe's value is taken; otherwise a full-window re-search decides |
| Scout.RootRises | src/negascout/negascout.go:77-115 | the root offers the running alpha, so offers rise and never drop below the starting alpha |
| Scout.RootOffersVacant | src/negascout/negascout.go:77-115 | every root offer is an empty cell |
| Scout.RootKeeps | src/negascout/negascout.go:77-115 | with an empty cell in the order the root makes offers, the best is the last offer (the final alpha), at least 2*LOSS, and some move is kept at it |
| Scout.KeptVacant | src/negascout/negascout.go:77-115 | every move the root keeper holds is an empty cell |
| Scout.RootVacant | src/negascout/negascout.go:77-115 | every offer of the root loop names an empty cell |
| Scout.FullBoardScore | src/negascout/negascout.go:215-217 | a full, undecided board within the depth limit scores 3*LOSS: the cat game the comment warns about |
| Scout.LoopExhausted | src/negascout/negascout.go:232-253 | once no empty cell remains in the order the loop returns its score and count unchanged |
| Scout.PlannedKeeps | src/negascout/negascout.go:77-115 | with an empty cell, the root loop over the reordered moves keeps a move |
| Scout.ChoiceMade | src/negascout/negascout.go:77-111 | with an empty cell in the maximizer's order, whatever the keeper returns is a kept move at the final alpha on an empty cell |
| Scout.ScoutEngine.constructor | src/negascout/negascout.go:49-59 | the index built on first use, empty board, the given depth and flag, empty orders, and the file's choice of minimizer order |
| Scout.ScoutEngine.MakeMove | src/negascout/negascout.go:61-63 | the mark goes into cell (x, y) |
| Scout.ScoutEngine.SetDepth | src/negascout/negascout.go:65-75 | three thresholds on the move counter, checked in turn |
| Scout.ScoutEngine.StaticValue | src/negascout/negascout.go:161-223 | one more leaf, and the file's evaluator verdict on the board |
| Scout.ScoutEngine.ReorderMoves | src/negascout/negascout.go:400-488 | both orders rebuilt from the initial order on the current board, the minimizer's as the engine's file builds it |
| Scout.ScoutEngine.NegaScout | src/negascout/negascout.go:225-255 | the value NS specifies, one leaf per staticValue call, the board restored |
| Scout.ScoutEngine.Sweep | src/negascout/negascout.go:232-253 | the loop over the player's order ends as Loop says |
| Scout.ScoutEngine.ProbeCell | src/negascout/negascout.go:235-250 | the mark goes in, the probe and any re-search run as Probe says, the cell is cleared |
| Scout.ScoutEngine.RootSweep | src/negascout/negascout.go:85-108 | every tried cell offered to the keeper with the running alpha |
| Scout.ScoutEngine.Choose | sns.go:234-270 | reorder (for sns.go with the doubled minimizer order that negaScout's loop at sns.go:390 walks), run the root loop with a keeper at 3*LOSS, and return the kept move |
| Scout.ScoutEngine.CountedChoose | src/negascout/negascout.go:77-111 | the counter restarts and the root loop runs; on a board with an empty cell the kept move is an empty cell, valued at the final alpha, and the counter holds the loop's leaves |
| Scout.ScoutEngine.ChooseMove | src/negascout/negascout.go:77-115 | the counter restarts, the root loop picks a move and it is made |
| History.Judge3Meaning | sns3.go:247-298 | a complete quad stops with its owner's WIN, otherwise a complete triplet with WIN against its owner, otherwise the quad bonus and bias |
| History.NSCount | sns3.go:309-372 | every search calls staticValue at least once |
| History.NSPath | sns3.go:309-372 | every search returns a line of play from its node, ending with an entry carrying the returned value |
| History.InnerValueAtLeastAlpha | sns3.go:309-372 | a node that does not stop returns at least its alpha |
| History.ProbeCases3 | sns3.go:326-335 | the probe is re-searched with the full window exactly when its value falls strictly inside the window and the scan is past its first cell; otherwise the probe stands |
| History.FullBoardNode | sns3.go:309-372 | a full, undecided board yields alpha with the single entry (0, 0) |
| History.ScanOverFull | sns3.go:309-372 | with no empty cell from k on, the loop ends with alpha and the slot it holds |
| History.RootHistories | sns3.go:161-206 | every history the root keeps is a line of play from the minimizer's reply at ply 1 |
| History.RootVacated | sns3.go:161-206 | the root only offers empty cells |
| History.RootRises3 | sns3.go:161-206 | the root's offers rise and all lie above 2*LOSS |
| History.ChosenOffered | sns3.go:161-206 | when the root offered anything, the chosen cell is empty, valued at the best offer, with a line of play from it |
| History.RootOverFull | sns3.go:161-206 | on a full board the root loop makes no offer |
| History.FullBoardChoosesOccupied | sns3.go:529-548 | as written, the slot starts at (0, 0), so a full board reports the occupied cell (0, 0) |
| History.DrawnBoardChoosesOccupied | sns3.go:32-137 | a reachable full drawn board reaches chooseMove, which reports (0, 0), a cell O holds |
| History.FullBoardChoosesNone | sns3.go:85-90 | with the slot started at (-1, -1) a full board reports negative coordinates and 3*LOSS, which the caller's test treats as no move |
| History.HistoryEngine.constructor | sns3.go:32-60 | the index lists built, an empty board, depth 10 and the given table |
| History.HistoryEngine.SetDepth | sns3.go:139-149 | 6 for the first moves, 8 after three, the end-game depth after ten |
| History.HistoryEngine.MakeMove | sns3.go:86-88 | the mark goes into cell (x, y) |
| History.HistoryEngine.StaticValue | sns3.go:247-298 | one more leaf, and Judge3's verdict |
| History.HistoryEngine.NegaScout | sns3.go:309-372 | the value and history NS3 specifies, the counter advanced as NS3 says, the board restored |
| History.HistoryEngine.RootSweep | sns3.go:170-200 | every improvement offered to the keeper |
| History.HistoryEngine.ChooseMove | sns3.go:161-206 | with the slot at (-1, -1): the kept move, its value and history with the root's own entry |
| Threaded.SetDepth | squavathr.go:180-195 | 6 before the fourth move, 8 from it, 10 after the tenth |
| Threaded.CheckMove | squavathr.go:584-599 | a human move is accepted exactly when it names an empty cell on the board |
| Threaded.CheckedMoveFills | squavathr.go:584-599 | an accepted move uses up one empty cell |
| Threaded.Pool.OldState | squavathr.go:200-203 | the record is pushed onto the free stack |
| Threaded.Pool.NewState | squavathr.go:207-230 | the top record, or a fresh one, holding a copy of the board with the maximizer's mark at (x, y) |
| Threaded.Pool.constructor | squavathr.go:197 | the free stack starts empty |
| Threaded.GameState.constructor | squavathr.go:16-23 | a new record has an empty board |
| Threaded.JobsJudged | squavathr.go:233-267 | each job is an empty cell whose root judgement does not stop, carrying that judgement's value |
| Threaded.StoppedJobsCount | squavathr.go:233-267 | the cells stopped at the root and the cells sent as jobs together number at most the cells scanned |
| Threaded.StoppedJobsEmpties | squavathr.go:237-249 | the cells stopped at the root and the cells sent as jobs are together exactly the empty cells scanned |
| Threaded.ReceivesMatchSends | squavathr.go:237-263 | the receive loop's one result per empty cell equals the jobs sent for a depth limit other than 0; at 0 no job is sent while every empty cell is awaited |
| Threaded.AllJobs | squavathr.go:237-249 | with a depth limit other than 0 no cell stops at the root and every empty cell is sent as a job; at 0 no job is sent |
| Threaded.RootJudgeStops | squavathr.go:241-247 | the root judgement, made before the mark is placed, stops only at depth limit 0 |
| Threaded.OrderFree | squavathr.go:250-262 | the best value is the same whatever order the workers finish in |
| Threaded.Worker | squavathr.go:449-467 | the job's board searched from the minimizer's reply at ply 1, value and leaf count stored |
| Threaded.RunJob | squavathr.go:449-467 | a job record is searched to its JobOutcome: value and leaves stored, coordinates kept |
| Threaded.Dispatch | squavathr.go:237-249 | each empty cell judged; a stop goes to the keeper with one leaf, anything else is sent as a job |
| Threaded.Collect | squavathr.go:250-262 | results come back in the given order, each offered to the keeper, leaves added, record returned to the pool |
| Threaded.Gather | squavathr.go:233-262 | dispatch and collection together offer the stopped cells and then the jobs in arrival order, with their leaves |
| Threaded.Deliver | squavathr.go:250-262 | a finished record is offered to the keeper at its cell and value and pushed back on the free stack |
| Threaded.ChooseMove | squavathr.go:233-267 | for any depth but 1, the depth lowered by one, stopped cells and jobs offered, the best move made, and the offers those of a sequential search |
| Playoff.OffersEmpty | playoff4.go:458-494 | every offer names an empty cell |
| Playoff.FullBoardOffersNothing | playoff4.go:458-494 | with no empty cell nothing is offered and no cell is kept |
| Playoff.TryMove | playoff4.go:464-472 | the mover's mark goes in, the reply is searched, the cell is cleared |
| Playoff.Keep | playoff4.go:473-486 | a better value restarts the buffer, an equal one appends: the buffer is the cells at the Target value |
| Playoff.SweepCell | playoff4.go:462-489 | one cell of the sweep keeps the buffer equal to the cells at the Target value of the offers so far |
| Playoff.Sweep | playoff4.go:462-489 | every empty cell's Reply offered in row-major order to the inline keeper |
| Playoff.PlayMove | playoff4.go:458-532 | the board valued with the other side's table, the best cells collected, one drawn and played |
| Playoff.PickedEmpty | playoff4.go:490-493 | the drawn cell is an empty cell |
| Playoff.Pick | playoff4.go:458-494 | the sweep and the draw give the Picked cell and value, the board restored |
| Playoff.NewPlayoff2 | playoff2.go:28-60 | one bias table for both sides and plies |
| Playoff.NewPlayoff4 | playoff4.go:427-440 | maximizerScores on even plies, minimizerScores on odd ones |
| Book.BookStaysOnSquare | src/abbook/abbook.go:438-503 | the book's cells stay on the board: the first near (0, 0), later ones corners of its square |
| Book.BookWritesOnce | src/abbook/abbook.go:438-503 | a call writes at most the reported cell, with the maximizer's mark, into an empty cell outside FIRST, counting the move |
| Book.BookEnds | src/abbook/abbook.go:462-500 | CORNER and OTHERDIAGONAL end the book, and only they do |
| Book.BookExits | src/abbook/abbook.go:478-490 | the program exits exactly when OTHERCORNER, reached directly or from DIAGONAL with the opposite corner taken, finds its corner taken |
| Book.CornersEndQuads | src/abbook/abbook.go:431-436 | any two corners of a book square end a winning quad |
| Book.BlockedCornerRepliesOccupied | src/abbook/abbook.go:462-477 | with both corners taken CORNER writes nothing and reports the occupied last book cell |
| Book.BookEngine.constructor | src/abbook/abbook.go:54-66 | the search engine, state FIRST and the book in progress |
| Book.BookEngine.PlayFirst | src/abbook/abbook.go:445-449 | the drawn cell near (0, 0) gets the mark, uncounted; DIAGONAL next |
| Book.BookEngine.PlayDiagonal | src/abbook/abbook.go:450-461 | the opposite corner if free, then CORNER; otherwise OTHERCORNER, going on |
| Book.BookEngine.PlayCorner | src/abbook/abbook.go:462-477 | the corner above, else the one to the left, else nothing; the book ends |
| Book.BookEngine.PlayOtherCorner | src/abbook/abbook.go:478-490 | the corner to the right if free, then OTHERDIAGONAL; otherwise exit |
| Book.BookEngine.PlayOtherDiagonal | src/abbook/abbook.go:491-500 | the corner below left if free; the book ends |
| Book.BookEngine.BookStartStep | src/abbook/abbook.go:438-503 | the state machine runs until a state does not ask to go on |
| Book.BookEngine.Mark | src/abbook/abbook.go:68-71 | the book cell gets the maximizer's mark, the move counted when asked |
| Book.BookEngine.PlayBook | src/abbook/abbook.go:88-91 | one book call: exits exactly as BookStart says, and when it writes, the reported cell gets the maximizer's mark on an empty cell |
| Book.BookEngine.ChooseMoveAsWritten | src/abbook/abbook.go:86-91 | during the book, the last book cell is reported with value and leaves 0, whether or not it was written |
| Book.BookEngine.SearchMove | src/abbook/abbook.go:92-116 | off the book, the counted move chosen by the alpha-beta search |
| Book.BookEngine.ChooseMove | src/abbook/abbook.go:86-116 | the book cell is reported only when this call wrote it; otherwise the search chooses |
| Bias.PositionalSymmetric | squava.go:460-466 | the fixed table looks the same under the reflections of the board |
| Bias.SkewedDraws | squava.go:453 | the written draw table never gives -3 or -2, and gives -5 and 0 twice each |
| Bias.UniformDraws | squava.go:453 | the intended table gives each of -5 .. 5 once |
| Bias.SetScores | squava.go:451-468 | with randomize each cell gets the written table's value at its draw, so one of -5 .. 5 other than -3 and -2; otherwise the fixed table |
| Mcts.CatalogueCovered | src/mcts/mcts.go:398-440 | every catalogue line is listed in the row of an important cell on it |
| Mcts.JudgeIsDecide | src/mcts/mcts.go:342-382 | findWinner and GetResult on the scanned lines are the referee's verdict on them |
| Mcts.ScanAgrees | src/mcts/mcts.go:88-117 | the tables find a complete line exactly when the catalogue has one, and the same owner when one player holds them all |
| Mcts.OverMeaning | src/mcts/mcts.go:304-340 | GetMoves' end test holds exactly when the referee finds a winner |
| Mcts.Verdict | src/mcts/mcts.go:88-117 | over the important cells, findWinner names no one exactly when the referee does, else the referee's winner |
| Mcts.TableWinnerMeaning | src/mcts/mcts.go:342-382 | the tables' winner is UNSET exactly when the referee's is, and GetResult answers 1.0 exactly for it; with single owners it is the referee's winner |
| Mcts.VacanciesMeaning | src/mcts/mcts.go:304-340 | the moves list each empty cell once, ascending, and nothing else |
| Mcts.FirstComplete | src/mcts/mcts.go:94-114 | the inner loop returns the first complete line's sum, 0 if none |
| Mcts.ScanRows | src/mcts/mcts.go:94-114 | the loops return the first complete line's sum over the scanned rows |
| Mcts.FindWinner | src/mcts/mcts.go:88-117 | quads through occupied important cells, then triplets; the result is TableWinner |
| Mcts.GameState.constructor | src/mcts/mcts.go:267-271 | an empty board, MINIMIZER having moved, a zeroed cache |
| Mcts.GameState.Clone | src/mcts/mcts.go:273-278 | the player and board copied; the cache starts zeroed |
| Mcts.GameState.ResetCachedResults | src/mcts/mcts.go:280-284 | every slot marked uncached, so the cache is sound |
| Mcts.GameState.DoMove | src/mcts/mcts.go:286-289 | the other player moves into the cell |
| Mcts.GameState.GetMoves | src/mcts/mcts.go:304-340 | no moves once a listed line is complete, otherwise the empty cells ascending |
| Mcts.GameState.GetResult | src/mcts/mcts.go:342-382 | a cached answer is returned; otherwise computed from the tables and cached |
| MctsTree.Splice | src/mcts/mcts.go:250-260 | the first element equal to the move is spliced out, nothing else changes |
| MctsTree.Node.constructor | src/mcts/mcts.go:195-202 | no children or tallies, the state's moves untried and its player recorded |
| MctsTree.Node.AddChild | src/mcts/mcts.go:250-260 | the move leaves the untried moves, a new child joins; untried plus children's moves keep their multiset |
| MctsTree.Node.Update | src/mcts/mcts.go:262-265 | one more visit and result more wins |
| MctsTree.Engine.constructor | src/mcts/mcts.go:39-41 | a fresh game, a million iterations, no tree, UCTK 1.0 |
| MctsTree.Engine.UpdateMoves | src/mcts/mcts.go:291-302 | the first child made by m becomes the current node without a parent; otherwise nothing changes |
| MctsTree.Engine.MakeMove | src/mcts/mcts.go:51-55 | the mark goes in and the tree follows the move |
| MctsTree.Engine.ChooseMove | src/mcts/mcts.go:62-77 | the picked node becomes the root, its move is played and returned as coordinates |
| MctsTree.Engine.FindWinner | src/mcts/mcts.go:88-117 | the tables' winner, UNSET exactly when the referee finds none |
| Mcts3.CutMeaning | src/mcts3/mcts3.go:192-200 | the cut removes exactly one v and keeps every other element, changing nothing when v is absent |
| Mcts3.CutKeepsPlaces | src/mcts3/mcts3.go:192-200 | only the gap's slot changes: the last element moves into it |
| Mcts3.CutElement | src/mcts3/mcts3.go:192-200 | the loop stops at the first v and cuts it |
| Mcts3.RemainingMovesAsWritten | src/mcts3/mcts3.go:238-248 | as written: 25 zeros, then the empty cells |
| Mcts3.RemainingMoves | src/mcts3/mcts3.go:236-248 | every move left unmade, once each and ascending, and nothing else |
| Mcts3.AppendVacancies | src/mcts3/mcts3.go:240-245 | the loop appends the empty cells in ascending order to the slice it is given |
| Mcts3.RemainingOffersTakenCell | src/mcts3/mcts3.go:143-157 | the written slice offers cell 0 to the playout even when it is taken |
| Mcts3.Node.constructor | src/mcts3/mcts3.go:14-26 | move, parent and player set, every other field zero |
| Mcts3.Node.AddChild | src/mcts3/mcts3.go:202-220 | a new child for the move joins, and the move is cut from the untried moves |
| Mcts3.Node.SelectBestChild | src/mcts3/mcts3.go:222-234 | the first child whose score no other child beats |
| Mcts3.NewRoot | src/mcts3/mcts3.go:84-92 | the root: MINIMIZER, the empty cells ascending as untried moves |
| Mcts3.Expand | src/mcts3/mcts3.go:124-138 | the next player takes an untried move, a child records it with findWinner's result |
| Mcts3.BackPropagate | src/mcts3/mcts3.go:171-181 | every node from the leaf to the root gets one more visit; an undecided node also gets the win increment and its score recomputed, a decided one keeps its wins and score |
| Mcts3.Credit | src/mcts3/mcts3.go:172-177 | one visit more; an undecided node adds the increment and recomputes its score, a decided one keeps them |
| Mcts3.Player.constructor | src/mcts3/mcts3.go:41-43 | an empty board and 500000 iterations |
| Mcts3.Player.MakeMove | src/mcts3/mcts3.go:53-56 | the mark goes in and the player moved last |
| Mcts3.Player.ChooseMove | src/mcts3/mcts3.go:63-78 | the chosen cell gets MAXIMIZER's mark and is returned as coordinates |
| Mcts3.Player.FindWinner | src/mcts3/mcts3.go:259-293 | the tables' winner on the player's board |
| MctsPy.MovesMeaning | squava2.py:106-125 | the Python GetMoves equals the Go one: none exactly when someone has won or the board is full, else the empty cells |
| MctsPy.PythonVerdict | squava2.py:126-150 | GetResult finds a line exactly when someone has won, and when every line has a single owner it answers 1.0 exactly for the winner |
| MctsPy.SquavaState.constructor | squava2.py:89-92 | player 2 just moved, all cells empty |
| MctsPy.SquavaState.Clone | squava2.py:93-100 | a new state with the same player and a copy of the board |
| MctsPy.SquavaState.DoMove | squava2.py:101-105 | the other player moves into the cell |
| MctsPy.SquavaState.GetMoves | squava2.py:106-125 | the walk over the cells returns Moves |
| MctsPy.SquavaState.GetResult | squava2.py:126-150 | the first complete line decides: a quad 1.0 for its owner, a triplet 0.0; the assertion fails otherwise |
| MctsPy.Node.constructor | squava2.py:161-169 | the state's moves untried, its player recorded, no children |
| MctsPy.Node.AddChild | squava2.py:179-187 | a child joins and the move leaves the untried moves; the multiset of both is kept |
| MctsPy.Node.Update | squava2.py:188-193 | one more visit and result more wins |
| Opening.OrderedCellsPermutation | opening2.go:272-305 | the cell order of alphaBeta lists every cell exactly once |
| Opening.TransformBijective | opening3.go:379-451 | each of the eight matrices maps the 25 cells one-to-one onto themselves |
| Opening.TransformInverse | opening3.go:379-451 | each symmetry is undone by its inverse |
| Opening.UniqueCellsCover | opening2.go:263-270 | every cell is the image of one of the six first moves under one of the symmetries |
| Opening.SymmetricInvariant | opening3.go:379-451 | a table with the three reflections looks the same under all eight matrices |
| Opening.EquivalentSymmetric | opening3.go:78-97 | being the same pair up to symmetry works both ways |
| Opening.PositionalInvariant | squava.go:460-466 | the fixed table gives a cell and each of its images the same bias |
| Opening.WrittenScoresAsymmetric | opening3.go:366-372 | the written table differs from the fixed one at (2,4), so mirror images get different biases |
| Opening.ScanKeeps | opening3.go:136-225 | the loop never loses ground and counts at least one more leaf |
| Opening.StepCases | opening3.go:136-225 | the loop step spelled out: the maximizer raises alpha, the minimizer lowers beta, and a closed window cuts |
| Opening.NodeMeaning | opening3.go:136-225 | every search counts at least one leaf; a stopped evaluation is the answer with exactly one leaf; at the depth limit the evaluation stops; a maximizer node that does not stop is worth at least LOSS, a minimizer node at most WIN |
| Opening.CoveredKnown | opening3.go:78-97 | the board test finds exactly the pairs already valued up to symmetry |
| Opening.Matched | opening3.go:78-97 | the matching loops stop at the first board with both images marked |
| Opening.ScanBoards | opening3.go:86-94 | the inner loop over the boards finds one with the maximizer on the first image and the minimizer on the second exactly when one exists |
| Opening.Opener.constructor | opening2.go:40-60 | the line index built, the depth given, an empty board |
| Opening.Opener.AlphaBeta | opening3.go:136-225 | the value Node specifies, its leaves added to the counter, the board restored |
| Opening.Opener.TryCell | opening3.go:136-225 | the mover's mark goes in, the child node is searched and counted, the cell is cleared |
| Opening.Opener.Sweep | opening3.go:136-225 | the loop over the cell order ends as Scan says, its leaves counted, the board restored |
| Opening.Opener.Judge | opening3.go:136-225 | the evaluation of the current board with the first move's bias |
| Opening.Opener.FirstSearch | opening2.go:63-69 | one pass makes the move, restarts the counter, searches the reply and takes the move back; the result is that first move's FirstMove search and the counter holds its leaves |
| Opening.Opener.FirstMoves | opening2.go:62-71 | each first move's result is its FirstMove search from the empty board, the move taken back; the counter left at the last search's leaves |
| Opening.Opener.Responses | opening3.go:73-114 | each pair, row-major, skipped when covered up to symmetry, else valued; results ascending, pairwise not equivalent, covering every pair |
| Opening.Opener.Respond | opening3.go:78-112 | one pair more: its board skipped when already known up to symmetry, else valued and recorded |
| Opening.Opener.SearchReply | opening3.go:100-112 | both marks made, the counter restarted, the maximizer's move searched with the first move's bias, marks cleared |
| Probe.SplitJoin | probe.go:58 | joining Split's comma-free pieces with commas gives the string back |
| Probe.SplitPieces | probe.go:58-60 | there is a second piece exactly when the argument holds a comma |
| Probe.SplitOf | probe.go:58 | two comma-free parts joined by a comma split back into exactly those parts |
| Probe.AtoiDecimal | probe.go:59-60 | Atoi reads back every decimal numeral, with or without a sign |
| Probe.AtoiMalformed | probe.go:59-60 | a malformed coordinate reads as 0 because the error is dropped |
| Probe.ParseWritten | probe.go:57-61 | "x,y" parses to (x, y) |
| Probe.PlayMeaning | probe.go:52-66 | the replay succeeds exactly when every argument is legal; it records the parsed moves, one ply each, the maximizer to move after an even number, each cell holding its last mover's mark |
| Probe.PlayFromMeaning | probe.go:52-66 | from any consistent position the replay succeeds exactly when every argument is legal, and appends their parsed moves |
| Probe.Replay | probe.go:52-66 | the loop's board, moves, ply and player are Play's, and it fails exactly when Play does |
| Probe.ProbesCells | probe.go:91-93 | every offer is an empty cell, and there are exactly as many offers as empty cells |
| Probe.DepthZeroCarriesBest | probe.go:95 | at depth 0 with no complete line a cell is worth its evaluation plus the running best value passed in |
| Probe.ProbeCell | probe.go:93-102 | the mark goes in, the cell judged with the running best, searched unless stopped, the cell cleared |
| Probe.BestMoves | probe.go:84-131 | the kept value is the side's best from 2*LOSS or 2*WIN, the kept cells those at it in row-major order, the leaves added up, the board restored |
| Probe.KeptOnBoard | probe.go:103-124 | every kept cell is on the board |
| Probe.Visit | probe.go:91-131 | one cell of the loop keeps the best value, kept cells and leaf total of the probes so far |
| Probe.Run | probe.go:48-146 | the depth read by Atoi; the moves replayed, failing exactly when some argument is not a legal move; the side to move's best cell chosen from the probes, with the leaf total, and played |
| Probe.FullBoardPlaysOrigin | probe.go:146 | with every cell taken nothing is offered and (0, 0), occupied, is played |

## Left out

- Output, timing and the command-line and interactive front ends (printing, `printBoard`, `readMove`, `scanMove`, `main`'s game loops in the interactive players): they do not affect the values computed.
- Randomness: every `rand.Intn` draw is a parameter of the method that uses it (the keeper's index, the book's first move, the bias draws, the Monte Carlo choices).
- Floating point: the Monte Carlo tallies are `real`; UCB1/UCT selection (`UCTSelectChild`, `UCB1`, `UCT`, `bestMove`'s selection and simulation loops) is not modelled, because it depends on square roots and random playouts.
- Concurrency: squavathr.go's worker goroutines and channels are modelled as a completion order given as a parameter; the interleaving of the workers is not.
- Python negative list indexes and the root's move None in squava2.py are not modelled; `UCTPlayGame` is left out.
- squavam.go's `main` and readMove: the game loop and input.
- Opening.Opener.constructor: takes the bias table as a parameter; the files fix the written table (see Findings).
- The claim of opening2.go that mirrored first moves have equal values is not proved; only the invariance of the fixed table under the symmetries is.
- Atoi: unbounded integers, not Go's clamping at 64 bits; any clamped value is off the board and fails either way.
- History.HistoryEngine.ChooseMove: the corrected keeper starts at (-1, -1); the written one is stated by History.FullBoardChoosesOccupied.
- Book.BookEngine.ChooseMove: the corrected book reply; the written one is Book.BookEngine.ChooseMoveAsWritten.
- Mcts3.RemainingMoves: the corrected slice; the written one is Mcts3.RemainingMovesAsWritten.
- Threaded.ChooseMove: requires a depth other than 1. At depth 1 the lowered limit is 0, no job is sent and the receive loop waits forever for one result per empty cell (Threaded.ReceivesMatchSends); setDepth only passes 6, 8 or 10.

## Findings

| source | as written | input that shows it | evidently intended | confidence | as-written member | corrected member |
|---|---|---|---|---|---|---|
| squava.go:453 | `[11]int{-5, -4, -3 - 2, -1, 0, 1, 2, 3, 4, 5}` lists ten values, -3 - 2 being one | randomized bias: index 2 draws -5 and index 10 draws 0 | each of -5 .. 5 once | high, not executed | Bias.SkewedDraws | Bias.UniformDraws |
| sns3.go:529-548 | the keeper's slot starts at (0, 0) | a full undecided board: chooseMove reports (0, 0), occupied | report no move, (-1, -1) | high, not executed | History.FullBoardChoosesOccupied | History.FullBoardChoosesNone |
| src/abbook/abbook.go:86-91 | ChooseMove reports the book cell whether or not bookStart wrote it | book from (0, 0), replies at (0, 3) and (3, 0): CORNER writes nothing and (3, 3) is reported | fall back to the search | high, not executed | Book.BlockedCornerRepliesOccupied | Book.BookEngine.ChooseMove |
| src/mcts3/mcts3.go:238-248 | `make([]int, 25)` then appends the empty cells | any board: 25 zeros precede the moves, offering cell 0 even when taken | `make([]int, 0, 25)` | high, not executed | Mcts3.RemainingOffersTakenCell | Mcts3.RemainingMoves |
| opening3.go:366-372 | the bias table has 2 at (2, 4) | (2, 4) and its mirror (2, 0) get biases 2 and 0 | the symmetric table of the other files | medium, not executed | Opening.WrittenScoresAsymmetric | Opening.PositionalInvariant |
