# A verified model of the engine's search, table, codec and board cores

The engine plays shogi. This project models its self-contained algorithmic cores and proves
what each of them promises.

- **Exit solver** (`ExitGame`, `ExitSolver`, `ExitWorklist`, `GoteExit`). The retrograde
  solver for leaving the opening book: a counting-sorted reverse graph and an attractor
  worklist over arrays, against a game of strategies.
- **df-pn mate solver** (`MateGame`, `MateTruth`, `DfpnTree`, `DfpnPool`, `DfpnBound`, `DfpnDistance`,
  `Dfpn`). The mutable AND/OR tree in its bounded pool, with path-dependent repetition verdicts, stops and
  exhaustion. Soundness of every zero number, a bound that excludes saturation, termination,
  the principal variation, and what a forced win is worth in the game with all moves.
- **Branch-number solver** (`BnsArith`, `BnsTable`, `BnsGame`, `BnsSearch`). Summary and
  threshold arithmetic in both modes, the generation-stamped clustered table, and the
  recursion that holds slots across evictions.
- **Static exchange evaluation** (`See`, `SeeExchange`). The null-window swap loop against the
  recursive exchange value, and its attackers on a real board.
- **Position codec** (`SfenCodes`, `SfenLayout`, `PackedHand`, `PackedSfen`, `SfenNumbers`,
  `SfenExamples`). The Huffman writer and reader over 32 bytes, and two positions byte for byte.
- **Accumulator cache** (`Accumulator`, `AccumulatorRows`, `AccumulatorCache`). King-relative
  features, their differences, 16-bit kernels, and the per-king-square cache.
- **Board** (`Shogi`, `BoardState`, `Hashing`, `Material`, `Board`, `Sennichite`). Making and
  unmaking moves over array, bitboards, king squares, incremental hash, check counters and
  history, conservation of material, and the repetition rule.
- **Sliders** (`Bitboards`, `Qugiy`, `Lances`). Bit arithmetic against ray walking.
- **Legal moves** (`Geometry`, `LineTables`, `Attacks`, `Legality`, `Movement`, `MoveGen`,
  `Evasions`, `LegalMoves`). How pieces move and what legal moves keep, reverse attack lookup,
  blockers and pin lines against making the move and looking, evasions of single and double
  checks, and the pawn-drop-mate rule, up to the list of all legal moves.
- **Tree search** (`MctsGame`, `MctsFlags`, `MctsCredits`, `MctsRuns`, `MctsGuard`, `MctsCounts`,
  `MctsReuse`). Concurrent workers as a state machine over their atomic steps, the mate probe they
  consult, the root guard that runs once they have joined, and what the next search may keep.
- **Tree reuse** (`NodeStore`, `NodeTrees`). The nodes in memory with their single owners, the
  head walking along the game, deferred deletion and the byte counter.

Conventions. A position is named by its exact key, so distinct positions never collide; where
the source relies on that, the hypothesis is spelled out (`BnsGame.ExactKeys`,
`Sennichite.NoCollision`). Rules of play enter the solvers as functions. The stop flag and the
deadline are one monotone signal that may rise at any poll. The mate-in-one routines are oracles
assumed to report only true mates; longer mates are derived. Accumulated float values are reals.
The engine's machine widths are written out where they matter: 16-bit lanes, 32-bit
subtraction, 64-bit mixing and words, saturating numbers, the 16-bit generation and mate
distance.

## Model

| member | source | states |
|---|---|---|
| `ExitGame.StrategyNeverBeatsForces` | book/gote_exit_solver.h:81-161 | Whatever Gote plays and however it uses the history, an exit it is sure of within `k` plies is one the position forces within `k` plies: a deferred choice buys nothing. |
| `ExitGame.GreedyStrategyExits` | book/gote_exit_solver.h:81-161 | With exact distances, always stepping to a child of smallest distance leaves the book within that distance against every Sente reply. |
| `ExitGame.InfiniteNodesAreATrap` | book/gote_exit_solver.h:104-157 | A node's distance is infinite exactly when Sente has a strategy that keeps the play in the book for any number of plies, whatever Gote answers. |
| `ExitSolver.CountEdges` | book/gote_exit_solver.h:48-79 | Counts reverse degrees, Sente out-degrees and internal edges of the whole graph, or stops with an error that the graph really exhibits, and does so exactly for graphs that cannot be counted. |
| `ExitSolver.PrefixSums` | book/gote_exit_solver.h:81-89 | The offsets are the running in-degrees, and the size check after them can never fail. |
| `ExitSolver.FillParents` | book/gote_exit_solver.h:91-102 | The counting sort yields the reverse graph: every internal edge has exactly one slot, in its child's row, holding its parent. |
| `ExitWorklist.AssignKeepsInvariant` | book/gote_exit_solver.h:133-154 | Giving a node one more than the current level keeps the queue ordered by distance and every distance sound and tight. |
| `ExitWorklist.PendingIsPositive` | book/gote_exit_solver.h:144-149 | When an unprocessed edge of an undecided Sente node is reached its counter is positive: the underflow exception is unreachable. |
| `ExitWorklist.DrainedIsComplete` | book/gote_exit_solver.h:127-157 | With the queue drained, every node from which an exit can be forced within `k` plies has a distance of at most `k`. |
| `ExitWorklist.DrainedIsExact` | book/gote_exit_solver.h:127-157 | With the queue drained, every distance is the optimal number of plies to a forced exit, infinite exactly when there is none. |
| `GoteExit.DrainQueue` | book/gote_exit_solver.h:127-157 | The worklist loop, run in place on the arrays, ends with the invariant and nothing left undone; no exception inside it is reachable. |
| `GoteExit.Solve` | book/gote_exit_solver.h:41-162 | Succeeds exactly on the graphs that fit, otherwise names an error the graph exhibits; on success every distance is exact and the statistics count what they say. |
| `GoteExit.PlausibleIsStored` | tools/gote_book_generator.cc:272-280 | The filter on stored moves passes exactly the encodings of drops of pieces that can be held and of moves between two different squares. |
| `GoteExit.SelectGoteMove` | tools/gote_book_generator.cc:541-592 | Picks, among the plausible moves, the exit of smallest distance, then best evaluation, then smallest move value; without an exit the best move by evaluation; nothing at a Sente node. |
| `GoteExit.SelectedMoveIsGreedy` | tools/gote_book_generator.cc:554-591 | At a finite node the selected move leads out of the book or to a node one ply closer to the exit. |
| `GoteExit.SelectedStrategyIsOptimal` | tools/gote_book_generator.cc:541-592 | Always playing the selected move exits within the node's distance against every reply, and no strategy can promise fewer plies. |
| `MateGame.AttackerForces` | mate/dfpn.cc:129-221 | In the adjudicated game an attacker's position is won iff some considered move leads to a won one. |
| `MateGame.DefenderForces` | mate/dfpn.cc:129-221 | A defender's position is lost iff every considered move leads to a lost one. |
| `MateGame.CheckmateIsNew` | mate/dfpn.cc:163-204 | A position without legal moves cannot have occurred before on a legal run, so neither repetition rule nor path guard can hide a checkmate. |
| `MateGame.CapIsHarmless` | mate/dfpn.cc:285-287 | If no list of checks or evasions exceeds either cap, the capped games have the same winners. |
| `MateGame.CapHidesAnEscape` | mate/dfpn.cc:285-287 | With 255 evasions the cap of 254 turns a defence into a reported win. |
| `MateTruth.TellsWhoWins` | mate/dfpn.cc:170-188 | The verdicts counted as proof are exactly those that are a win to an attacker or a loss to a defender about to move; a draw never is. |
| `MateTruth.ForcedWinIsMinimax` | mate/dfpn.cc:167-204 | The attacker has a forced win in the solver's game exactly when three-valued minimax over the same moves, with the board's repetition verdicts, draws for returns to the path and draws for unfinished lines, is a win with some number of plies to go. |
| `MateTruth.ForcedWinIsReal` | mate/dfpn.cc:170-188 | A forced win of the solver is a win of the game with all legal moves of both sides under the board's repetition rule, within the 16-ply window from any root, and over the whole history when that starts at the root, for every move limit late enough. |
| `MateTruth.NamedCheckIsReal` | mate/dfpn.cc:89-112 | And after the check it reports the defender has lost that game. |
| `DfpnTree.SummaryIsTruthful` | mate/dfpn.cc:307-337 | A node summarized from children whose zero numbers are true has true zero numbers: proof zero is a forced win on its path, disproof zero is none. |
| `DfpnTree.SetNodeKeepsInvariant` | mate/dfpn.cc:218-220 | Renumbering one expanded node keeps every claim in the tree true. |
| `DfpnTree.SummarizeKeepsInvariant` | mate/dfpn.cc:307-353 | Summarizing a node from its children, numbers and distance, keeps the whole tree's invariant and releases the node from the active path. |
| `DfpnTree.CloseLeaf` | mate/dfpn.cc:183-203 | Closing a leaf with the verdict its adjudication calls for keeps the invariant. |
| `DfpnTree.LinkChildren` | mate/dfpn.cc:284-295 | Linking freshly allocated children to a leaf, at most 254 of them, keeps the invariant. |
| `DfpnTree.CloseByMateInOne` | mate/dfpn.cc:236-250 | The shortcut for a mate in one writes a proven node with one mated child and keeps the invariant. |
| `DfpnTree.NoMoves` | mate/dfpn.cc:265-274 | No checks means no forced win, no evasions means a forced one. |
| `DfpnPool.DfpnNodePool.Alloc` | mate/dfpn.h:89-102 | Whether memory is reused or new, every slot of the new capacity is as freshly constructed and nothing is in use. |
| `DfpnPool.DfpnNodePool.NewNodes` | mate/dfpn.h:104-112 | Hands out the next slots, or nothing and remembers the exhaustion, exactly when they do not fit. |
| `DfpnBound.NumbersAreBounded` | mate/dfpn.cc:307-337 | In every solver state between visits the numbers of an unresolved node lie between one and the number of unresolved frontier leaves below it: no number ever saturates. |
| `DfpnBound.BestChildIsOpen` | mate/dfpn.cc:361-409 | At an unresolved node a child attaining the selecting minimum is itself unresolved. |
| `Dfpn.MateDfpnSolver.SelectBestChild` | mate/dfpn.cc:361-410 | Returns the first child of smallest selecting number and thresholds capped just above the runner-up. |
| `Dfpn.BestIsSelected` | mate/dfpn.cc:361-410 | At an unresolved node below its thresholds the selected child is unresolved and is entered with thresholds strictly above its own numbers. |
| `Dfpn.AdjudicateChild` | mate/dfpn.cc:167-204 | Recording the repetition or path-cycle verdict on the child keeps the invariant, with the meaning `MateTruth.TellsWhoWins` gives those verdicts. |
| `Dfpn.MateDfpnSolver.ExpandNode` | mate/dfpn.cc:229-299 | Expansion keeps every claim true; a list cut short by a stop or a failed allocation leaves the node unexpanded and without a verdict. |
| `Dfpn.MateDfpnSolver.Search` | mate/dfpn.cc:129-221 | Keeps every claim true even when stopped; when not stopped it restores the whole invariant and makes progress, and it restores board and path. |
| `Dfpn.MateDfpnSolver.SearchLoop` | mate/dfpn.cc:145-220 | The threshold iteration terminates: each pass spends a node or closes a frontier leaf. |
| `Dfpn.AdjudicatedWinEnds` | mate/dfpn.cc:167-194 | As every move of the attacker checks, a repetition that wins with the attacker to move reaches back beyond the root: deeper down won lines end with the defender to move. |
| `DfpnTree.SummaryIsTimed` | mate/dfpn.cc:339-351 | The distance a summary writes fits 16 bits, starting again at zero where it overflows, and counts the plies to such an end: so a proven child of the attacker never has the distance that stands for none. |
| `DfpnDistance.DistanceIsExact` | mate/dfpn.cc:339-351 | With fewer slots in use than a distance can count, the distance of a proof is the least number of plies its proven tree mates within, whatever the defender plays. |
| `Dfpn.MateDfpnSolver.ExtractPV` | mate/dfpn.cc:457-488 | Every move of the line read off the proven tree is legal where it stands and every attacking move gives check; the line is never empty, wins at every step and ends in checkmate or a winning repetition. With fewer than 65535 slots in use it is as short as the attacker and as long as the defender can make it within the proven tree. |
| `Dfpn.MateDfpnSolver.SearchPosition` | mate/dfpn.cc:47-115 | A reported mate wins by force, with a line of legal moves, checking at every attacking one and won to its end; a reported no-mate is none; the search gives up only when stopped or out of nodes or memory, so the way out for a proof without a line is never taken. `MateTruth` says what such a win is worth in the game with all moves. Up to a limit of 8191 nodes the line is the principal one. |
| `BnsArith.Summarize` | mate/bns.h:101-172 | One pass finds the decisive child, or recognizes exhaustion, or selects the first best active child, the second-smallest number with multiplicity and the count of active children, in both arithmetics. |
| `BnsArith.BelowLimitsSelects` | mate/bns.cc:549-559 | A node strictly below its limits has a selected child, so the child index is never -1 when it is used. |
| `BnsArith.ThresholdsExceedTheChild` | mate/bns.h:174-199 | The thresholds of the selected child lie strictly above its own numbers and the unsigned subtraction never wraps. |
| `BnsArith.ReturningChildDecides` | mate/bns.h:174-199 | A child that returns at or above either threshold, siblings unchanged, has settled the node, brought it to one of its own thresholds, or made another child the selected one. |
| `BnsArith.StillSelected` | mate/bns.h:174-199 | While the child stays selected it is below its thresholds whenever the node is below its own, and the converse holds whenever the opposite threshold is finite. |
| `BnsArith.ExhaustedVerdictIsBacked` | mate/bns.h:130-157 | An exhausted verdict is backed by all children exactly when no child is saturated and open; proof-number mode needs no condition. |
| `BnsArith.SaturationForgesAVerdict` | mate/bns.h:130-157 | In branch-number mode one saturated open child makes the node a reported no-mate. |
| `BnsArith.BranchNumbersGrowSlowly` | mate/bns.h:159-163 | Unresolved branch numbers grow by at most the number of siblings per level and never reach zero. |
| `BnsTable.StaleEndsTheScan` | mate/bns.h:291-296 | Behind a stale slot of a cluster no live match can stand. |
| `BnsTable.MixTellsApart` | mate/bns.h:402-404 | The mixed key tells a position apart from itself at every other ply, across the 64-bit wrap, and from other positions at the same ply. |
| `BnsTable.SlotOfKey` | mate/bns.h:405 | A key's cluster is the one that holds the slot its lowest bits name. |
| `BnsTable.InsertKeepsPacked` | mate/bns.h:314-340 | Writing a new key into the slot the scan names keeps live slots first in every cluster with distinct tags. |
| `BnsTable.InsertedIsFound` | mate/bns.h:351-386 | A key just inserted is found again, and other keys' lookups change only if their slot was given away. |
| `BnsTable.BnsTT.NewSearch` | mate/bns.h:272-279 | Afterwards nothing stored before is live, across the wrap of the 16-bit generation, and contents are cleared only at the wrap. |
| `BnsTable.BnsTT.Probe` | mate/bns.h:282-298 | The lookup that stops at the first stale slot returns what a scan of the whole cluster would. |
| `BnsTable.BnsTT.ProbeOrStore` | mate/bns.h:302-342 | Returns the key's slot, inserting it when absent into the first stale slot or the policy's victim; no other slot changes. |
| `BnsTable.BnsTT.Store` | mate/bns.h:351-386 | A cached slot is reused only while it holds its own key; otherwise the live match or a slot freshly given to the key. |
| `BnsTable.BnsTT.Resize` | mate/bns.h:257-270 | The largest power of two of slots that fits, at least 4096; a table of that size is kept as it is. |
| `BnsGame.WriteKeepsTruth` | mate/bns.cc:185-201 | With exact keys a true entry may be written to its slot without touching the truth of any other entry. |
| `BnsGame.SummaryIsTrue` | mate/bns.cc:486-494 | From true views of all children comes a true summary, in branch-number mode because numbers within the depth limit cannot saturate. |
| `BnsSearch.MateBnsSolver.StoreNumbers` | mate/bns.cc:531-547 | Unresolved numbers are written through the node's own slot unless the search below has given it away. |
| `BnsSearch.MateBnsSolver.SearchImpl` | mate/bns.cc:285-663 | For any thresholds, table size, eviction policy and stop: every live entry with a zero number stays the true verdict of its own key; an uninterrupted return leaves the node's entry at one of its thresholds. |
| `BnsSearch.MateBnsSolver.Iterate` | mate/bns.cc:450-662 | The threshold iteration terminates and keeps the table true. |
| `BnsSearch.MateBnsSolver.Descend` | mate/bns.cc:578-663 | Where no position can come back and the depth limit is out of reach, no child is settled for its route only. |
| `BnsSearch.MateBnsSolver.Extract3PlyLine` | mate/bns.cc:672-725 | A line found by the bounded root probe is a legal line of checks and evasions ending in checkmate, and its first move mates by force. |
| `BnsSearch.MateBnsSolver.ExtractOr` | mate/bns.cc:735-815 | Extraction at an attacker's node, which proves again what has been evicted, hands back nothing or a line of legal checks and evasions that ends in checkmate, with its length, and keeps table and path. |
| `BnsSearch.MateBnsSolver.ExtractAnd` | mate/bns.cc:816-847 | The same at a defender's node: the line, if any, starts with a legal evasion, or is empty at checkmate. |
| `BnsSearch.MateBnsSolver.Search` | mate/bns.cc:36-167 | The root's numbers tell the truth, and a line handed back mates by legal checks and evasions; with branch numbers on games without repetitions the search decides the position unless it is stopped or runs out of nodes. |
| `BnsSearch.SolversPlayTheSameGame` | mate/bns.cc:596-645 | Where no position can come back, the adjudicated game of the proof-number solver and the game of this one have the same winners within the same number of plies. |
| `See.ExchangeValue` | nnue/see.cc:59-84 | The recursive stop-or-capture value of an exchange never exceeds what is at risk. |
| `See.ChosenIsCheapest` | nnue/see.cc:17-27 | The kind that captures is among the attackers and none of them is worth less, except exactly when it is a rook beside a horse. |
| `See.WindowTurns` | nnue/see.cc:79-81 | One capture turns the null-window question about one side into the opposite question about the other. |
| `See.Exchange` | nnue/see.cc:55-84 | The swap loop answers whether the opponent's exchange value stays within the given margin, and terminates. |
| `See.SeeGe` | nnue/see.cc:31-84 | For every move, threshold and attacker function: true exactly when the exchange score is at least the threshold. |
| `SeeExchange.AttackersAreReal` | nnue/see.cc:59-62 | On a real board the attackers at every stage of the exchange are the pieces still standing that attack the square past those already gone. |
| `SeeExchange.SameOccupied` | nnue/see.cc:33 | The exchange starts from the occupied squares of the board. |
| `SeeExchange.CapturerIsCheapest` | nnue/see.cc:64-81 | There the capturer is one of these pieces, and of least value but for the rook beside a horse. |
| `SfenCodes.BoardPieceReadsBack` | shogi/packed_sfen.cc:109-173 | Every board piece is read back from its code with exactly its own bits consumed. |
| `SfenCodes.HandPieceReadsBack` | shogi/packed_sfen.cc:125-131 | Every hand piece is read back as such. |
| `SfenCodes.BoxPieceReadsBack` | shogi/packed_sfen.cc:133-140 | Every piece of the box is recognized as one, the gold by passing for a promoted white silver. |
| `SfenCodes.SameCostEverywhere` | shogi/packed_sfen.cc:23-43 | A piece costs the same number of bits on the board, beyond the empty square's, in hand and in the box. |
| `PackedHand.FittingHandIsShown` | shogi/types.h:275-336 | Pieces added one by one to a packed hand are all shown by its counts as long as every count fits its field. |
| `SfenLayout.LayoutLength` | shogi/packed_sfen.cc:208-251 | Within the physical set the layout is 256 bits, plus one for each missing king. |
| `SfenLayout.RoundTrip` | shogi/packed_sfen.cc:208-304 | Decoding the layout of a position gives back board, hands, kings and side to move. |
| `SfenLayout.LayoutIsInjective` | shogi/packed_sfen.cc:208-251 | Two positions with the same layout are the same. |
| `PackedSfen.BitWriter.Write` | shogi/packed_sfen.cc:61-71 | Appends exactly the given bits, or nothing when they do not fit. |
| `PackedSfen.BitReader.Read` | shogi/packed_sfen.cc:84-93 | Reads the number the next bits stand for, or nothing at the end. |
| `PackedSfen.ToPackedSfen` | shogi/packed_sfen.cc:208-251 | Succeeds exactly for positions with both kings within the physical set, and then the bytes are the layout. |
| `PackedSfen.SetFromPackedSfen` | shogi/packed_sfen.cc:253-304 | For any 32 bytes: the position they decode to, with the hands their packed words show, or a refusal when they are malformed. |
| `SfenNumbers.StreamIsNumber` | shogi/packed_sfen.cc:61-93 | The bit stream of any bytes is the number they stand for, first byte and lowest bit first. |
| `SfenExamples.StartIsPacked` | test/test_packed_sfen.cc:56-60 | Of all 32-byte strings exactly the one the format gives for the initial position reads as its layout. |
| `SfenExamples.EndgameIsPacked` | test/test_packed_sfen.cc:68-71 | The same for a position with promoted pieces, one piece in each hand and 33 pieces in the box. |
| `Accumulator.GroupAFeatures` | nnue/features.cc:146-165 | For any hands a packed hand can count, the list from scratch sums to the position's rows under every weighing, which for White are Black's rows of the position turned round, all of them belonging to the king square. |
| `Accumulator.SidesAreAlike` | nnue/types.h:147-151 | Under every weighing White's rows of a position are Black's rows of the same position with the board turned by 180 degrees and colours, hands and kings exchanged. |
| `Accumulator.BlackSeesItPlain` | nnue/features.cc:131-136 | Black's rows are numbered by the squares of the unturned board, and by its own king's square, or square 0 without one. |
| `Accumulator.GroupADiff` | nnue/features.cc:167-207 | The state ends up describing the position, and the two lists hold exactly the rows to add and to subtract. |
| `Accumulator.DiffIsDifference` | nnue/features.cc:167-207 | Added minus subtracted rows is the difference of the two totals. |
| `Accumulator.DifferencesAreShort` | nnue/features.h:43-48 | Neither list is longer than the full list of the state it leads to or from, so the capacity of the full list suffices. |
| `AccumulatorRows.ListedExactly` | nnue/types.h:54-59 | Within a physical set the list holds exactly the row of every piece on the board and in hand, each once: slots never collide. |
| `AccumulatorCache.UpdateRows` | nnue/simd_scalar.h:16-31 | The reference kernel: every lane is the old one plus added minus subtracted rows, modulo 2^16. |
| `AccumulatorCache.UpdateRowsTiled` | nnue/simd_avx2.h:24-50 | The tiled kernel meets the reference contract. |
| `AccumulatorCache.ValueScratch.RefreshFrame` | nnue/value_net.cc:63-80 | Whatever the cached accumulator was last used for, it ends up as bias plus the rows of this position, modulo 2^16, and for White as Black's would for the position turned round; all other accumulators are untouched and stay in agreement. |
| `AccumulatorCache.ValueScratch.Reset` | nnue/value_net.cc:56-61 | Forgets every cached accumulator and leaves a valid cache. |
| `BoardState.HashAfterDrop` | shogi/board.cc:352-364 | The hash recomputed from scratch after a drop is the old one with the hand's and the piece's keys exchanged. |
| `BoardState.HashAfterMove` | shogi/board.cc:365-403 | The same for board moves, captures and promotions included. |
| `BoardState.TwoPliesNeverReturn` | shogi/board.cc:1889-1892 | A move and a reply never bring the same position back. |
| `Hashing.HashSeparates` | shogi/board.cc:1832-1846 | Two positions have the same hash under all keys exactly when placement, hands and side to move are the same: the hash leaves nothing out and adds nothing. |
| `Material.MoveConservesMaterial` | shogi/board.cc:352-403 | For every kind, promoted or not: a move gives the mover, on the board and in hand, exactly what it captures and takes that from the opponent, whose hand it leaves alone; the mover's hand grows by the capture turned back to its base kind and shrinks by the drop. |
| `Material.RecordKeepsMaterial` | shogi/board.cc:337-426 | Over every record of moves each kind keeps its number on the board and in both hands together. |
| `Board.ShogiBoard.PutPiece` | shogi/board.cc:301-309 | Keeps bitboards and array in agreement and notes a king's square. |
| `Board.ShogiBoard.RemovePiece` | shogi/board.cc:311-318 | Keeps bitboards and array in agreement. |
| `Board.ShogiBoard.DoMoveInternal` | shogi/board.cc:337-426 | The in-place updates produce the state the move calls for, with bitboards, king squares and hash equal to those computed from scratch, in both modes; every kind of piece keeps its number on board and in hands. |
| `Board.ShogiBoard.UndoMove` | shogi/board.cc:498-538 | Restores every field, for drops, captures and promotions, in both modes. |
| `Board.ShogiBoard.HashAfter` | shogi/board.cc:428-465 | Equals the hash after making the move. |
| `Board.ShogiBoard.BoardKeyIgnoresHands` | shogi/board.cc:467-469 | The board key depends on placement and side to move alone. |
| `Board.ShogiBoard.BoardKeyAfter` | shogi/board.cc:471-496 | Equals the board key of the position after the move. |
| `Board.ShogiBoard.CheckRepetition` | shogi/board.cc:1870-1910 | Finds the nearest earlier occurrence in the window: a loss iff all the mover's moves since gave check, otherwise a win iff all the opponent's did, otherwise a draw; none iff there is no occurrence. |
| `Sennichite.CountersAreTrails` | shogi/board.cc:407-423 | Over every record of moves and take-backs a side's counter is twice the number of its trailing checks. |
| `Sennichite.CounterReaches` | shogi/board.cc:1896-1903 | A counter reaches an even distance exactly when every move of that side within it gave check. |
| `Sennichite.ReturnsAreFar` | shogi/board.cc:1889-1892 | A position comes back only after an even number of plies and never after two. |
| `Sennichite.SolversApplyTheRule` | mate/dfpn.cc:163-192 | The adjudication the mate solvers use on their runs is the board's repetition rule. |
| `Bitboards.DecIsMinusOne` | shogi/bitboard.h:353-365 | The bitwise decrement is one less, and all ones after zero. |
| `Bitboards.DecFlips` | shogi/bitboard.h:353-365 | A decrement flips exactly the lowest set bit and the bits below it. |
| `Bitboards.RevReverses` | shogi/bitboard.h:326-334 | Byte reversal reverses the order of bits at least eight apart. |
| `Qugiy.MakeRayBB` | shogi/bitboard.cc:119-128 | The loop sets exactly the squares of the ray. |
| `Qugiy.InitQugiyMasks` | shogi/bitboard.cc:408-469 | For every square the packed masks are those of its six sideways rays. |
| `Qugiy.LaneWalks` | shogi/bitboard.h:652-669 | On a lane whose bits ascend along a ray, decrement and exclusive-or walk it up to and including the first blocker. |
| `Qugiy.RookRankWalks` | shogi/bitboard.h:652-669 | For every square and occupancy the rank effect is the two walks, with no stray bits. |
| `Qugiy.BishopWalks` | shogi/bitboard.h:672-691 | For every square and occupancy the bishop effect is the four diagonal walks. |
| `Lances.MakeLanceMasks` | shogi/bitboard.cc:102-113 | The masks are the squares of the file before and behind. |
| `Lances.LanceWalks` | shogi/bitboard.h:694-725 | For either colour, every square and occupancy, the lance effect is the walk along its file. |
| `Lances.RookFileWalks` | shogi/bitboard.h:728-751 | The file effect is both walks along the file. |
| `Lances.RookWalks` | shogi/bitboard.h:754-756 | The rook effect is all four walks. |
| `MctsGame.MateWins` | mate/shallow_mate.h:136-402 | The bounded mate probe, with its look back of 16 plies and its three-ply shortcut, reports a win of the search's own game whenever the mate comes before the move limit and no older repetition lies on the way. |
| `MctsGame.MateDeepens` | mate/shallow_mate.h:136-402 | A deeper probe finds every mate a shallower one finds. |
| `MctsGame.CounterCheckIsMissed` | mate/shallow_mate.h:186-195 | A game with a mate in three whose evasion gives check: the three-ply routine misses it, the five-ply one finds it. |
| `MctsGame.RootIsOpen` | mcts/uct_search.cc:462-489 | Whatever has been repeated before it, a search within the move limit goes on from its root unless a win can be declared there. |
| `MctsGame.SearchValueIsMinimax` | mcts/uct_search.cc:484-501 | The value the search works with, where a reported leaf mate ends the line, is minimax at every node exactly when every leaf mate it is told of is a win. |
| `MctsFlags.StepKeepsInvariant` | mcts/search_primitives.cc:82-135 | Every atomic step of every worker, one flag load at a time, keeps all flags and all conclusions drawn from flags true of that value, and flags only nodes the search can get to. |
| `MctsFlags.SearchNeedsAChoice` | mcts/uct_search.cc:346-362 | From idle workers a search can take a step exactly when there are at least two root moves. |
| `MctsFlags.RejectedOnce` | mcts/uct_search.cc:186-218 | In every run the root guard rejects each root move at most once, and what it has rejected stays flagged. |
| `MctsFlags.FlagsNeverConflict` | mcts/search_primitives.cc:28-60 | Without any hypothesis on mates, from a new tree or a reused one: under every interleaving of the workers an edge's flag is the value the search works with, so no edge holds two flags until the root guard starts. |
| `MctsFlags.ProvenPlayoutsAreExact` | mcts/uct_search.cc:454-516 | A playout that ends on a proven node is credited with exactly that node's value: 1 to the mover into a lost node, 0 into a won one, its draw value into a drawn one. |
| `MctsCredits.CreditsAreMinimax` | mcts/search_primitives.cc:28-60 | Credits are real minimax: at every node with moves the search goes on from, one minus its credit is the largest credit among its replies; where draw values lie between 0 and 1 this fails exactly at drawn nodes where those of the two sides do not add up to one. |
| `MctsCredits.CreditsAreBounded` | mcts/search_primitives.cc:28-60 | No node credits the player who moved into it less than one with a declared win, or more than one who is mated. |
| `MctsCredits.BestReplyBacksUp` | mcts/uct_search.cc:536-547 | Backed up over one edge, the best reply's credit becomes the node's own, and no reply backs up to less. |
| `MctsRuns.Settle` | mcts/uct_search.cc:454-547 | One worker, choosing among the children selection leaves open, can bring any node the search gets to to carry the flag of its value, with nothing changed but there and below. |
| `MctsGuard.RejectConflicts` | mcts/uct_search.cc:200-217 | A rejected root move ends up with two flags exactly when it was flagged drawn, the flag the guard does not ask about. |
| `MctsGuard.FlagsStaySingle` | mcts/uct_search.cc:186-218 | With no hypothesis on mates: all runs leave at most one flag on every edge if, and from a new tree only if, no root move the search values as a draw is reported as a mate, or there are fewer than two root moves, or no playout leaves the root. |
| `MctsGuard.FlagsStayTrue` | mcts/uct_search.cc:186-218 | Every flag of every run is the minimax value if, and from a new tree with a choice of root moves only if, every mate reported at a leaf the search gets to or behind a root move is a win. |
| `MctsGuard.FittingMatesLeaveVerdicts` | mcts/uct_search.cc:186-218 | Where reported mates fit, the two conditions are that no root move adjudicated a draw, and none adjudicated otherwise than won for the side to move, is reported as a mate. |
| `MctsGuard.MissedMateConflicts` | mcts/uct_search.cc:200-217 | A game whose reported mates all fit and a run that leaves a drawn and a won flag on one edge: a root move into a repetition behind which a one-move mate was missed. |
| `MctsGuard.LongMateMisleads` | mate/shallow_mate.h:22-23 | A game and a run in which a leaf mate longer than the plies left before the move limit flags a drawn node as won. |
| `MctsGuard.FarReturnMisleads` | mate/shallow_mate.h:46 | A game and a run in which a repetition older than the 16 plies the probe looks back makes it flag a drawn node as won. |
| `MctsReuse.ValueBelow` | mcts/uct_search.cc:454-501 | Below the position a search starts from every node has the value it had in the search before, though the new root is no longer asked about repetition. |
| `MctsReuse.ReuseBegins` | mcts/uct_search.cc:337-341 | Whatever a search and its root guard have flagged below a later position is true of the search from there, which may start with it. |
| `MctsReuse.ReuseConserves` | mcts/uct_search.cc:337-341 | The subtree of a tree in balance is in balance for the next search. |
| `MctsCounts.StepConserves` | mcts/search_primitives.cc:13-24 | Selecting, backing up and unwinding, in any interleaving, keep visits and values in balance with the playouts in flight. |
| `MctsCounts.JoinedTreeAddsUp` | mcts/uct_search.cc:569-605 | From a new tree or one in balance: once workers have joined, each node sums its edges, an edge's visits are the node's plus the playouts that ended there, and its value turns the node's over and adds theirs, discarded playouts included. |
| `Geometry.WalkIsClear` | shogi/bitboard.h:652-756 | Walking a ray reaches exactly the squares in its direction with no piece strictly in between, so sliding is symmetric. |
| `LineTables.InitBetweenAndLine` | shogi/bitboard.cc:130-175 | Filling the tables ray by ray gives, for every pair of squares, exactly the squares strictly between them and the full line through them, empty when they are not aligned. |
| `Attacks.AttacksAre` | shogi/board.cc:147-178 | Every piece, stepping or sliding, attacks exactly the squares it reaches on an empty board with nothing in the way. |
| `Attacks.AttackersAre` | shogi/board.cc:219-246 | Looking up from the square with the other colour's moves finds exactly the pieces that attack it, for every occupancy. |
| `Attacks.IsSquareAttacked` | shogi/board.cc:252-294 | The early exits and the empty-board tests before sliders decide exactly whether some piece of the colour attacks the square. |
| `Movement.StepShapes` | shogi/bitboard.cc:68-101 | The step tables, said without them: the king steps to every neighbour, the gold to those straight or ahead, the silver to those diagonal or ahead, the pawn one step of the lance, and the knight two ranks ahead, off every line. |
| `Movement.PromotionShapes` | shogi/types.h:61-75 | Exactly the kinds that turn into another kind can promote; promoted, bishop and rook gain the king's steps and the others move like a gold; turning back undoes it. |
| `Movement.ColoursMirror` | shogi/bitboard.cc:68-101 | Seen from the other side of the board the other colour moves the same. |
| `Movement.PromotesNearTheEnd` | shogi/board.cc:86-89 | A piece may promote exactly if it can and the move starts or ends with fewer than three squares ahead. |
| `Movement.MustPromoteMeansStuck` | shogi/board.cc:93-99 | For every kind, colour, square and occupancy: a piece must promote exactly where it would attack no square at all. |
| `Movement.NoneGetsStuck` | shogi/board.cc:631-648 | If every piece on the board can move when alone, so can every piece after any move or drop, the one that landed included. |
| `Movement.NoPawnDoubles` | shogi/board.cc:650-657 | No move or drop puts two unpromoted pawns of a side on a file that had at most one. |
| `Movement.PawnDropRule` | shogi/board.cc:1563-1574 | With the opponent not in check before, a pawn drop is legal exactly if it leaves the own king safe and does not checkmate: that the pawn attacks the king is the same as giving check. |
| `Legality.LineOpens` | shogi/board.cc:598-600 | After a piece moves, the line from an enemy slider to the king is clear exactly when it was and is not blocked now, or when the mover alone blocked it and has left the line. |
| `Legality.BoardMoveSafety` | shogi/board.cc:1587-1594 | Legality by pins: a move of a piece other than the king leaves the king unattacked exactly when it captures or blocks every checker and, if it alone shields the king, stays on its line. |
| `Legality.KingMoveSafety` | shogi/board.cc:590-597 | A king move is safe exactly when no enemy attacks the target with the king taken off its old square. |
| `Legality.DropSafety` | shogi/board.cc:823-826 | A drop leaves the king safe exactly when it blocks every check, so out of check every drop does. |
| `Legality.TwoChecksCannotBeMet` | shogi/board.cc:785 | No capture or interposition answers two checks at once. |
| `MoveGen.ComputeBlockersForKing` | shogi/board.cc:664-714 | The three scans over rook-like, bishop-like and lance pinners find exactly the pieces that alone stand between the king and an enemy that would attack it. |
| `MoveGen.KeptIsLegal` | shogi/board.cc:588-601 | Out of check, the moves kept by the king test and the pin line are exactly the pseudo-legal moves after which the own king is not attacked. |
| `MoveGen.GenerateBoardMovesNonCheck` | shogi/board.cc:574-613 | Out of check, lists exactly the legal board moves, each once, with promotions where allowed and forced. |
| `MoveGen.GenerateDropMoves` | shogi/board.cc:615-662 | Lists exactly the drops allowed by hand, empty squares, last ranks and the two-pawn rule, each once. |
| `Evasions.KingEvasions` | shogi/board.cc:772-784 | Lists exactly the king's legal moves, or with early stop one of them if there is any. |
| `Evasions.OtherEvasionIsLegal` | shogi/board.cc:789-820 | Under a single check another piece's move is legal exactly when it attacks the checker or a square in between and is not pinned off its line. |
| `Evasions.BoardEvasions` | shogi/board.cc:797-820 | Adds exactly the legal captures and interpositions of the other pieces, each once, or one of them when one is enough. |
| `LegalMoves.DropEvasions` | shogi/board.cc:823-863 | Adds exactly the legal interposing drops, leaving out pawn drops that mate, and leaves the board as it was. |
| `LegalMoves.DoubleCheckMovesKing` | shogi/board.cc:785 | In double check the king's moves are all the legal moves. |
| `LegalMoves.GenerateEvasionMovesImpl` | shogi/board.cc:761-865 | In check, yields exactly the legal moves, or one of them when one is enough, and restores the board. |
| `LegalMoves.MatesByDrop` | shogi/board.cc:1567-1573 | Making the drop, searching an answer and taking it back tells exactly whether the drop leaves no legal move, and restores the board; the recursion ends because each drop fills a square. |
| `LegalMoves.IsLegal` | shogi/board.cc:1558-1595 | The single-move test agrees with the rules of legality. |
| `LegalMoves.HasLegalEvasion` | shogi/board.cc:755-759 | Tells exactly whether a side in check has a legal move. |
| `LegalMoves.GenerateLegalMoves` | shogi/board.cc:716-743 | Yields exactly the legal moves of the position, in and out of check and with the pawn-drop-mate rule, each once, and leaves the board as it was. |
| `NodeStore.KeepOneKeeps` | mcts/uct_node.cc:161-176 | Moving one edge into a list of its own keeps every node with exactly one owner. |
| `NodeTrees.NodeTree.ReleaseChildrenExceptOne` | mcts/uct_node.cc:151-184 | Leaves the node with the one edge for the move, with its statistics and its own child or a new one, queues all other subtrees, touches no other node and keeps the byte counter exact. |
| `NodeTrees.OpenMovesOn` | mcts/uct_node.cc:202-207 | When the head moves down, the subtree below it stays whole: every node has its full move list or is not expanded. |
| `NodeTrees.NodeTree.DeallocateTree` | mcts/uct_node.cc:228-235 | Queues the old tree and leaves a fresh node as head of an empty game. |
| `NodeTrees.NodeTree.ResetToPosition` | mcts/uct_node.cc:190-226 | Afterwards the head is at the game's path, each ancestor has the one child on it and the subtree is whole; the result tells whether the game extends the old one, and then the head is where the old tree leads with nothing in it changed, otherwise it is fresh. |
| `NodeTrees.NodeTree.CreateChildNode` | mcts/uct_node.cc:81-92 | A search making a child keeps the tree valid; an existing child is returned unchanged. |
| `NodeTrees.NodeTree.ExpandNode` | mcts/uct_node.cc:129-137 | Listing a node's moves keeps the tree valid and adds their bytes. |
| `NodeTrees.NodeTree.CollectOne` | mcts/uct_node.cc:38-54 | Destroying a queued subtree frees exactly the nodes below it, never the head or what it can reach, and subtracts exactly their bytes. |
| `NodeTrees.ExactlyBelow` | mcts/uct_node.cc:118-123 | When one top node goes and every other owner stays, exactly the nodes hanging below it are gone. |
| `NodeTrees.NodeTree.NothingLeaks` | mcts/uct_node.cc:109-123 | Every allocated node hangs below the tree's first node or one queued for deletion, and the counter is the sum of their sizes. |

## Left out

- With 65535 or more slots in use a 16-bit mate distance may overflow and start again at zero; the line is then still complete, but not claimed to be the principal one.
- The alternative checking-move generator of the df-pn solver (`use_fast_check_movegen_`) is taken to list the same moves as the filter.
- BnsSearch.MateBnsSolver.SearchImpl: a run is followed up to its first route-dependent verdict (depth limit, repetition, long cycle); the override list that keeps such verdicts out of the table is not modelled, so whole-graph no-mate soundness after one is not claimed.
- A proved root for which extraction finds no line, because of its step budget, evictions or the end of the followed run, is possible in the source too and not characterized.
- The branch-number solver's optional parts: hand dominance, paper mode, the new-node block, the move cache, the frontier probe and move ordering, all off or pure memoization by default.
- BnsArith.StillSelected: with an infinite opposite threshold the converse fails, because siblings' numbers alone may saturate the sum, and is not claimed there.
- See.SeeGe: squares that attack a square are an arbitrary function of the occupancy; pins are ignored, as in the source.
- The bits an overflowing field leaves in the gaps of a packed hand, which no count shows, are not part of a position.
- PackedSfen.ToPackedSfen: hash and history that decoding resets are part of the board model, not of this one.
- Bitboards are sets of squares popped in ascending order in the feature lists too; the lists have no capacity, but their differences are proved no longer than the full list.
- AccumulatorCache.UpdateRowsTiled: the eight registers of a tile are one list of 128 lanes; prefetching, other instruction sets, group B and the policy inputs are left out.
- Board.ShogiBoard.DoMoveInternal: hands are counts by type, not packed bit fields; whether a king is attacked is a function of the placement.
- Move and piece encodings as integers are replaced by data types.
- The Zobrist tables are arbitrary functions; collision probability is left out.
- MctsFlags.StepKeepsInvariant: a child's flags are read one load at a time; those on the entered edge in one step, which as flags are only added is where the first of the three loads stands. A node's adjudication and move list are functions of its path.
- MctsGuard.FlagsStaySingle: visit counts and scores are not modelled, so a worker may choose any child selection leaves open and the guard any root move that passes its flag tests.
- MctsReuse.ReuseBegins: the same position searched again with flags its root guard added, and settings changed between searches, are not covered.
- MctsCounts.StepConserves: the two counters updated together at node and edge change in one step; non-finite values only decide whether a playout is discarded.
- Floating-point work: selection scores, priors, noise, network output layers.
- The one-move mate routines and the promotion-aware check tables are oracles only.
- Commands, logging, time management, caches of evaluations, book files and training code.
- LegalMoves.GenerateLegalMoves: both kings are on the board; the lists come in the source's order but only their contents, each move once, are specified.
- MoveGen.ComputeBlockersForKing: bitboards are sets of squares popped in ascending order, and a lookup in the tables of squares between and of lines is the function the tables are proved to hold.
- The generator of checking moves and the pseudo-legal generator without a legality filter.
- NodeTrees.NodeTree.CollectOne: the deletion thread takes one queued node per step, between operations of the tree; the counter is that of one tree.
- NodeStore.AllocKeeps: memory cells are numbered in order of allocation and never used again.
