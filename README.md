# Quantum Game of Life — a Dafny model of the step and the game loop

`qgol.py` plays a variant of Conway's Game of Life on a quantum annealer. The
field is a grid of cells that are each 0 (dead) or 1 (alive). Every cell is
represented redundantly by a *block* of up to eight hardware variables of the
annealer. One generation works as follows:

- `makeStepOne` builds a QUBO (quadratic unconstrained binary optimisation
  problem): a dictionary from ordered pairs of variable indices to real
  weights, built over all pairs of the first `len(nodes)` variables.
- It fills the QUBO in four passes:
  - intra-block consistency, which couples the copies of a cell;
  - pinning, which holds alive cells in place with a given probability;
  - neighbour coupling between the blocks of an alive cell and its Moore
    neighbours, optionally with an overpopulation counter;
  - isolation, which biases unused variables towards 0.
- It drops the weights of magnitude at most `1e-7`, submits the QUBO, and
  reads the new field out of the first sample by a majority vote in every
  block. A tie is broken by a coin.
- `makeStepZero` is the same step with the roles of dead and alive exchanged:
  it inverts the field, runs `makeStepOne`, and inverts the outcome.
- `playQGOL` builds the cell-to-block map. It starts from a dead field with
  a 3 x 3 alive square at rows and columns 7 to 9. It then alternates the two
  steps, writing out every field, and stops early when a field is entirely
  dead or entirely alive.

The model is split into one module per part of the program:

| module | file | part of the program |
|---|---|---|
| `Traversal` | `traversal.dfy` | the iteration orders of the nested `for` loops (row-major cells, block pairs, Moore offsets) |
| `Field` | `field.dfy` | fields, `invertField`, the two completeness checks, `intializeField` |
| `Blocks` | `blocks.dfy` | `field_to_block` and its construction loops |
| `Qubo` | `qubo.dfy` | the QUBO dictionary, its initialisation, the `+=` updates, pruning |
| `IntraBlock` | `intrablock.dfy` | pass 1 of `makeStepOne` |
| `Pinning` | `pinning.dfy` | pass 2 |
| `Coupling` | `coupling.dfy` | pass 3 |
| `Isolation` | `isolation.dfy` | pass 4 |
| `Encoder` | `encoder.dfy` | the four passes together and the submitted QUBO |
| `Decoder` | `decoder.dfy` | the majority-vote read-out |
| `Step` | `step.dfy` | `makeStepOne` and `makeStepZero` |
| `Game` | `game.dfy` | `playQGOL` |

Each loop of the source is a `method` with a `while` loop. Each method is
proved equal to a specification function that folds over the loop's
iteration order. The four QUBO passes are specified as the sequence of
`qubo[key] += delta` additions they perform, in source order. The QUBO after
a pass is that sequence applied to the QUBO before it. Lemmas then state what
every weight of the submitted QUBO is, what the read-out decides, and how the
snapshots of the game follow from each other.

## Model

| member | source | states |
|---|---|---|
| `Field.InvertField` | qgol.py:27-38 | the result is a field exactly when every cell is 0 or 1; it then has the same shape, holds only 0 and 1, and each cell is `1 - ` the old cell; otherwise it is the `ValueError` |
| `Field.Flip` | qgol.py:27-38 | inverting keeps the number of rows, every row length and rectangularity |
| `Field.InvertTwice` | qgol.py:27-38 | inverting a valid field twice gives it back, and inversion turns an all-dead field into an all-alive one and vice versa |
| `Field.NoCellEquals` | qgol.py:40-52 | the row-major scan that stops at the first match returns true exactly when no cell equals the value |
| `Field.CheckIfFieldCompleteZero` | qgol.py:40-45 | true exactly when no cell is 1; on a valid field, exactly when every cell is 0 |
| `Field.CheckIfFieldCompleteOne` | qgol.py:47-52 | true exactly when no cell is 0; on a valid field, exactly when every cell is 1 |
| `Field.CompleteExclusive` | qgol.py:40-52 | a non-empty valid field is never both all dead and all alive |
| `Field.InitializeField` | qgol.py:54-61 | with coverage 0: a rectangular field of `height` rows of `width` cells, all dead |
| `Blocks.BuildBlockMap` | qgol.py:191-195 | `field_to_block` has a key for exactly the cells `(i, j)` with `i < width` and `j < height` |
| `Blocks.PresentSpec` | qgol.py:195 | the filtered candidates are strictly ascending, at most `count` of them, and exactly the candidates that are nodes |
| `Blocks.BlockForSpec` | qgol.py:195 | a block has at most eight variables, strictly ascending and without repeats, and holds exactly the nodes among `8n .. 8n + 7` for cell number `n = i * height + j` |
| `Blocks.CellNumberInjective` | qgol.py:195 | distinct cells of the field have distinct cell numbers |
| `Blocks.BuildBlockMapWellFormed` | qgol.py:191-195 | the map covers the field, no block repeats a variable, and blocks of distinct cells share no variable |
| `Blocks.BuildBlockMapBelow` | qgol.py:189-195 | every block variable lies below `8 * width * height` |
| `Blocks.BuildBlockMapInNodes` | qgol.py:191-195 | every block variable is a hardware node, so nodes labelled `0 .. len(nodes) - 1` make every block variable a valid QUBO index |
| `Blocks.FieldToBlock` | qgol.py:191-195 | the two construction loops produce exactly the block map |
| `Blocks.FillRow` | qgol.py:194-195 | the inner loop adds exactly the cells of row `i`, each with its block, to a map holding the earlier rows |
| `Traversal.MooreOrder` | qgol.py:97-98 | the two offset loops visit the nine offsets in the listed order, centre included |
| `Qubo.InitQubo` | qgol.py:71 | the initial dictionary has exactly the pairs of variables below `n` as keys, all with weight 0 |
| `Qubo.ApplyAt` | qgol.py:79-128 | a sequence of `+=` additions keeps the dictionary's keys and adds to every key the sum of the additions to it |
| `Qubo.Prune` | qgol.py:130 | the pruned dictionary keeps exactly the entries of magnitude above `1e-7`, with their weights |
| `Qubo.PruneIdempotent` | qgol.py:130 | pruning twice is pruning once |
| `IntraBlock.ConsistencyPass` | qgol.py:73-81 | the pass loops perform the consistency additions of every cell in row-major order and keep the keys |
| `IntraBlock.ConsistencyRow` | qgol.py:75-81 | one row of the pass performs the additions of that row's cells |
| `IntraBlock.PenalizeBlock` | qgol.py:76-81 | the two loops over a block perform the additions for all its ordered pairs |
| `IntraBlock.RowStep` | qgol.py:76-81 | the pairs of the block's `t`-th variable continue the additions of the pairs of the earlier variables |
| `IntraBlock.PenalizeRow` | qgol.py:77-81 | the inner loop performs the additions for the pairs `(q_1, q_2)`, `q_2` in the block |
| `IntraBlock.PenalizePair` | qgol.py:78-81 | a pair coupled in either direction gets `+100` on both biases and `-200` on the pair; any other pair is untouched |
| `IntraBlock.BlockPairWeight` | qgol.py:76-81 | in a block without repeats, two distinct variables weigh `-200` on their pair when coupled, and 0 otherwise |
| `IntraBlock.BlockSelfWeight` | qgol.py:76-81 | in a block without repeats, a variable's bias grows by `+200` per coupled partner in its block |
| `IntraBlock.ConsistencyOutside` | qgol.py:74-81 | a key whose first variable is in no block gets nothing from the pass |
| `IntraBlock.ConsistencyAt` | qgol.py:74-81 | with disjoint blocks, a key inside the block of cell `c` is weighted by that block alone |
| `IntraBlock.ConsistencyKeys` | qgol.py:74-81 | every key the pass touches lies inside one block and is a bias or a coupled pair |
| `Pinning.PinningPass` | qgol.py:82-90 | the pass loops perform the pinning additions of every cell in row-major order and keep the keys |
| `Pinning.PinRow` | qgol.py:84-90 | one row of the pass performs the additions of that row's cells |
| `Pinning.VisitPin` | qgol.py:85-90 | one cell of the row adds `-100` to the bias of each of its block variables exactly when it is alive and its draw is below the fixing probability, and keeps the keys |
| `Pinning.PinBlockPass` | qgol.py:89-90 | every variable of the block gets `-100` on its bias, in order |
| `Pinning.PinningOutside` | qgol.py:83-90 | the pass touches no coupler, and no variable outside the blocks |
| `Pinning.PinningAt` | qgol.py:83-90 | a block variable's bias drops by exactly 100 when its cell is alive and its draw is below the fixing probability, and is unchanged otherwise, so dead cells are never pinned |
| `Pinning.CertainPinning` | qgol.py:83-90 | with the default probability 1 and draws in `[0, 1)`, exactly the alive cells are pinned |
| `Coupling.CouplingPass` | qgol.py:91-124 | the pass loops perform the coupling additions of every cell in row-major order, keep the keys, and return `used_qubits` as the union of the variables every cell marked |
| `Coupling.CouplingRow` | qgol.py:93-124 | one row of the pass performs that row's additions and adds that row's used variables |
| `Coupling.VisitCell` | qgol.py:95-124 | one cell of the row: an alive cell performs its coupling additions and marks its used variables, a dead cell changes nothing |
| `Coupling.CoupleCell` | qgol.py:96-124 | for one alive cell, the count of its alive neighbours seeds the counter, then the pairs of its block with each neighbour's block are coupled in order and their variables marked used |
| `Coupling.CoupleOffsets` | qgol.py:106-124 | one value of `k_1` of the second offset loop continues the additions, counter and used set over its three offsets |
| `Coupling.CoupleOffset` | qgol.py:107-124 | one offset: a different in-field cell has its block pairs coupled; the centre and cells outside the field contribute nothing |
| `Coupling.CoupleBlocks` | qgol.py:111-124 | the two loops over a pair of blocks perform the additions of its pairs in order, advance the counter and mark both blocks' variables |
| `Coupling.CoupleRow` | qgol.py:112-124 | the inner loop does the same for the pairs `(q_1, q_2)`, `q_2` in the neighbour's block |
| `Coupling.CouplePair` | qgol.py:113-124 | one pair marks both variables used; a coupler gets `qubo_value`, or `-qubo_value` once overpopulation is modelled and the counter exceeds the limit; the counter moves only on couplers written with overpopulation |
| `Coupling.CountAliveNeighbours` | qgol.py:96-104 | the first offset loop counts the alive cells among the in-field neighbours |
| `Coupling.CountOffsets` | qgol.py:97-104 | one value of `k_1` adds the alive neighbours at its three offsets |
| `Coupling.AliveNeighboursBound` | qgol.py:96-104 | a cell has at most eight alive neighbours: the centre is never counted |
| `Coupling.CoupleThreshold` | qgol.py:115-124 | the pairs of a cell write exactly its couplers in order; the `m`-th gets `-qubo_value` exactly when overpopulation is modelled and the counter, by then the neighbour count plus `m`, exceeds the limit; the final counter is the neighbour count plus the number of couplers written |
| `Coupling.CoupleSigns` | qgol.py:115-124 | without overpopulation every coupler gets `+qubo_value`; with it, a cell already past the limit gets `-qubo_value` everywhere, and a cell that never passes it gets `+qubo_value` everywhere |
| `Coupling.CouplingTouches` | qgol.py:105-124 | every addition of the pass writes a hardware coupler between the block of an alive cell and the block of one of its neighbours, with `+qubo_value` or `-qubo_value` |
| `Coupling.UsedVarsMembers` | qgol.py:111-114 | a variable is in `used_qubits` exactly when it belongs to the block of an alive cell or of one of its neighbours, both blocks being non-empty |
| `Isolation.IsolationPass` | qgol.py:125-128 | the loop performs the isolation additions and keeps the keys |
| `Isolation.IsolationAt` | qgol.py:125-128 | the pass adds exactly `+100` to the bias of each variable below `len(nodes)` that is not used, and nothing elsewhere |
| `Encoder.EncodeQubo` | qgol.py:70-130 | the QUBO built and pruned by the four passes is the submitted QUBO `Encoded` |
| `Encoder.RunPasses` | qgol.py:71-128 | the four passes run on the initial dictionary give the unpruned weights |
| `Encoder.FieldPasses` | qgol.py:73-90 | the first two passes together apply their additions in order and keep the keys |
| `Encoder.WeightAt` | qgol.py:71-128 | before pruning, the dictionary keeps the keys of the initial one, and each weight is the sum of what the four passes add to it |
| `Encoder.CouplingInsideBlock` | qgol.py:105-124 | with disjoint blocks, the coupling pass never writes a pair inside one block |
| `Encoder.OutsideBlocks` | qgol.py:74-124 | a variable in no block is never marked used and gets nothing from the first three passes |
| `Encoder.EncodedEmbeddable` | qgol.py:70-130 | the submitted QUBO only has keys below `len(nodes)`, and no entry on two distinct variables that no coupler joins |
| `Encoder.InBlockPair` | qgol.py:73-130 | two distinct variables of one block have an entry of `-200` in the submitted QUBO exactly when the hardware couples them, and no entry otherwise |
| `Encoder.BlockBias` | qgol.py:73-128 | a block variable's bias is `+200` per coupled partner in its block, `-100` if its cell is pinned, and `+100` if no coupling used it |
| `Encoder.FreeVariable` | qgol.py:125-130 | a variable below `len(nodes)` that belongs to no cell is submitted with bias exactly `+100` |
| `Encoder.DeadCellWritesNoCoupler` | qgol.py:73-130 | the submitted QUBO has no entry whose first variable is in a dead cell's block and whose second is outside it |
| `Encoder.CouplerTotal` | qgol.py:105-124 | the coupling pass adds exactly one weight to a hardware coupler from the block of an alive cell to the block of one of its neighbours: `+qubo_value` or `-qubo_value`, and `+qubo_value` without overpopulation modelling |
| `Encoder.CouplerWeight` | qgol.py:71-128 | before pruning, such a coupler weighs exactly that: the other three passes add nothing to it |
| `Encoder.CouplerSubmitted` | qgol.py:105-130 | such a coupler is in the submitted QUBO exactly when `abs(qubo_value)` exceeds `1e-7`, and then with weight `+qubo_value` or `-qubo_value` (`+qubo_value` without overpopulation modelling) |
| `Decoder.DecodeField` | qgol.py:129-149 | the read-out loops produce the decoded field |
| `Decoder.DecodeRow` | qgol.py:133-149 | one row of the read-out decides every cell by its votes and its coin |
| `Decoder.CountBlockVotes` | qgol.py:134-140 | the vote loop counts the block's zero and one votes |
| `Decoder.VotesCount` | qgol.py:134-140 | every variable of a block casts exactly one vote, and the zero votes are the variables that read 0 |
| `Decoder.MajorityWins` | qgol.py:141-149 | a strict majority of zeros gives 0, a strict majority of non-zeros gives 1, and only an exact tie consults the coin, 1 below 0.5 |
| `Decoder.UnanimousVotes` | qgol.py:136-140 | a block whose variables agree casts all its votes for that value |
| `Decoder.Unanimous` | qgol.py:136-149 | a non-empty block that reads all 0 gives 0, and one that reads no 0 gives 1, whatever the coin |
| `Decoder.DecodedShape` | qgol.py:129-149 | the new field has the old field's number of rows and columns and holds only 0 and 1 |
| `Decoder.EmptyBlock` | qgol.py:141-149 | a cell without variables is decided by its coin alone |
| `Step.MakeStepOne` | qgol.py:63-150 | the step submits exactly the encoded QUBO of the field and returns the field decoded from the annealer's sample |
| `Step.StepOneShape` | qgol.py:129-150 | the one-step keeps the field's shape and yields only 0 and 1, whatever the old field held |
| `Step.MakeStepZero` | qgol.py:152-161 | the zero-step fails on a field holding anything but 0 and 1, submitting nothing; otherwise it submits the encoded QUBO of the inverted field with its own weight, fixing probability, couplers, overpopulation switch and limit 3, and returns the inverse of the one-step of the inverted field |
| `Step.StepZeroCoupler` | qgol.py:152-161 | in the QUBO the zero-step submits, a coupler from the block of a dead cell to the block of a neighbour is present exactly when `abs(qubo_value)` exceeds `1e-7`, with weight `+qubo_value` or `-qubo_value` (`+qubo_value` without overpopulation modelling) |
| `Step.StepZeroSpec` | qgol.py:152-161 | on a valid field the zero-step succeeds, keeps the shape, yields a valid field, and inverting it gives the one-step of the inverted field |
| `Game.Start` | qgol.py:196-202 | the start field has `width` rows of `height` cells, all 0 or 1, and a cell is alive exactly in rows and columns 7 to 9 |
| `Game.StartField` | qgol.py:196-202 | `intializeField(height, width)` followed by the square loops gives the start field |
| `Game.StartNotHalted` | qgol.py:200-207 | the start field is neither all dead nor all alive |
| `Game.Next` | qgol.py:208-212 | a step keeps a valid field of the game's shape valid and of that shape |
| `Game.Advance` | qgol.py:208-212 | the loop's step is `makeStepOne` with `qubo_value1` and `prob_of_fixing1` after an even snapshot, and `makeStepZero` with `qubo_value0` and `prob_of_fixing0` after an odd one; it returns the QUBO that step submits: the encoded field, or after an odd snapshot the encoded inverted field |
| `Game.SubmittedCoupler` | qgol.py:208-212 | a step's QUBO weighs a coupler from an alive cell's block (after an even snapshot) or a dead cell's block (after an odd one) to a neighbour's block by `+` or `-` `qubo_value1` or `qubo_value0` respectively, `+` without overpopulation modelling, and keeps it exactly when that value exceeds `1e-7` in magnitude |
| `Game.SubmitsExtend` | qgol.py:204-212 | appending a step and the QUBO it submits keeps every QUBO matched to the snapshot its step started from |
| `Game.Extend` | qgol.py:208-212 | the step taken from the last snapshot is the game's next field and submits that snapshot's QUBO, and appending the field keeps the snapshots played |
| `Game.Record` | qgol.py:205-207 | writing out a field appends it to the snapshots and reports whether it is all dead or all alive |
| `Game.Turn` | qgol.py:205-212 | writes out the field, stops if it is complete, and otherwise appends a step that keeps the snapshots played and its QUBO matched to them |
| `Game.Round` | qgol.py:204-212 | one iteration writes out one or two fields and keeps the snapshots played; unless it stops, it writes exactly two and leaves the next field played; the QUBOs stay matched to the snapshots |
| `Game.StoppedEarly` | qgol.py:204-212 | a game that stops at a complete snapshot within `2 * max_iterations` snapshots has at least two of them, the start field not being complete |
| `Game.PlayedExtend` | qgol.py:204-212 | appending the step of the last snapshot keeps the snapshots played and the first snapshot in place |
| `Game.PlayedDeterministic` | qgol.py:204-212 | two played snapshot sequences with the same start agree wherever both are defined |
| `Game.Play` | qgol.py:204-214 | the loop plays a whole game (`WholeGame`): it writes between 1 and `2 * max_iterations + 1` snapshots, at least 2 when it iterates; the first is the start field and each later one is the step of the one before it; no snapshot before the last is complete, and a game that stops early stops at a complete one; alongside it returns one QUBO per step taken, the `t`-th being the QUBO the step from snapshot `t` submits |
| `Game.PlayQGOL` | qgol.py:187-214 | `playQGOL` writes the snapshots that `Play` promises and submits the QUBOs it promises, for the block map built by its own loops |

## Left out

- The annealer (`solveWithDwave`, qgol.py:14-19) is not modelled. Its
  sampling is stochastic, so the first sample it returns is an input of every
  step (`Luck.sample`), not a function of the QUBO. `Step.MakeStepOne`,
  `Step.MakeStepZero` and `Game.PlayQGOL` return the QUBOs they submit
  (`Encoded`), and the lemmas about `Encoded` describe them. This is how the
  weights, fixing probabilities, couplers and overpopulation switch show in
  the model. Nothing relates the sample to the QUBO's
  minimum.
- `getHardwareAdjacency` (qgol.py:21-24) is not modelled. The hardware graph
  is a parameter: `Config.nodes` is the node set and `Config.edges` the set
  of directed couplers. `num_reads` and `solver_name` disappear with it.
- `random.random()` is replaced by draws given in advance, one grid per step
  for pinning (`Luck.pins`) and one for the tie-breaking coins
  (`Luck.coins`). The model fixes which cell consumes which draw, not the
  order in which a single random stream would be consumed.
- `visualizeField` (qgol.py:163-184) writes files. It is modelled only as
  recording the field it would write, in order (`Game.Record`). File names,
  directories and the image mode are left out.
- Floating point is modelled as exact reals and integers: `round(x, 10)` is
  the identity on cells that are integers. A cell that does not round to 0
  or 1 at ten decimals, which `invertField` rejects, is modelled as any
  integer other than 0 and 1. A float within about `5e-11` of 0 or 1, which
  `invertField` accepts, has no counterpart.
- `makeStepOne` compares cells with `field[i,j] == 1` without rounding
  (qgol.py:85, 95, 103). On a field of integers this agrees with the model;
  a float close to but not equal to 1 would count as dead there, and that
  difference is not modelled.
- The error message that `invertField` prints before raising `ValueError`
  (qgol.py:36) is not modelled; the error itself is `InvalidFieldValue`.
- The board size computed from the node count by square roots
  (qgol.py:189-190) is not modelled; `width` and `height` are parameters.
- The `one_qubits` list (qgol.py:72, 86-87) is built but never read by the
  source, and is left out.
- `intializeField` with a positive `one_coverage` (qgol.py:56-60) is not
  modelled; the game only calls it with the default coverage 0.
- The `__main__` block (qgol.py:216-223) only supplies example parameters.
- `Step.MakeStepOne` requires every block variable to be below `len(nodes)`
  and the sample to be at least that long. The source would raise `KeyError`
  or `IndexError` instead; those error paths are not modelled.
  `Blocks.BuildBlockMapInNodes` shows that the requirement holds when the
  node labels are `0 .. len(nodes) - 1`.
- `Step.MakeStepZero` and `Encoder.EncodeQubo` carry the same requirement.
  They also require a pinning draw for every cell, which the source always
  has.
- `Game.PlayQGOL` requires the same of the game's block map, and a field of
  at least 10 x 10. The source raises `IndexError` when it places the start
  square on a smaller field. It also requires draws and a sample for each of
  the `2 * max_iterations` steps.
- `Game.Play` carries the same requirements as `Game.PlayQGOL`.
