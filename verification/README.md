# Game of Life genetic algorithm: a Dafny model

This project models the core of a genetic algorithm that evolves Game of Life
seed patterns towards long-lived, large patterns. It covers five parts:

- the sparse bounded grid;
- one sparse Life step;
- the cached fitness evaluator;
- the crossover and mutation operators, and one steady-state generation of the GA loop;
- the seed builder and the statistics accumulator.

Every random draw is an argument. The class-level cache and statistics are
explicit values, threaded from call to call.

Modules, one per file:

- `Wrappers` (wrappers.dfy) holds `Option` and `Result`.
- `Grids` (grid.dfy) models `Grid`.
  - A Python dict is modelled as its key enumeration order, `order`, plus its contents, `cells`.
  - `d[k] = v` on a new key appends `k` to the order. On an existing key it keeps the key's position.
  - `Valid(n, g)` is the invariant every grid of the program keeps: the order lists each key once, and only in-bounds keys are stored.
  - `Config.MAX_GRID_SIZE` is the parameter `n`.
- `Life` (life.dfy) models `GameOfLife.run` as `Step`, a fold over the stored keys.
- `Statistics` (statistics.dfy) models `GeneticAlgorithmStatistics`.
  - The four aggregates and the two sample series form a `Stats` record.
  - `set_stat` takes an `Update`: a plain value, or a function applied to the old value.
- `Fitness` (fitness.dfy) models `GridFitnessCalculator`.
  - The `while gen < MAX_ITERATIONS` loop is `Simulate`, and `is_stable_or_oscillating` is `IsStableOrOscillating`.
  - `calculate` is `Evaluate`, which returns the fitness with the new cache and statistics.
  - The loop is stated for any step function `step: Grid -> Grid`. The program's step is `LifeStep(cfg)`, which is `Step` on the configured square. So every loop property holds for the program's Life step, and the proofs never unfold the Life step itself.
- `Operators` (operators.dfy) models `GridCrossover.crossover` as `Crossover` and `GridMutator.mutate` as `Mutate`.
  - `random.sample(range(count), 2)` is decoded from two naturals by `PickPoints`, which reaches every ordered pair of distinct points.
  - The other draws are indices taken modulo their range, plus real rolls.
- `Builder` (builder.dfy) models `GridBuilder.build`. Its `randint` draws are a finite sequence of pairs.
- `Genetic` (genetic.dfy) models `GeneticAlgorithm.run`.
  - `Generation` is one iteration of its loop, with the draws of that generation in a `Draws` record.
  - `_calculate_fitness` is `EvaluateAll`. `_update_best_candidate` is `UpdateBest`, and the loop that calls it over the population is `UpdateBestAll`.
  - The convergence test and the raise of `mutation_prob` are `AdaptMutation`.
  - `Run` is the loop over a sequence of `Draws`.

Each source exception is a `Failure`:

- a division by zero in the average or the roulette weights;
- the `ValueError` of `random.sample` when the longer parent has fewer than two keys;
- the `IndexError` of `random.choice` when a child with no keys is mutated.

Behaviours of the code that a reader might not expect, all modelled as written:

- The crossover points are not sorted. When `p0 > p1` the child is the whole first parent (`CrossoverReversedPoints`).
- Survival in the Life step tests key presence, not liveness. A key stored as `False` with two or three live neighbours comes back alive (`StoredDeadKeySurvives`).
- `mutate` picks among all stored keys, `False` ones included, not only among live cells.
- A cache hit on an unsettled entry does not repeat the stored answer. It runs no generation, but adds `0.8 * gen + 0.2 * max_size` to the stored fitness once more and stores the sum (`EvaluateUnsettledHit`).
- The cache key is the grid as enumerated, the value that `str(grid)` prints. Two equal grids built in different orders are therefore different keys.
- `build` counts stored keys, not live cells. They coincide, because `build` only writes `True`.

## Model

| member | source | states |
|---|---|---|
| Grids.GetCell | grid.py:81-84 | `None` exactly when the coordinate is out of bounds or not stored; otherwise the stored value |
| Grids.IsAlive | grid.py:76-79 | alive exactly when `get_cell` reads `True`: false out of bounds, for absent keys and for keys stored as `False` |
| Grids.SetCell | grid.py:68-74 | an out-of-bounds write leaves the grid unchanged; in bounds, the cell reads the written value and no other coordinate's reading, presence or value changes; keys only grow; the order grows by at most one key and keeps its prefix; an existing key keeps its position; validity and all-`True` are preserved |
| Grids.SetLiveCellIsNoOp | grid.py:71-74 | writing `True` on a live cell gives back the identical grid (a duplicate builder sample changes nothing) |
| Grids.SetCellLiveSet | grid.py:71-74 | a write adds the coordinate to the live set (`True`), removes it (`False`), or does nothing (out of bounds) |
| Grids.SetCellLiveCount | grid.py:71-74 | a write moves the live count by at most one, in the direction of the value written, and only when it changes the cell's liveness |
| Grids.DirsAreTheUnitOffsets | grid.py:38-41 | `ALLOWED_DIRS` lists the eight unit offsets, each once, and nothing else |
| Grids.AdjacentSymmetric | grid.py:38-41 | `b` is among the neighbours of `a` exactly when `a` is among those of `b` |
| Grids.CountAlongIsCard | grid.py:89-90 | over distinct directions, the sum of `count_neighbors` equals the number of directions that lead to a live cell |
| Grids.CountNeighbors | grid.py:89-90 | the neighbour count is between 0 and 8 |
| Grids.CountIsLiveOffsets | grid.py:89-90 | the neighbour count is exactly the number of allowed directions whose cell is alive, and the zero offset is never one of them |
| Grids.CountIgnoresOwnCell | grid.py:89-90 | writing any value at a cell leaves that cell's own neighbour count unchanged |
| Grids.CountDependsOnCells | grid.py:89-90 | grids with the same contents give the same neighbour counts, whatever their order |
| Grids.CountWithOneLiveCell | grid.py:89-90 | with at most one live cell in the grid, every neighbour count is at most 1 |
| Grids.ValidCard | grid.py:46-47 | in a valid grid, `len` equals the number of stored keys |
| Grids.LenAtLeastLiveCount | grid.py:86-87 | `len` and `count_set` count `False` keys too, so they are at least the number of live cells |
| Grids.KeepLive | grid.py:57-58 | the filtered key list holds exactly the keys stored as `True`, is no longer than the input, and is duplicate-free when the input is |
| Grids.RemoveDead | grid.py:57-58 | the result is valid and all `True`; `is_alive` is unchanged everywhere; the keys are exactly the live cells; `len` becomes the live count |
| Grids.SameKeysAllTrue | grid.py:98-99 | two all-`True` grids with the same keys are equal |
| Grids.EqualIffSameReadings | grid.py:98-99 | two valid grids are equal exactly when `get_cell` reads the same at every coordinate |
| Grids.SetCellsCommute | grid.py:71-74 | writes to two different coordinates give equal grids in either order, although the key orders differ |
| Life.BirthsAroundCells | game_of_life.py:40-44 | the direction loop around a key adds exactly the in-bounds neighbours that pass the birth test, and keeps validity and all-`True` |
| Life.VisitKeyCells | game_of_life.py:35-44 | one outer iteration adds the key itself if it passes the survival test, and its neighbours that pass the birth test |
| Life.StepFromCells | game_of_life.py:35-44 | the loop over a key list adds exactly the in-bounds cells that are listed keys passing survival, or neighbours of listed keys passing birth |
| Life.StepCells | game_of_life.py:32-46 | the new grid is valid and all `True`; a cell is in it exactly when it is in bounds and is a stored key with 2 or 3 live neighbours, or is a neighbour of a stored key that is not alive and has 3 live neighbours |
| Life.BirthNeedsNoScan | game_of_life.py:40-44 | a cell with three live neighbours always lies next to a stored key, so the sparse scan misses no birth |
| Life.StoredDeadKeySurvives | game_of_life.py:35-38 | a key stored as `False` with two or three live neighbours is dead before the step and alive after it |
| Life.StepIsB3S23 | game_of_life.py:35-44 | on an all-`True` grid, a cell is alive after the step exactly when it is in bounds and either is alive with 2 or 3 live neighbours or is dead with exactly 3 |
| Life.LoneCellDies | game_of_life.py:32-46 | the empty grid steps to the empty grid, and a single live cell steps to no cells |
| Life.SameCellsSameFate | game_of_life.py:35-44 | equal valid grids put the same cell in their results |
| Life.StepRespectsEqual | game_of_life.py:32-46 | equal valid grids step to equal grids |
| Statistics.SetStat | ga_statistics.py:47-52 | a plain value overwrites only its key; a callable replaces the key's value by its image of the old value; other keys and both series are unchanged |
| Statistics.AddSample | ga_statistics.py:43-44 | appends the value at the end of the named series only; the other series and all aggregates are unchanged |
| Statistics.MaxUpdateRaises | ga_statistics.py:49-50 | under the `max` updater the evaluator passes, a numeric aggregate never decreases, ends at least the offered value, and is one of the two |
| Statistics.InitialShape | ga_statistics.py:26-36 | initially `max_gen`, `max_fitness` and `max_size` are 0, `best_candidate` is `None`, and both series are empty |
| Fitness.SeenInPrefix | ga.py:33-34 | the stability test on a history is the same as the test on the matching prefix of any extension of that history |
| Fitness.Simulate | ga.py:57-68 | the loop never lowers `gen` and ends within the budget; it stops short of the budget only when settled; the history grows by one grid per generation |
| Fitness.SimulateKeeps | ga.py:57-68 | the loop settles only on a repetition; it keeps the history it was given as a prefix and never lowers `max_size`; it changes only the `max_size` statistic, never lowers it, and raises it to cover the loop's `max_size` |
| Fitness.SimulateTrace | ga.py:56-68 | the `i`-th grid recorded is the start stepped `i` times; the final grid is the start stepped once per generation; no recorded grid repeats an earlier one |
| Fitness.SimulateMaxSize | ga.py:62-64 | `max_size` bounds the length of every grid stepped and is either its starting value or one of those lengths |
| Fitness.FromScratch | ga.py:48-68 | from a fresh start, `gen` stays within the budget and the final grid is the input stepped `gen` times. A settled result has `gen >= 2`, and some earlier generation equals the final grid. An unsettled result used the whole budget. No grid from generation 2 up to `gen - 1` repeats an earlier one. `max_size` is the largest length among the grids stepped, and 0 when none was |
| Fitness.Evaluate | ga.py:36-75 | after `calculate` the cache holds the old keys plus the evaluated grid |
| Fitness.EvaluateKeeps | ga.py:40-74 | a settled hit returns the stored fitness and changes nothing; otherwise only the grid's entry changes, it holds the returned fitness, and the fitness is at least the starting one; a valid cache stays valid and every returned fitness is at least 1 |
| Fitness.EvaluateStats | ga.py:62-72 | no aggregate is lowered; `max_fitness` and `max_gen` cover the new entry; the best candidate and both series are unchanged |
| Fitness.EvaluateMiss | ga.py:48-74 | on a miss the stored entry is the fresh-start loop result, with fitness `1 + 0.8 * gen + 0.2 * max_size`, and the `max_size` aggregate covers it |
| Fitness.EvaluateUnsettledHit | ga.py:40-74 | an unsettled hit runs no generation; it returns the stored fitness plus `0.8 * gen + 0.2 * max_size`, which is strictly more when `gen > 0`, and stores that fitness in an otherwise unchanged entry |
| Fitness.SettledIsMemoized | ga.py:40-44 | once an evaluation settles, evaluating the same grid again returns the same fitness and leaves the cache and the statistics untouched |
| Operators.PickPoints | ga.py:118-119 | the decoded crossover points are two distinct positions below the larger parent length |
| Operators.PickPointsCoversAllPairs | ga.py:118-119 | every ordered pair of distinct positions is decoded from some pair of draws |
| Operators.CopyFromCells | ga.py:121-127 | an `enumerate` loop keeps validity and all-`True`, adds at most one key per position, and adds exactly the in-bounds keys at the positions it selects |
| Operators.CopyFromAppends | ga.py:121-123 | when every position is selected and the keys are new, in bounds and distinct, they are appended to the order in sequence |
| Operators.CopyFromSkips | ga.py:121-127 | a loop that selects no position leaves the grid unchanged |
| Operators.CrossoverCells | ga.py:115-129 | the child is valid and all `True`, and no longer than its two parents together; its keys are exactly the first parent's keys at positions outside `[p0, p1]` and the second parent's keys at positions inside it |
| Operators.CrossoverKeysFromParents | ga.py:115-129 | every key of the child is a key of one of the parents |
| Operators.CopyAllOfValid | ga.py:121-123 | copying every key of a valid grid rebuilds its order and its keys, with every value `True` |
| Operators.CrossoverReversedPoints | ga.py:121-127 | with `p0 > p1` the child has the first parent's order and keys, every value `True` |
| Operators.CrossoverDrawn | ga.py:116-129 | the crossover fails, with the sample error, exactly when both parents have fewer than two keys; otherwise it is the crossover at two distinct points below the larger length |
| Operators.Mutate | ga.py:88-96 | fails exactly on a grid with no keys; otherwise only the target cell's reading changes; keys only grow and `len` rises by 0 or 1; validity is preserved; the add branch makes the target alive exactly when it is in bounds; the remove branch stores `False` and keeps `len` |
| Operators.MutateLiveCount | ga.py:88-96 | the add branch raises the live count by one exactly when the target is an in-bounds dead cell; the remove branch lowers it by one exactly when the picked key was alive |
| Builder.SampleCell | grid_builder.py:28-30 | every decoded sample lies in the box of radius 5 around the centre |
| Builder.DrawStep | grid_builder.py:29-31 | one pass of the loop keeps the grid valid and all `True`, adds at most one key, and extends the keys to the in-bounds cells drawn so far |
| Builder.Build | grid_builder.py:25-33 | success exactly when the draws reach at least `num_cells` distinct in-bounds cells; the grid then holds exactly `max(0, num_cells)` keys, all `True`, all drawn, all in the box and in bounds |
| Genetic.SumAtLeastCount | ga.py:172-174 | fitness values of at least 1 sum to at least their count, so the roulette total is positive for a non-empty population |
| Genetic.EvaluateAll | ga.py:167-169 | one fitness value per population member |
| Genetic.EvaluateAllKeeps | ga.py:167-169 | scoring keeps every cached key and adds every member; a valid cache stays valid and gives every member a fitness of at least 1 |
| Genetic.EvaluateAllStats | ga.py:167-169 | scoring never lowers an aggregate and leaves the best candidate and both series unchanged |
| Genetic.UpdateBestAllFinds | ga.py:177-189 | after the tracking loop the best is at least the old best and every fitness. It is either unchanged with unchanged statistics, or it is the first maximum of the list, which strictly beat the old best, and `best_candidate` records that grid. No other statistic changes |
| Genetic.AdaptMutation | ga.py:202-204 | the probability never decreases; when best and average are within 0.1 it becomes exactly `max(0.5, 2 * mutation_prob)`: at least both, and equal to one of them; otherwise it is unchanged |
| Genetic.FirstMinIndex | ga.py:211 | the index is the first position of the minimum |
| Genetic.FirstMinUnique | ga.py:211 | the first position of the minimum is unique |
| Genetic.RemoveAt | ga.py:212 | `del` removes one element: the elements before it stay in place and the later ones move up by one |
| Genetic.Generation | ga.py:185-212 | an empty population fails with a division by zero |
| Genetic.GenerationKeeps | ga.py:185-212 | a successful generation keeps the population size and holds a best; the best never decreases and neither does the mutation probability; `gen` and the average fitness are appended to the two series |
| Genetic.GenerationCache | ga.py:186 | a successful generation keeps a valid cache valid |
| Genetic.GenerationStats | ga.py:186-194 | a successful generation never lowers an aggregate |
| Genetic.GenerationFailures | ga.py:186-207 | with a valid cache, a generation fails on division by zero exactly when the population is empty, fails on the sample error exactly when the crossover does, and fails on the empty-choice error exactly when the mutation fires on a child with no keys |
| Genetic.GenerationPopulation | ga.py:209-212 | the members before the first weakest keep their places, those after it move up by one, and the child comes last |
| Genetic.GenerationBest | ga.py:188-204 | the best covers every fitness of the generation. It is either unchanged, or it is the first maximum that strictly beat the old best, with that candidate recorded. When the test fires the probability becomes exactly `max(0.5, 2 * mutation_prob)`; otherwise it stays unchanged |
| Genetic.GenerationIsSteady | ga.py:185-212 | the program's generation step has every per-generation guarantee the loop lemmas assume |
| Genetic.RunWithInvariants | ga.py:183-214 | over `k` successful generations: the population keeps its size; the best and the probability never decrease; the generation series gains `gen, ..., gen + k - 1`; the fitness series gains `k` entries |
| Genetic.RunInvariants | ga.py:183-214 | the same for `run` with the program's generation step |
| Genetic.RunWithKeepsCacheValid | ga.py:183-214 | over any number of successful generations, a valid cache stays valid |
| Genetic.RunKeepsCacheValid | ga.py:183-214 | the same for `run` with the program's generation step |
| Genetic.RunFromStart | ga.py:184-194 | from the initial state, `k` generations leave `gen_sample == [0, ..., k - 1]` and `k` fitness samples, and a best exists once one generation ran |

## Left out

- ui.py, main.py and json_serde.py are not part of this model. They hold the GUI, the command-line wiring and plotting, and JSON file I/O.
- `Grid.__str__`, `from_string` and `hash(str(grid))` are left out. The cache is keyed by the grid value (order and contents), which determines `str(grid)`. Hash collisions between different strings are not modelled.
- `copy` and `deepcopy` need no member. Grids are immutable values, so a copy is the same value, and no operation can modify its input.
- Random draws are arguments:
  - The roulette weights of `_select` are not modelled. The two parents are indices taken modulo the population size, so the fitness-proportionate distribution is not stated.
  - `random.random`, `random.choice` and `random.choices` outcomes are reals and indices.
  - The `randint` pairs are naturals decoded into the box.
- Floating point is modelled as exact `real` arithmetic. The fitness, the average and `mutation_prob` have no rounding.
- `print` calls and `GridFitnessCalculator.getStatistics` are left out. `getStatistics` reads class attributes the class never defines, and nothing calls it.
- `GeneticAlgorithm.__init__` is modelled only as `Genetic.Initial`, with the population supplied. Each seed comes from `GridBuilder.build`, which `Builder.Build` models.
- `run` returns `best_candidate`. The model returns the whole state, whose `best` field holds it.
- Builder.Build: the source loops for ever when too few distinct in-bounds cells can be drawn. The model has a finite sequence of draws and reports `SamplesExhausted` when it runs out.
- Statistics.MaxWith: a non-number is left unchanged. The source would raise on `max(None, v)`, but the updater is only ever applied to the three numeric aggregates.
- Genetic.RunFromStart: it states the length of `fitness_sample`, not its contents. `Genetic.GenerationKeeps` states the appended average generation by generation.
- The `mutate` docstring mentions a size limit on the grid. The code has no such limit, and the model has none either.
