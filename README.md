# SimdNet Snake trainer — a verified Dafny model

SimdNet trains small cascade neural networks to play Snake by
neuroevolution. This project models its core:

- The Snake environment (`SnakeSpace` in include/snake.hpp). A square field
  [-R, R] x [-R, R] with R = FieldSize / 2 holds a body of `char` points,
  stored head first. The environment also keeps a heading, an energy
  counter, a move counter and one food item. `init_run` lays down a
  three-segment snake. `move` pushes a new head, checks for death, and then
  either drops the tail or eats and refuels. `decide_direction` turns the
  network's outputs into a heading. The perception helpers look along the
  eight scan directions. `run` plays three trials and returns the mean final
  body length.
- The fully connected cascade network (include/fcc.hpp). Neuron i reads
  every input, the bias and every earlier neuron, through a slice of one
  flat weight array that `feed_forward` walks with an advancing offset.
- The rank-weighted sampler of
  include/uniformly_decreasing_discrete_distribution.hpp. It holds a
  cumulative triangular table and searches it with `std::lower_bound`.
- The two population schemes:
  - include/population.hpp: running-mean fitness, breeders are the top
    PopSize / 8, single-point crossover by copying, additive mutation, and
    in-place reproduction of the non-breeding suffix.
  - include/pop.hpp, the older one: latest-run fitness, and crossover by
    swapping the shorter side of the cut in place.
- The geometry helpers of the experimental driver SimdNet/main.cpp.

Modules and files:

| file | module | models |
|---|---|---|
| points.dfy | `Points` | `char` coordinates with 8-bit wrap-around, `Point`, the move and scan directions, rays to the wall, and the pigeonhole count of field cells |
| snake.dfy | `Snake` | include/snake.hpp. Step, decisions and perception are functions on a `SnakeView` value. The class `SnakeSpace` holds the mutable fields, and its methods are proved against those functions |
| driver.dfy | `Driver` | SimdNet/main.cpp |
| network.dfy | `Network` | include/fcc.hpp |
| sampler.dfy | `Sampler` | include/uniformly_decreasing_discrete_distribution.hpp |
| ranking.dfy | `Ranking` | the `Individual` record and the sort by non-increasing fitness shared by both population headers |
| population.dfy | `Population` | include/population.hpp |
| pop.dfy | `Pop` | include/pop.hpp |

Conventions:

- Every random draw is a parameter, and its range is a precondition. This
  covers headings, tails, food candidates, initial weights, cut and mutation
  points, Gaussian deltas, Bernoulli outcomes and sampler draws.
- A rejection loop (`random_food`, `sample_match`) receives the sequence of
  candidates it would draw.
- The network's decision inside `run` is an oracle from the observed state to
  NumOutput reals. The run results that `evaluate` consumes are a sequence
  of reals.
- `float` is modelled as `real` and `char` as a signed 8-bit integer that wraps (two's complement).
- The `std::execution::par_unseq` loops are sequential.

Behaviour of the code worth knowing:

- `std::lower_bound` sends a draw to the least rank whose table entry is at
  least the draw. For the table [3, 5, 6], draw 5 goes to rank 1
  (`Sampler.SampleSizeThree`).
- `mutate` of include/population.hpp adds the Gaussian draw to the weight.
  `mutate` of include/pop.hpp replaces the weight with the draw.
- `decide_direction_4` is an argmax over absolute headings and can reverse
  the snake.
- `decide_direction` with three outputs calls `decide_direction_3` as
  written, so `run` plays the as-written decision
  (`Snake.DecideDirection3AsWritten`). The corrected decision of the second
  finding below stands beside it and is not used by `run`.
- The body length that `run` accumulates includes the fatal head. A fatal
  move leaves the head it pushed in the body, so a trial scores at least 4.
- In SimdNet/main.cpp, with no = (0, +1) and ea = (+1, 0), `turn_left`
  rotates clockwise (`Driver.TurnLeftRotation`).

## Model

| member | source | states |
|---|---|---|
| Points.Wrap | include/snake.hpp:81-83 | the cast back to `char` keeps a value that already fits, and subtracts or adds 256 to one that overflows by less than 256 |
| Points.WrapCongruent | include/snake.hpp:81-83 | the cast back to `char` is two's-complement truncation: the result is congruent to the int modulo 256 |
| Points.Add | include/snake.hpp:75-79 | `operator+` adds coordinate-wise in `char` and is exact whenever each sum fits in 8 bits |
| Points.Sub | include/snake.hpp:81-83 | `operator-` subtracts coordinate-wise, cast back to `char`, and is exact whenever each difference fits in 8 bits |
| Points.SubZero | include/snake.hpp:81-83 | the difference of two points is (0, 0) exactly when the points are equal, despite the wrap-around |
| Points.InRange | include/snake.hpp:112-114 | `in_range` of both SnakeSpace variants (also SimdNet/main.cpp:95-97): both coordinates lie in [-R, R]. Its partners are `FieldBound` and `FreeCell` |
| Points.MoveFromOrdinal | include/snake.hpp:140 | `static_cast<MoveDirection>(i)` for i in [0, 3] is the heading with ordinal i |
| Points.ScanFromOrdinal | SimdNet/main.cpp:90 | slot k of an 8-slot block is the scan direction with ordinal k |
| Points.OnRayUnique | SimdNet/main.cpp:180-205 | a point lies on at most one of the eight rays from another, and at their Chebyshev distance |
| Points.RayStepsExact | include/snake.hpp:293-303 | from an in-range point, the step count to the wall in each direction is exact: that many steps stay in the field and one more leaves it |
| Points.WallActivation | include/snake.hpp:293-303 | the wall perception value of an in-range point lies in (0, 1] |
| Points.FieldBound | include/snake.hpp:452 | pairwise distinct in-range points number at most (2R + 1)^2 |
| Points.FreeCell | include/snake.hpp:130-135 | fewer points than field cells leave an in-range cell free, so the food resampling can succeed |
| Snake.FieldGeometry | include/snake.hpp:94-96 | for the admitted odd field sizes, R = FieldSize / 2 gives exactly FieldSize^2 cells, fewer than the 384-point ring holds, and R lies in [6, 9] |
| Snake.ExtendHead | include/snake.hpp:148-156 | the head moves by exactly one unit in the heading: no = (0, +1), ea = (+1, 0), so = (0, -1), we = (-1, 0) |
| Snake.Find | include/snake.hpp:116-118 | `std::find` returns the index of the first occurrence, or the length when there is none |
| Snake.BodyContains | include/snake.hpp:116-119 | true exactly when the point is in the body |
| Snake.NotCrossing | include/snake.hpp:120-124 | true exactly when no segment after the head equals the head |
| Snake.ValidEmptyPoint | include/snake.hpp:126-128 | true exactly when the point is in the field and off the body |
| Snake.IsNotDead | include/snake.hpp:158-160 | true exactly when energy is nonzero, the head is in range and the head occurs nowhere else in the body |
| Snake.Step | include/snake.hpp:163-179 | one call of `move` as a function of the state. `SnakeSpace.Move` is proved against it, and `StepAlive`, `StepDead` and `StepPreservesValid` state its properties |
| Snake.FirstFree | include/snake.hpp:130-135 | the candidate the resampling loop stops at is off the body, and every earlier candidate is on it |
| Snake.InitialView | include/snake.hpp:137-146 | the state `init_run` leaves: no moves, energy 100, the drawn heading, the three-segment body, and food that is one of the drawn candidates and lies off the body |
| Snake.InitRunValid | include/snake.hpp:137-146 | after `init_run`: no moves, energy 100, the given heading, three distinct in-range segments each one step from the next along the heading, food in range and off the body |
| Snake.StepAlive | include/snake.hpp:163-179 | `move` counts the move, spends one energy and keeps the heading. It reports survival exactly when energy remains, the new head is in range and the new head meets no segment |
| Snake.StepDead | include/snake.hpp:163-179 | a fatal move keeps the pushed head, so the body grows by one, and the food does not move |
| Snake.StepPreservesValid | include/snake.hpp:163-179 | a surviving non-eating move prepends the head, drops the tail and keeps the length. An eating move grows the body by one, adds 100 energy and places new food off the body. Either way the snake stays well formed |
| Snake.ReverseIsFatal | include/snake.hpp:158-179 | turning back onto the neck kills the snake on the next move |
| Snake.Choice3 | include/snake.hpp:212-228 | the comparison cascade picks a maximal output among the first three |
| Snake.DecideDirection3AsWritten | include/snake.hpp:212-228 | `decide_direction_3` as written never reverses, and keeps the heading exactly when o[1] >= o[0] and o[1] > o[2] |
| Snake.DecideDirection3Mirrored | include/snake.hpp:212-228 | as written, output 0 turns right when heading north but left when heading east, while input slot 0 always describes the cell to the left |
| Snake.DecideDirection3 | include/snake.hpp:212-228 | the corrected decision never reverses, and keeps the heading exactly when o[1] >= o[0] and o[1] > o[2] |
| Snake.FeelerCells | include/snake.hpp:325-375 | for every heading, input slots 0, 1 and 2 of `gather_input_10` describe the cells to the left of, ahead of and to the right of the head |
| Snake.DecideDirection3FollowsInput | include/snake.hpp:212-228 | the corrected decision moves the head to the cell that input slot Choice3(o) describes |
| Snake.DecideDirection4 | include/snake.hpp:230-235 | the chosen heading's output is at least every other output (an argmax over four) |
| Snake.DecideDirection | include/snake.hpp:237-244 | with three outputs it is `decide_direction_3` as written and never reverses the heading. Otherwise the result is the four-way argmax |
| Snake.DistancePointToPoint8 | include/snake.hpp:279-290 | the slot lies in 0..7, the value is non-negative, and a zero value comes with slot 0 |
| Snake.DistancePointToPoint8Aligned | include/snake.hpp:279-290 | the value is nonzero exactly when the second point lies on the ray of the returned slot, and then it is the inverse Manhattan distance. A point on any ray is reported in that ray's slot |
| Snake.BodyScanIsMax | include/snake.hpp:312-321 | after the body scan, each slot is the maximum of its initial value and the values of the segments seen in that slot |
| Snake.Play | include/snake.hpp:253-257 | the inner move/decide loop terminates. Its final length lies between the current length plus one and the cell count plus one, or it is None when `random_food` could never return |
| Snake.PlayMove | include/snake.hpp:253-257 | one non-hanging move of the inner loop, followed by either the final length or the rest of the loop, with the same bounds |
| Snake.HangOnlyOnFullField | include/snake.hpp:130-135 | when the candidates cover the field, food placement can fail only once the grown snake fills every cell |
| Snake.SumSizesHangs | include/snake.hpp:250-259 | the evaluation never finishes exactly when some trial never finishes |
| Snake.SumSizesBounds | include/snake.hpp:250-259 | trial results bounded by lo and hi sum to between n * lo and n * hi |
| Snake.Fitness | include/snake.hpp:247-261 | the result of `run`. It is undefined exactly when some trial never finishes, and otherwise it is the mean length, which `FitnessBounds` bounds |
| Snake.FitnessBounds | include/snake.hpp:247-261 | the fitness of three finished trials lies between 4 and the cell count plus one |
| Snake.SnakeSpace.constructor | include/snake.hpp:110 | keeps the field size and sets the radius to FieldSize / 2 |
| Snake.SnakeSpace.RandomFood | include/snake.hpp:130-135 | the food becomes the first candidate off the body |
| Snake.SnakeSpace.InitRun | include/snake.hpp:137-146 | the new state is exactly the one `InitialView` describes, which `InitRunValid` shows well formed |
| Snake.SnakeSpace.Move | include/snake.hpp:163-179 | the status and new state are exactly `Step` of the old state |
| Snake.SnakeSpace.MoveDisplay | include/snake.hpp:188-210 | the same state change as `move`. It records the old and new head, and either the dropped tail or that the snake ate |
| Snake.SnakeSpace.PlayStep | include/snake.hpp:253-257 | one pass of the inner loop (`move`, then `decide_direction` when the snake lives) either ends with the `Play` result, or keeps the snake well formed and the `Play` result unchanged while the termination measure drops |
| Snake.SnakeSpace.RunTrial | include/snake.hpp:251-258 | one trial returns exactly the final length that `TrialSize` (the `Play` loop from `init_run`) gives |
| Snake.SnakeSpace.Run | include/snake.hpp:247-261 | returns the mean of the three trial lengths, or None if a trial hangs |
| Snake.SnakeSpace.DistancesToWall8 | include/snake.hpp:293-303 | slot k holds the wall value in scan direction k, each denominator is at least 1, and slots from 8 on are untouched |
| Snake.WallRow | include/snake.hpp:293-303 | the eight denominators `distances_to_wall_8` writes are, in scan order, the wall values of the head |
| Snake.SnakeSpace.DistancesToFood8 | include/snake.hpp:306-309 | exactly the food's slot is written, with its value |
| Snake.SnakeSpace.DistancesToBody8 | include/snake.hpp:312-321 | the first eight slots become the body scan of the segments behind the head, and the rest are untouched |
| Driver.TurnLeftOf | SimdNet/main.cpp:144 | the ordinal of the result is the ordinal plus 1, modulo 4 |
| Driver.TurnRightOf | SimdNet/main.cpp:143 | the ordinal of the result is the ordinal plus 3, modulo 4 |
| Driver.TurnsInverse | SimdNet/main.cpp:143-144 | each turn undoes the other |
| Driver.FourTurns | SimdNet/main.cpp:143-144 | four turns the same way are the identity, and fewer are not |
| Driver.TurnLeftRotation | SimdNet/main.cpp:143-144 | `turn_left` rotates the heading vector clockwise, and two turns reverse it |
| Driver.WallDenominator | SimdNet/main.cpp:165-177 | for an in-range head, every denominator is at least 1 |
| Driver.WallDenominatorRay | SimdNet/main.cpp:165-177 | the denominator is the Manhattan length of the ray to the wall plus one |
| Driver.DistanceToWall | SimdNet/main.cpp:165-177 | for an in-range head, the value is the wall value of the ray and lies in (0, 1] |
| Driver.DistancePointToPoint | SimdNet/main.cpp:180-205 | the value is never negative |
| Driver.DistancePointToPointAligned | SimdNet/main.cpp:180-205 | the value is nonzero exactly when p1 lies strictly beyond p0 on the ray of the direction, and then it is the inverse Manhattan distance |
| Driver.AtMostOneDirection | SimdNet/main.cpp:180-205 | at most one direction sees p1, and none does when the points coincide |
| Driver.DistancesPointToPoint | SimdNet/main.cpp:207-224 | slot k is `distance_point_to_point` in scan direction k, and slots from 8 on are untouched (the free function at SimdNet/main.cpp:303-320 has the same body) |
| Driver.DistancesAtMostOne | SimdNet/main.cpp:303-320 | at most one slot is nonzero, none when p0 == p1, and a nonzero slot is the direction p1 lies in |
| Driver.MainExample | SimdNet/main.cpp:354-373 | seen from (8, -7), the point (-2, 1) lies in no direction, so all eight slots are zero |
| Driver.Dp2p | SimdNet/main.cpp:322-352 | writes the one slot that `distance_point_to_point_8` classifies when p1 is aligned, and leaves every other slot as it was |
| Driver.Dp2pAgreesWithScan | SimdNet/main.cpp:322-352 | the slot `dp2p` writes is the only slot in which `distance_point_to_point` is nonzero, with the same value |
| Driver.MaxAlongIsMax | SimdNet/main.cpp:237-249 | the running maximum is at least its start value and every segment's value, and equals the start or some segment's value |
| Driver.RaiseSlots | SimdNet/main.cpp:259-274 | each of the eight slots becomes the larger of its old value and the new one, and the rest are untouched |
| Driver.SnakeSpace.constructor | SimdNet/main.cpp:82-88 | Base = S / 2 for odd S, with the given heading and body |
| Driver.SnakeSpace.TurnRight | SimdNet/main.cpp:143 | the heading becomes `TurnRightOf` of the old one |
| Driver.SnakeSpace.TurnLeft | SimdNet/main.cpp:144 | the heading becomes `TurnLeftOf` of the old one |
| Driver.SnakeSpace.DistanceToBody | SimdNet/main.cpp:237-249 | the running maximum, from 0, of `distance_point_to_point` over the segments behind the head |
| Driver.SnakeSpace.DistancesToBody | SimdNet/main.cpp:251-276 | for a body of at least two segments, slot k is `distance_to_body` in scan direction k, and the rest are untouched |
| Network.NumWeightsExact | include/fcc.hpp:80-83 | the division in NumWeights is exact, and NumWeights is the sum of i over [NumIns, NumInsOuts), the weights `feed_forward` consumes |
| Network.OffsetClosedForm | include/fcc.hpp:93-98 | the offset of slot i is the sum of k over [NumIns, i), in closed form |
| Network.SliceInBounds | include/fcc.hpp:93-98 | the weight slice of slot i starts at Offset(i) >= 0, has length i, and ends within NumWeights |
| Network.Cascade | include/fcc.hpp:93-98 | the workspace `feed_forward` leaves, of the same size as the one it is given. `CascadeShape` and `CascadeInputsOnly` state its shape |
| Network.Elliot | include/fcc.hpp:104-107 | `activation_elliotsig` lies strictly in (-1, 1), is positive exactly when net * alpha is, and is zero exactly when net * alpha is |
| Network.CascadeUpToKeeps | include/fcc.hpp:93-98 | the partial cascade leaves the inputs and the bias slot, and every slot not yet reached, unchanged |
| Network.Activate | include/fcc.hpp:93-98 | the value a neuron slot receives lies strictly in (-1, 1) |
| Network.CascadeUpToFilled | include/fcc.hpp:93-98 | each filled slot is the activation of the dot product of the slots before it with its weight slice |
| Network.CascadeShape | include/fcc.hpp:93-98 | after `feed_forward`, the inputs are unchanged and slot i is the activation of the dot product of slots [0, i) with slice i, so it lies in (-1, 1) |
| Network.CascadeInputsOnly | include/fcc.hpp:93-98 | the result depends only on the weights and the input and bias slots |
| Network.CascadeUpToInputsOnly | include/fcc.hpp:93-98 | the slots filled so far depend only on the weights and the input and bias slots |
| Network.InputBiasOutput.constructor | include/fcc.hpp:41-52 | the workspace has NumInsOuts slots, and the bias slot NumInput holds 1 |
| Network.FullyConnectedNeuralNetwork.constructor | include/fcc.hpp:88-91 | the weights are the given draws from [-1, 1] in a fresh array |
| Network.FullyConnectedNeuralNetwork.FeedForward | include/fcc.hpp:93-98 | the workspace becomes the cascade of its old contents, the weights are unchanged, and the returned view is the last NumOutput slots, starting at or after NumIns |
| Sampler.Sum | include/uniformly_decreasing_discrete_distribution.hpp:66 | both parity branches equal Size (Size + 1) / 2 |
| Sampler.CumulativeClosedForm | include/uniformly_decreasing_discrete_distribution.hpp:68-73 | the running count c at entry i is (i + 1)(2 Size - i) / 2 |
| Sampler.SampleTableShape | include/uniformly_decreasing_discrete_distribution.hpp:66-73 | table[0] = Size, table[i] - table[i - 1] = Size - i, the table strictly increases, and its last entry is Sum |
| Sampler.GenerateSampleTable | include/uniformly_decreasing_discrete_distribution.hpp:68-73 | the counter loop fills a fresh array with exactly that table |
| Sampler.LowerBound | include/uniformly_decreasing_discrete_distribution.hpp:90-92 | `std::lower_bound`: every entry before the index is below u, and every entry from it on is at least u |
| Sampler.Sample | include/uniformly_decreasing_discrete_distribution.hpp:84-98 | for a draw in [0, Sum], the result is the least rank with table entry >= u, and it lies in [min(), max()] |
| Sampler.SamplePreimage | include/uniformly_decreasing_discrete_distribution.hpp:84-93 | a draw gives rank i exactly when it lies between Low(i) and table[i] |
| Sampler.SampleCount | include/uniformly_decreasing_discrete_distribution.hpp:84-93 | as written, rank 0 receives Size + 1 of the Sum + 1 draws, and rank i > 0 receives Size - i |
| Sampler.SampleSizeThree | include/uniformly_decreasing_discrete_distribution.hpp:84-93 | for Size 3 the table is [3, 5, 6]; draws 0..3 give rank 0, draws 4 and 5 give rank 1, and draw 6 gives rank 2 |
| Sampler.SampleOverweightsRankZero | include/uniformly_decreasing_discrete_distribution.hpp:84-93 | as written, rank 0 is drawn more often than the Size / Sum the comment promises |
| Sampler.SampleCorrected | include/uniformly_decreasing_discrete_distribution.hpp:84-93 | for a draw in [0, Sum), the result is the least rank whose entry exceeds u, within [min(), max()] |
| Sampler.SampleCorrectedCount | include/uniformly_decreasing_discrete_distribution.hpp:84-93 | corrected, rank i receives exactly Size - i of the Sum draws |
| Ranking.Insert | include/population.hpp:113-114 | inserting into a sorted sequence keeps it sorted and adds exactly that one element |
| Ranking.SortByFitness | include/population.hpp:113-114 | the `std::sort` by `a.fitness > b.fitness` is a permutation with non-increasing fitness |
| Ranking.PermutationKeepsDistinct | include/population.hpp:113-114 | sorting never makes two individuals share a network |
| Population.Update | include/population.hpp:111 | one `evaluate` step increments the age by one and keeps the network |
| Population.RunningMean | include/population.hpp:111 | the update turns the mean of k results into the mean of k + 1 |
| Population.MeanAfterEvaluations | include/population.hpp:107-112 | after k >= 1 evaluations since a reset, the fitness is the mean of the k results and the age is k |
| Population.Replay | include/population.hpp:107-112 | each evaluation adds one to the age and keeps the network |
| Population.EvaluatedKeepsBrains | include/population.hpp:107-112 | the update loop of `evaluate` keeps the networks distinct and of the right size, and the ages non-negative |
| Population.FirstOther | include/population.hpp:141-147 | the accepted second draw is the first one after the first draw that differs from it |
| Population.FirstOtherFrom | include/population.hpp:144-146 | the redraw loop stops at a draw that differs from the first, and every draw it skipped equals the first |
| Population.Offspring | include/population.hpp:123-136 | the child takes parent 0's weights before the cut and parent 1's weights from it, except at the one mutated position |
| Population.PermutationKeepsBrains | include/population.hpp:113-114 | sorting keeps the networks distinct, of the right size, and with non-negative ages |
| Population.Population.constructor | include/population.hpp:97-100 | PopSize individuals with fitness 0, age 0 and distinct new networks holding the given draws |
| Population.Population.Evaluate | include/population.hpp:107-116 | the new population is sorted by non-increasing fitness and is a permutation of the old one, with each individual advanced by the running-mean update |
| Population.Population.Mutate | include/population.hpp:118-121 | the delta is added to the weight at mup, and no other weight changes |
| Population.Population.Crossover | include/population.hpp:123-127 | the child's weights become parent 0's prefix before the cut followed by parent 1's suffix from it |
| Population.Population.SampleMatch | include/population.hpp:141-147 | returns the first draw and the first later draw that differs from it: two distinct breeders |
| Population.NoMatchForOneBreeder | include/population.hpp:141-147 | with at most one breeder no draw stream is valid: every draw equals the first, so the redraw loop of `sample_match` would never return |
| Population.Population.Reproduce | include/population.hpp:129-138 | the breeders and their weights are untouched. Every later individual keeps its network object, gets fitness 0 and age 0, and its weights become the offspring of the two breeders its draws select |
| Population.Population.Breed | include/population.hpp:132-134 | the child's weights become the offspring of the two parents under the draws: crossover, then mutation when the Bernoulli draw says so |
| Population.Population.ReproduceOne | include/population.hpp:130-137 | breeds one child at index k from the untouched breeders and resets its fitness and age. No other individual or network changes, and the loop invariant moves from k to k + 1 |
| Population.Population.BreedChildren | include/population.hpp:130-137 | after the loop over the non-breeding suffix, every child is reset and bred from the untouched breeders |
| Population.Population.AverageAge | include/population.hpp:162-167 | the breeders' mean age is never negative |
| Population.AverageFitnessBounds | include/population.hpp:155-160 | on a sorted population, the breeders' mean fitness lies between the BreedSize-th best and the best |
| Population.SumFitnessBounds | include/population.hpp:156-158 | fitnesses between lo and hi sum to between n * lo and n * hi |
| Population.AverageAgeBound | include/population.hpp:162-167 | the breeders' mean age is at most any bound on their ages |
| Population.SumAgeBounds | include/population.hpp:163-165 | non-negative ages at most hi sum to at most n * hi |
| Population.SumAgeNonNegative | include/population.hpp:163-165 | non-negative ages have a non-negative sum |
| Pop.Refreshed | include/pop.hpp:78-82 | each fitness becomes the fresh result with no averaging, each age grows by one, and the network is kept |
| Pop.Total | include/pop.hpp:97-99 | the denominator is B (B + 1) / 2 and positive |
| Pop.GenerateSampleTable | include/pop.hpp:95-101 | entry i is the running count c_i divided by B (B + 1) / 2 |
| Pop.SampleTableShape | include/pop.hpp:95-101 | the numerators end at B (B + 1) / 2, the entries strictly increase, and the last entry is 1 |
| Pop.SwappedAtMostHalf | include/pop.hpp:111-117 | the swapped range lies within the weights and has length at most ceil(L / 2) |
| Pop.CrossedPair | include/pop.hpp:106-118 | inside the swapped range the two networks exchange values, and outside it they keep their own. The resulting unordered pair is {A[0, c) ++ B[c, L), B[0, c) ++ A[c, L)} |
| Pop.SwapRanges | include/pop.hpp:113-117 | `std::swap_ranges` exchanges exactly [lo, hi) of the two arrays and leaves the rest unchanged |
| Pop.Crossover | include/pop.hpp:106-118 | the prefix [0, c) is swapped when c < L / 2, and the suffix [c, L) otherwise |
| Pop.Mutate | include/pop.hpp:120-125 | the weight at mup is replaced by the draw, and no other weight changes |
| Pop.Population.constructor | include/pop.hpp:68-71 | PopSize individuals, BreedSize = PopSize / 2, with fitness 0, age 0 and new networks holding the given draws |
| Pop.Population.Evaluate | include/pop.hpp:78-85 | the new population is sorted by non-increasing fitness and is a permutation of the refreshed individuals |

## Left out

- `gather_input_10` and the other `gather_input*` / `encode_*` encoders of include/snake.hpp are left out, apart from the neighbour-cell layout that `FeelerCell` records. They are float encodings written into the network's buffer. Inside `run`, the network and its input are an oracle from the observed state to NumOutput outputs.
- Floating point: `float` is `real`. Rounding, `NAN` returns after a full switch, and the float division in `run` are not modelled. So are `activation_bipolar` (which uses `exp`) and `cblas_sdot`, which is an exact real dot product here.
- Parallel execution policies: the `par_unseq` loops of both population headers are modelled as sequential loops.
- Persistence through cereal (`serialize`, `save`, `load`), rendering (`print`, `print_update`, `run_display`, cursor control, sleeping), and the endless `Population::run` loop of include/population.hpp are I/O and are left out.
- `probabilities()` of the sampler header is left out. It brace-initialises a two-element vector and then writes Size entries, so it has no well-defined result to model.
- The ring-span storage of the body is not modelled. The body is a sequence, and `move` requires fewer than 384 segments.
- `random_point` is not modelled: the tail and food candidates are parameters whose range is a precondition. Each rejection loop gets the candidate sequence it would draw. In `Run`, the candidates after each eating move are a stream indexed by the move count.
- Snake.SnakeSpace.Run: a trial in which the snake fills the field and eats makes `random_food` loop forever. The model returns None there instead of hanging (`HangOnlyOnFullField` shows this is the only way it can happen when the candidates cover the field).
- Population.Population.SampleMatch and Population.Population.Reproduce: require each breeder draw stream to hold a draw that differs from the first (`HasOther` inside `ValidChildDraws`). With BreedSize <= 1, that is a PopSize below 16, every draw is 0, so no such stream exists (`NoMatchForOneBreeder`) and `sample_match` (include/population.hpp:141-147) never returns. That non-terminating case is not modelled.
- Snake.SnakeSpace.constructor: admits only the odd field sizes 13, 15, 17 and 19 (and `PlayStep`, `RunTrial` and `Run` require the same). The source asks only for an odd size (include/snake.hpp:94). Sizes below 13 give R < 6, and then `random_point<FieldRadius - 6>` (include/snake.hpp:142) draws from an empty or reversed range. Sizes of 21 or more have more than 384 cells, so a growing snake could overrun the 384-point ring of include/snake.hpp:452. The ring's behaviour on overrun is not modelled.
- Snake.DistancePointToPoint8, Driver.Dp2p, Snake.SnakeSpace.DistancesToFood8 and Snake.SnakeSpace.DistancesToBody8: require the two points to differ. Each of them requires this directly, or through its precondition on the head. For equal points the source returns slot 4 with 1.0f / 0, an infinity (include/snake.hpp:280-281), and `dp2p` writes that infinity into slot 4 (SimdNet/main.cpp:324-328). Infinities are not modelled. Every caller passes a head that differs from the food and from the rest of the body.
- Snake.SnakeSpace.DistancesToWall8: requires an in-range head. The source calls it only after a surviving move, and a head beyond the wall would make a denominator zero or negative.
- Driver.DistanceToWall: requires a nonzero denominator. The source would divide by zero for a head one cell beyond the wall.
- `distances_point_to_point2` of SimdNet/main.cpp is left out. It is an unfinished draft that handles only the vertical case.
- The driver's `init`, `random_food`, `extend_head`, `move` (with `std::exit` on death and a top-up of 50) and `run` are not modelled. The include/snake.hpp versions are, and `Driver.SnakeSpace.constructor` takes the heading and body that `init` would draw.
- The `_vose` sampler that include/population.hpp uses is not part of this model. Its draws are taken to lie in [0, BreedSize).
- `weights()`, `begin()` and `operator[]`, which both population headers call on the network, do not exist in include/fcc.hpp. A network is modelled by its weight array, `FullyConnectedNeuralNetwork.weights`.
- `i.id->run()` of include/pop.hpp has no counterpart in include/fcc.hpp. Its results are the `results` parameter of `Pop.Population.Evaluate`. `reproduce` of include/pop.hpp only prints the sample table and is left out.
- Individual: the source compares individuals by their `id` pointer only. The model's `Individual` is a value with structural equality, and the sort never compares individuals, only their fitness.
- Population.Population.AverageFitness: carries no contract of its own. Its bound is `AverageFitnessBounds`, which needs the population to be sorted.
- Pop.Crossover: requires the two networks to be distinct. With the same network twice, `std::swap_ranges` would be given overlapping ranges.
- Population.Population.Crossover: requires the child's array to differ from both parents'. `reproduce` only passes a child from the non-breeding suffix and parents from the breeders.
- The workspace slots of `InputBiasOutput` other than the bias are left uninitialised in the source. The constructor's contract says nothing about them, and `feed_forward` overwrites the neuron slots before reading them.

## Findings

| source | as written | input that shows it | evidently intended | confidence | as-written member | corrected member |
|---|---|---|---|---|---|---|
| include/uniformly_decreasing_discrete_distribution.hpp:89-92 | the draw is uniform over the inclusive range [0, Sum], and `lower_bound` maps both 0 and the values 1..table[0] to rank 0 | Size = 3: table [3, 5, 6]; the 7 draws 0..6 give rank 0 four times, so P(0) = 4/7 rather than the commented 3/6 | a draw from [0, Sum) mapped to the first entry exceeding it, so that rank i has probability (Size - i) / Sum | not executed | Sampler.SampleCount, Sampler.SampleOverweightsRankZero | Sampler.SampleCorrected, Sampler.SampleCorrectedCount |
| include/snake.hpp:212-228 | output 0 sends a north-heading snake east (to its right) but an east-heading snake north (to its left), and likewise for south and west | heading north with outputs [1, 0, 0]: the snake goes east, while `gather_input_10` (include/snake.hpp:329) put the west cell in input slot 0 | outputs 0, 1, 2 mean left, ahead and right for every heading, matching the input layout of `gather_input_10` | not executed | Snake.DecideDirection3AsWritten, Snake.DecideDirection3Mirrored | Snake.DecideDirection3 |
