# Drone route planner: a verified model of its core

The planner routes a survey drone out of the UniBrasil depot (postal code
82821020), through every registered postal code (CEP), and back to the depot.
A candidate solution has three parts:

- a route of location identifiers;
- one cruise speed per leg (36 to 96 km/h in steps of 4);
- one landing flag per leg.

The parts of the system modelled here:

- The **identifier registry** (`MapeadorID`) gives every code a compact
  identifier.
- The **data manager** (`GerenciadorDados`) answers coordinates, codes and
  wind per day and hour.
- The **validator** (`ValidadorSolucao`) accepts a solution only when:
  - it leaves the depot and returns to it;
  - it passes through no depot in between;
  - it visits no location twice;
  - it has one speed and one landing flag per leg.
- The **cost evaluator** (`CalculadorCusto.calcular_custo_rota_ids`) flies
  the legs on a clock that starts on day 1 at 06:00:00. As it goes:
  - it recharges the battery whenever the battery cannot cover the next
    leg and its stop;
  - it charges 80 for every landing at or after 17:00;
  - it moves to 06:00 of the next day whenever a leg ends at or after
    19:00;
  - it gives up when a leg would end after day 7.

  The fitness of a solution is its total time plus ten times its cost.
- The **genetic search** (`AlgoritmoGenetico`):
  - seeds its population one fifth by nearest-neighbour construction and
    the rest at random;
  - scores every member, keeps the elites, and breeds the rest by
    tournament selection, single-point crossover with route repair, and
    mutation;
  - remembers the best fitness it has seen.
- The **autonomy formula** gives the battery autonomy for a cruise speed.

## Model form

**Modules.** Each module follows one source file:

- `Config`: `src/config.py`
- `Calculations`: `src/utils/calculations.py`
- `IdMapping`: `src/utils/id_mapper.py`
- `DataManagement`: `src/utils/data_manager.py`
- `Validation`: `src/core/validator.py`
- `CostCalculation`: `src/core/cost_calculator.py`
- `src/algorithms/genetic_algorithm.py` is split into `Individuals`,
  `Construction`, `Recombination`, `Mutation`, `Selection` and `Engine`.
- `Common` holds helpers about sequences.

**Objects.** The registry, the data manager and the search are classes.
The registry's two dictionaries and its counter are fields that `AddCep`
and `SetDepot` update.

**Loops.** The source's loops are methods with loop invariants, each proved
against a specification function:

- the evaluator's leg loop;
- the nearest-neighbour loop;
- the speed and landing generators;
- the repair, mutation and fitness loops;
- the population loops;
- the generation loop.

**Randomness.** Random draws are explicit streams of natural numbers
(`Stream = nat -> nat`). Every property is proved for all draws.

**Geometry.** Distances and flight times come from floating-point
geometry. They are parameters of the model:

- `Distance` is a function from two identifiers to kilometres.
- `FlightTime` is a function from two coordinates, a speed and a wind to
  whole seconds.

**Crossover repair.** `_corrigir_rota`
(`src/algorithms/genetic_algorithm.py:156-171`) only resets the two ends
and overwrites inner depot stops, so a crossed-over child can visit a
location twice; `Recombination.CrossoverMayRepeat` exhibits such a child.
The search has no local-search or polishing step after the generations.

**Cost evaluator.** A landing forced by the battery after 17:00 is charged
twice, once when forced and once as a landing
(`src/core/cost_calculator.py:157-168`). The model keeps this as written.

**Ranking.** The elites come from a stable sort of positions by fitness.
A tournament and the best-so-far update keep the first of equally small
fitness values, as Python's `min` and `list.index` do.

## Model

| member | source | states |
|---|---|---|
| Config.SpeedFromPick | src/algorithms/genetic_algorithm.py:32 | every draw yields a speed of `range(36, 97, 4)` |
| Config.SpeedFromPickOnto | src/config.py:2-4 | every speed from 36 to 96 in steps of 4 is drawn by some pick |
| Calculations.Autonomy | src/utils/calculations.py:59-64 | for positive parameters the autonomy is positive and at most `base * correction` |
| Calculations.AutonomyInverseSquare | src/utils/calculations.py:63-64 | above 36 km/h, autonomy times the speed squared is the constant `36^2 * base * correction` |
| Calculations.AutonomyStrictlyDecreasing | src/utils/calculations.py:61-64 | above 36 km/h, a faster speed has strictly less autonomy |
| Calculations.AutonomyNonIncreasing | src/utils/calculations.py:61-64 | for all speeds, a faster speed never has more autonomy |
| Calculations.AutonomyExamples | tests/test_calculations.py:22-41 | with the configured 5000 and 0.93, autonomy at 60 km/h is exactly 1674, so positive and under 7200, and autonomy at 40 km/h exceeds that at 80 km/h |
| IdMapping.IdMapper.constructor | src/utils/id_mapper.py:4-8 | the registry starts empty, with counter 0 and no depot, and satisfies its invariant (the maps are mutual inverses over 0..next-1) |
| IdMapping.IdMapper.AddCep | src/utils/id_mapper.py:10-15 | a known code keeps its identifier and nothing changes; a new code gets the next identifier in both maps, and the counter grows by one; the invariant is kept |
| IdMapping.IdMapper.IdOf | src/utils/id_mapper.py:17-18 | -1 exactly for an unknown code; otherwise an identifier below the counter whose code is the one asked |
| IdMapping.IdMapper.CepOf | src/utils/id_mapper.py:20-21 | "" for an unknown identifier; otherwise the code that maps back to it |
| IdMapping.IdMapper.AllIds | src/utils/id_mapper.py:23-24 | exactly the registered identifiers, in strictly ascending order (which is insertion order) |
| IdMapping.IdMapper.Count | src/utils/id_mapper.py:26-27 | the number of registered codes equals the counter and the number of identifiers |
| IdMapping.IdMapper.SetDepot | src/utils/id_mapper.py:29-30 | the depot code is registered as `AddCep` would register it, and the depot identifier becomes that code's identifier |
| IdMapping.IdMapper.IsDepotId | src/utils/id_mapper.py:32-33 | true exactly when a depot is set and has this identifier |
| IdMapping.IdMapper.RouteToIds | src/utils/id_mapper.py:38-39 | converts element by element with `IdOf`, keeping the length |
| IdMapping.IdMapper.RouteToCeps | src/utils/id_mapper.py:41-42 | converts element by element with `CepOf`, keeping the length |
| IdMapping.IdMapper.RouteRoundTrip | src/utils/id_mapper.py:38-42 | codes to identifiers and back returns any route of registered codes unchanged |
| IdMapping.IdMapper.IdsRoundTrip | src/utils/id_mapper.py:38-42 | identifiers to codes and back returns any route of registered identifiers unchanged |
| IdMapping.IdMapper.CepsExcludingDepot | src/utils/id_mapper.py:44-49 | exactly the registered codes other than the depot's, each once; the count is one fewer than registered when a depot is set |
| IdMapping.IdMapper.CepsOfIds | src/utils/id_mapper.py:44-56 | the codes of the ascending, depot-free identifiers are the registered non-depot codes, without repetition |
| IdMapping.IdMapper.IdsExcludingDepot | src/utils/id_mapper.py:51-56 | exactly the identifiers other than the depot's, ascending; the count is one fewer than registered when a depot is set |
| DataManagement.NearestFrom | src/utils/data_manager.py:43-44 | when no tabulated hour lies closer than `d`, the outward search from `d` returns a tabulated hour nearest to the hour asked, the earliest of equally near ones (`min` over the sorted hours) |
| DataManagement.NearestHour | src/utils/data_manager.py:43-44 | the hour a lookup uses is tabulated, is nearest to the hour asked, and is the earliest of equally near hours |
| DataManagement.NearestHourUnique | src/utils/data_manager.py:43-44 | only one hour meets that description, so the lookup is determined |
| DataManagement.NearestHourOfTabulated | src/utils/data_manager.py:43-44 | a tabulated hour is looked up as itself |
| DataManagement.WindIn | src/utils/data_manager.py:39-47 | calm from the north (0, "N") on an untabulated day; otherwise the wind at the nearest hour, which is the tabulated wind when the hour is tabulated |
| DataManagement.CoordsIn | src/utils/data_manager.py:53-54 | the stored coordinates of a known code, (0, 0) otherwise |
| DataManagement.DataManager.constructor | src/utils/data_manager.py:7-14 | the manager holds the given coordinates, registry and weather table |
| DataManagement.DataManager.ClimateAt | src/utils/data_manager.py:39-47 | as `WindIn`, on the manager's own weather table |
| DataManagement.DataManager.CoordsByCep | src/utils/data_manager.py:53-54 | the stored coordinates of a known code, (0, 0) otherwise |
| DataManagement.DataManager.CoordsById | src/utils/data_manager.py:49-51 | the coordinates of the identifier's code; for an unknown identifier, the lookup of the empty code, which is (0, 0) unless the empty string is a known code |
| DataManagement.DataManager.CepById | src/utils/data_manager.py:56-57 | the registry's code for the identifier, which maps back to the identifier when it is registered |
| DataManagement.DataManager.DepotId | src/utils/data_manager.py:62-63 | the registry's depot identifier, which the registry recognises as the depot |
| DataManagement.DataManager.RouteToCeps | src/utils/data_manager.py:65-66 | the registry's conversion, of the same length |
| DataManagement.DataManager.IdsExcludingDepot | src/utils/data_manager.py:59-60 | exactly the registered non-depot identifiers, ascending, one fewer than registered when a depot is set |
| DataManagement.CalmAfterLastDay | src/utils/data_manager.py:39-41 | with the configured seven-day weather table, every later day is calm from the north |
| Validation.Interior | src/core/validator.py:45 | `rota[1:-1]`: two shorter, element `k` is route element `k + 1`, empty for routes shorter than two |
| Validation.ValidateIds | src/core/validator.py:30-52 | a route shorter than three is "too short"; "not depot-bounded" only when an end is not the depot |
| Validation.ValidateCodes | src/core/validator.py:9-28 | never "too short"; an empty route is "not depot-bounded" |
| Validation.DepotCountTwice | src/core/validator.py:41-43 | with the depot at both ends, the count of the depot is two exactly when the interior is depot-free |
| Validation.ValidateIdsAcceptsWellFormed | src/core/validator.py:30-52 | the identifier validator accepts exactly the well-formed solutions: depot at both ends only, at least one visit, no repeats, one speed and one flag per leg |
| Validation.ValidateIdsNeverNothingVisited | src/core/validator.py:32-47 | the "nothing visited" rejection of the identifier validator is unreachable behind its length check |
| Validation.ValidateCodesAcceptsWellFormed | src/core/validator.py:9-28 | the code validator accepts exactly the well-formed solutions over the depot code |
| Validation.ValidateCodesNothingVisitedReachable | src/core/validator.py:21-23 | the code validator does answer "nothing visited", for the route depot, depot |
| Validation.MessageIdentifiesVerdict | src/core/validator.py:9-52 | each verdict comes with its own message, so the message returned tells which check decided |
| Validation.ValidatorsAgree | src/core/validator.py:9-52 | on routes whose codes and identifiers match one-to-one, with the depot matched, both validators accept the same solutions |
| CostCalculation.SnapshotAgrees | src/utils/data_manager.py:39-57 | the values the evaluator is specified over answer codes, coordinates and wind as the data manager does |
| CostCalculation.Tick | src/core/cost_calculator.py:179-190 | the end clock has carried seconds and minutes, which on either day are the start's time of day plus the leg, modulo an hour; on the same day it is the start plus the leg; it moves to 06:00 of the next day exactly when the leg reaches 19:00 |
| CostCalculation.FullCharge | src/core/cost_calculator.py:123-125 | a full battery at a speed is positive and at most `5000 * 0.93` |
| CostCalculation.Consumption | src/core/cost_calculator.py:152-155 | a leg consumes at least one battery unit per second of flight |
| CostCalculation.LandingCharge | src/core/cost_calculator.py:168 | a landing costs 80 when it starts at or after 17:00 and nothing before |
| CostCalculation.LegSeconds | src/core/cost_calculator.py:177 | every leg takes at least the 72-second stop |
| CostCalculation.TotalSeconds | src/core/cost_calculator.py:177 | the summed time of the legs is at least 72 seconds per leg |
| CostCalculation.Advance | src/core/cost_calculator.py:157-197 | a leg that does not overrun leaves a clock within the operating days and hours, and appends one entry to the trace |
| CostCalculation.AdvanceStops | src/core/cost_calculator.py:179-192 | a leg overruns exactly when its end clock falls past day 7; so it can overrun only when it starts on day 7 |
| CostCalculation.AdvanceClock | src/core/cost_calculator.py:172-197 | the new clock is the old one moved on by the flight and the stop (`Tick`); the appended entry starts at the old clock and ends at the new one, which is not earlier |
| CostCalculation.AdvanceFlies | src/core/cost_calculator.py:157-217 | the appended entry goes between the observed codes and coordinates at the given speed; it lands exactly when planned or when the battery cannot cover the flight and stop; total time grows by flight plus stop |
| CostCalculation.AdvanceCost | src/core/cost_calculator.py:157-168 | from 17:00 on, a leg whose battery cannot cover the flight and stop adds 160 (recharge and landing), a planned landing otherwise adds 80, and any other leg nothing; before 17:00 nothing is added; hence a late landing in the trace adds 80 to 160 |
| CostCalculation.AdvanceBattery | src/core/cost_calculator.py:157-170 | a forced leg leaves a full charge less the 72 of the stop; any other leg leaves the battery less the flight's consumption and the stop; hence the battery stays at or below a full charge, and non-negative when a full charge covers a stop |
| CostCalculation.Run | src/core/cost_calculator.py:133-197 | after `k` legs that did not overrun, the clock is in range and the trace has `k` entries |
| CostCalculation.Evaluate | src/core/cost_calculator.py:119-223 | a feasible evaluation has one trace entry per leg of `range(len(route) - 1)` (line 133), and fitness is total time plus ten times total cost |
| CostCalculation.EvaluateRoute | src/core/cost_calculator.py:119-223 | the loop, with its early return, yields the evaluation of the route |
| CostCalculation.FlyLegOf | src/core/cost_calculator.py:134-217 | one pass of the loop, observed through the data manager, takes the run from `i` legs to `i + 1` |
| CostCalculation.FlyLeg | src/core/cost_calculator.py:157-217 | the statements of the loop body compute the step the specification defines |
| CostCalculation.RunNext | src/core/cost_calculator.py:139-150 | the data manager's coordinates, codes and wind give the next state of the run |
| CostCalculation.RunStaysNone | src/core/cost_calculator.py:191-192 | once a leg overruns, the evaluation stays infeasible |
| CostCalculation.TraceTicks | src/core/cost_calculator.py:176-197 | every leg of the trace ends at its start moved on by its own flight and stop, with the rollover to the next day |
| CostCalculation.TraceChained | src/core/cost_calculator.py:126-197 | the trace starts at day 1 06:00:00; each leg starts where the previous ended; every clock is in range and each leg ends no earlier than it starts |
| CostCalculation.TraceFollowsRoute | src/core/cost_calculator.py:133-217 | trace entry `j` flies from stop `j` to stop `j + 1` at speed `j`, with the registry's codes and coordinates, and lands at least when planned |
| CostCalculation.TotalTimeIsSum | src/core/cost_calculator.py:177 | total time is the sum over the trace of flight time in the leg's starting wind plus the stop |
| CostCalculation.CostBetweenLateLandings | src/core/cost_calculator.py:157-168 | total cost lies between 80 and 160 per late landing of the trace |
| CostCalculation.BatteryInRange | src/core/cost_calculator.py:123-170 | with speeds from the drone's range, the battery stays between zero and a full charge |
| CostCalculation.FullChargeCoversStop | src/core/cost_calculator.py:159-167 | at every speed of the range, a full charge covers the 72-unit stop |
| CostCalculation.FeasibleFitness | src/core/cost_calculator.py:219 | a feasible fitness has total time equal to the trace's sum and is at least 72 per leg; the cost is non-negative |
| CostCalculation.NoLegsNoCost | src/core/cost_calculator.py:119-133 | a route of at most one stop evaluates to fitness 0 with an empty trace |
| CostCalculation.InfeasibleOnLastDay | src/core/cost_calculator.py:188-192 | an infeasible run has a last good prefix that reached day 7 and whose next leg overran |
| Individuals.Shuffle | src/algorithms/genetic_algorithm.py:27-28 | the shuffle is a permutation of its input |
| Individuals.CreateIndividual | src/algorithms/genetic_algorithm.py:26-36 | the random individual goes depot, a permutation of the locations, depot; it has one speed and flag per leg, and every speed is in range |
| Individuals.TourAccepted | src/core/validator.py:30-52 | a depot-to-depot tour over distinct non-depot locations, sized per leg, is accepted |
| Individuals.InnerReorderKeepsAccepted | src/core/validator.py:30-52 | reordering the inner stops of an accepted route, keeping the ends and the list lengths, keeps it accepted |
| Individuals.CreatedIsAccepted | src/algorithms/genetic_algorithm.py:26-36 | every random individual over distinct non-depot locations is a valid solution |
| Construction.NearestIndex | src/algorithms/genetic_algorithm.py:61-72 | the scan settles on the position at the least distance, with no earlier position as close |
| Construction.NearestIsUnique | src/algorithms/genetic_algorithm.py:66-70 | that position is unique |
| Construction.FirstIndex | src/algorithms/genetic_algorithm.py:50 | `list.remove` deletes the first occurrence |
| Construction.NearestIsFirstOccurrence | src/algorithms/genetic_algorithm.py:45-50 | the nearest candidate is the first occurrence of its identifier, so removing it removes that very candidate |
| Construction.FindNearest | src/algorithms/genetic_algorithm.py:61-72 | `None` exactly for no candidates; otherwise the candidate at the nearest position |
| Construction.GreedyOrder | src/algorithms/genetic_algorithm.py:40-51 | the nearest-neighbour order is a permutation of the locations |
| Construction.FirstStopIsNearest | src/algorithms/genetic_algorithm.py:44-51 | the first stop is at least as close to the start as any other stop |
| Construction.GreedyOrderIsGreedy | src/algorithms/genetic_algorithm.py:44-51 | each stop is at least as close to its predecessor as every later stop |
| Construction.NearestNeighbourTour | src/algorithms/genetic_algorithm.py:40-51 | the loop with its unvisited list produces the greedy order |
| Construction.BucketSpeed | src/algorithms/genetic_algorithm.py:88-97 | a speed in range: 36 below 1 km, 40-48 below 5 km, 52-64 below 15 km, 68-96 otherwise |
| Construction.BucketSpeedOnto | src/algorithms/genetic_algorithm.py:90-97 | every speed of a leg's bucket is drawn by some pick |
| Construction.GenerateSpeeds | src/algorithms/genetic_algorithm.py:81-101 | one speed per leg, each from the bucket of that leg's length with that leg's draw |
| Construction.PlannedConsumption | src/algorithms/genetic_algorithm.py:116-120 | a non-negative distance at a positive speed has non-negative planned consumption |
| Construction.Consumptions | src/algorithms/genetic_algorithm.py:111-120 | one planned consumption per leg |
| Construction.PlanLandingsAt | src/algorithms/genetic_algorithm.py:123-131 | leg `i` is flagged exactly when the battery left by the earlier legs cannot cover it plus the 72-unit stop |
| Construction.BatteryAfterInRange | src/algorithms/genetic_algorithm.py:109-131 | from a battery within a full charge, with no negative consumption, the planner's battery stays between zero and `5000 * 0.93` |
| Construction.NoLandingWhenCovered | src/algorithms/genetic_algorithm.py:123-131 | a battery covering all legs and stops means no flag, and leaves the battery less that demand |
| Construction.GenerateLandings | src/algorithms/genetic_algorithm.py:103-133 | the loop produces the planner's flags from a full battery over the route's planned consumptions |
| Construction.NearestNeighbourIndividual | src/algorithms/genetic_algorithm.py:38-59 | the greedy tour from the depot and back, bucketed speeds, planned flags; valid when the locations are distinct and exclude the depot |
| Recombination.RepairedShape | src/algorithms/genetic_algorithm.py:160-169 | the repaired route has the depot at both ends, every inner depot replaced by a location, every other inner stop kept, and exactly two depots when the depot is not a location |
| Recombination.RepairIgnoresEnds | src/algorithms/genetic_algorithm.py:160-169 | the repair's result depends only on the inner stops |
| Recombination.RepairKeepsTour | src/algorithms/genetic_algorithm.py:165-166 | a route with the depot at both ends and nowhere else is left unchanged |
| Recombination.ReplaceInnerDepots | src/algorithms/genetic_algorithm.py:165-169 | the in-place loop over inner depot positions yields the repaired route |
| Recombination.RepairRoute | src/algorithms/genetic_algorithm.py:156-171 | a route shorter than three is replaced by a random individual's route; any other is repaired |
| Recombination.CutPoint | src/algorithms/genetic_algorithm.py:140 | the cut point lies in 1..size-2 |
| Recombination.Crossover | src/algorithms/genetic_algorithm.py:135-154 | each child takes one parent's head and the other's tail at the same cut, for route, speeds and flags; the routes are repaired |
| Recombination.ChildOfEqualParents | src/algorithms/genetic_algorithm.py:139-154 | a child of same-size parents keeps the size, starts and ends at the depot (exactly twice when it is not a location), has one speed and flag per leg, and in-range speeds |
| Recombination.CrossoverMayRepeat | src/algorithms/genetic_algorithm.py:142-171 | two valid parents can yield a child that visits a location twice, which the validator rejects |
| Mutation.SwapPositions | src/algorithms/genetic_algorithm.py:182 | two distinct inner positions |
| Mutation.Swap | src/algorithms/genetic_algorithm.py:183 | the two elements are exchanged and all others kept |
| Mutation.SwapIsPermutation | src/algorithms/genetic_algorithm.py:183 | the swap is a permutation |
| Mutation.RedrawSpeeds | src/algorithms/genetic_algorithm.py:185-187 | each speed is redrawn from the range when its coin comes up, and kept otherwise |
| Mutation.FlipLandings | src/algorithms/genetic_algorithm.py:189-191 | each flag is negated exactly when its coin comes up |
| Mutation.TraditionalMutation | src/algorithms/genetic_algorithm.py:180-193 | the route is kept or has two drawn inner stops swapped; speeds are redrawn and flags flipped per coin; lengths are kept |
| Mutation.SwapInner | src/algorithms/genetic_algorithm.py:182-183 | swapping inner stops keeps the ends, the multiset of stops, and the multiset of inner stops |
| Mutation.TraditionalMutationKeepsShape | src/algorithms/genetic_algorithm.py:180-193 | the traditional mutation keeps the sizes, the ends, the stops and the speed range, so a valid solution stays valid |
| Mutation.TraditionalRouteKept | src/algorithms/genetic_algorithm.py:181-183 | the route keeps its size, ends and multiset of stops |
| Mutation.RedrawKeepsDomain | src/algorithms/genetic_algorithm.py:185-187 | redrawn speeds stay in range |
| Mutation.SectionBounds | src/algorithms/genetic_algorithm.py:204-205 | the section starts at 1 or later, spans at least two stops, and ends before the last stop |
| Mutation.WithoutDepot | src/algorithms/genetic_algorithm.py:209 | the section's stops less the depot: no longer, depot-free, and unchanged when the section is depot-free |
| Mutation.RebucketSpeeds | src/algorithms/genetic_algorithm.py:235-245 | each leg of the section gets a speed from its length's bucket; every other speed is kept |
| Mutation.RebucketedKeepsDomain | src/algorithms/genetic_algorithm.py:235-245 | rebucketed speeds stay in range |
| Mutation.ReorderSection | src/algorithms/genetic_algorithm.py:214-247 | the route is the head, the section's non-depot stops in greedy order from the entry stop, and the tail; the section's speeds are rebucketed; the flags are kept |
| Mutation.SectionMutation | src/algorithms/genetic_algorithm.py:195-247 | a route under six stops, or a section with fewer than two non-depot stops, is returned unchanged; otherwise the drawn section is reordered |
| Mutation.SpliceSameLength | src/algorithms/genetic_algorithm.py:229 | replacing a section by one as long keeps the length and every stop outside the section |
| Mutation.ReorderedKeepsTour | src/algorithms/genetic_algorithm.py:208-229 | a depot-free section is permuted in place: the rest of the route and the multiset of inner stops are kept |
| Mutation.SectionReorderKeepsShape | src/algorithms/genetic_algorithm.py:208-247 | a depot-bounded route stays depot-bounded and as long, speeds stay in range, and a valid solution stays valid |
| Mutation.Mutate | src/algorithms/genetic_algorithm.py:173-193 | the result is exactly what the chosen branch makes (`Mutated`: the section mutation when its coin came up, the traditional one otherwise); either branch keeps the list lengths, depot-boundedness, the speed range and validity |
| Selection.Fitness | src/algorithms/genetic_algorithm.py:273-279 | a finite fitness belongs only to a solution the validator accepts |
| Selection.FiniteFitness | src/algorithms/genetic_algorithm.py:273-279 | fitness is finite exactly for accepted solutions whose evaluation is feasible, and is then that evaluation's fitness |
| Selection.ScoreIndividual | src/algorithms/genetic_algorithm.py:274-279 | validate, then evaluate only a valid solution, giving its fitness |
| Selection.ScoresOf | src/algorithms/genetic_algorithm.py:272-279 | one fitness per member, in order |
| Selection.ScorePopulation | src/algorithms/genetic_algorithm.py:272-279 | the loop gives each member's fitness, in order |
| Selection.FirstMin | src/algorithms/genetic_algorithm.py:251-252 | the sample's first entry with the smallest fitness |
| Selection.FirstMinIndex | src/algorithms/genetic_algorithm.py:281-284 | a position with fitness no larger than any other and strictly smaller than every earlier one |
| Selection.FirstMinIsUnique | src/algorithms/genetic_algorithm.py:252 | the first minimum is unique |
| Selection.Sample | src/algorithms/genetic_algorithm.py:250 | `size` distinct positions below `n`; every position when `size == n` |
| Selection.Tournament | src/algorithms/genetic_algorithm.py:249-253 | the winner is a sampled position whose fitness is no larger than any other sampled one |
| Selection.FullTournamentPicksBest | src/algorithms/genetic_algorithm.py:249-253 | a tournament over the whole population picks a member of smallest fitness |
| Selection.RankFrom | src/algorithms/genetic_algorithm.py:288 | the ranking of positions `lo..n-1` holds exactly those positions |
| Selection.RankIsStableSort | src/algorithms/genetic_algorithm.py:288 | the ranking lists every position exactly once, by fitness, ties by position |
| Selection.Elites | src/algorithms/genetic_algorithm.py:288 | there are `elite_size` elites, or all positions when fewer |
| Selection.ElitesAreBest | src/algorithms/genetic_algorithm.py:288-290 | the elites are distinct positions, none with larger fitness than a position left out |
| Engine.NearestCount | src/algorithms/genetic_algorithm.py:260 | the nearest-neighbour share is the whole-number fifth of the population |
| Engine.NearestMembers | src/algorithms/genetic_algorithm.py:260-262 | `count` nearest-neighbour individuals, each well-shaped |
| Engine.RandomMembers | src/algorithms/genetic_algorithm.py:264-266 | `count` random individuals, the k-th from the k-th draws, each well-shaped |
| Engine.FirstPopulation | src/algorithms/genetic_algorithm.py:256-266 | the first fifth are nearest-neighbour and the rest random, all well-shaped, of the configured size |
| Engine.CreatedShaped | src/algorithms/genetic_algorithm.py:26-36 | a random individual is well-shaped |
| Engine.CrossedChildrenShaped | src/algorithms/genetic_algorithm.py:135-171 | crossing two well-shaped parents gives two well-shaped children |
| Engine.Breed | src/algorithms/genetic_algorithm.py:292-302 | the children are what `mutar` makes of the two tournament winners, or of their crossover children when the crossover coin came up (`PassBred`); both are well-shaped; a child copied from a valid winner stays valid |
| Engine.BreedPass | src/algorithms/genetic_algorithm.py:291-304 | one pass appends its two children, well-shaped, after the members already built, and keeps every member past the elites the child of the pass its position names |
| Engine.NextGeneration | src/algorithms/genetic_algorithm.py:286-306 | the next population has the configured size, is well-shaped, starts with the elites in rank order, and its member at offset `j` past the elites is child `j % 2` of breeding pass `j / 2` (`BredFrom`) |
| Engine.BestStep | src/algorithms/genetic_algorithm.py:281-284 | the update never raises the best fitness; it stays no larger than every fitness seen and, when finite, is some member's fitness |
| Engine.RecordStep | src/algorithms/genetic_algorithm.py:271-306 | one generation extends the record of populations, each made from the one before by `Generation` (elites first, then the bred children), and a non-increasing best history |
| Engine.GeneticSearch.constructor | src/algorithms/genetic_algorithm.py:9-24 | the search holds the registry's depot identifier and exactly the other registered identifiers, in ascending order, one fewer than the registered identifiers |
| Engine.GeneticSearch.Run | src/algorithms/genetic_algorithm.py:255-314 | the first population is the mixed one and each next one is made from the previous by `Generation`: its elites, then the children of that generation's breeding passes; the best fitness history never increases and ends at the returned score; that score is the smallest fitness seen and attained by some member; the best is well-shaped, and valid when its score is finite; with no finite score, the best is the first member of the final population |

## Left out

- The code-keyed `calcular_custo_rota` (`src/core/cost_calculator.py:16-117`) is not part of this model. It repeats the identifier-keyed loop over codes. The code-keyed validator is modelled (`Validation.ValidateCodes`).
- Loading the coordinate file (`_carregar_ceps`, `src/utils/data_manager.py:16-34`) is file I/O.
  - The data manager's constructor takes the resulting coordinate map and registry.
  - `obter_todos_ceps` returns a copy of that map, which under value semantics is the `ceps` field itself.
- The report, plotting and entry-point modules are not part of this model. Neither is the progress printing in `executar` (lines 308-309).
- Great-circle distance, flight bearing, wind-adjusted speed and the `ceil` of the flight time (`src/utils/calculations.py:4-57`) are floating-point geometry.
  - They enter as the `Distance` and `FlightTime` parameters.
  - Battery arithmetic is on exact reals, not IEEE doubles.
- Randomness is a stream of draws, and each comparison of `random.random()` with a rate is a coin among the draws. The rates 0.1, 0.8 and 0.3 are therefore not modelled: every property holds for every outcome of every coin.
- Aliasing is not modelled; individuals are values. In the source, elites, tournament winners copied without crossover, and the stored best individual are the same list objects that a later `mutar` swaps and redraws in place.
- Engine.GeneticSearch.Run: does not state that the returned individual has fitness `bestScore`. In the source that individual can be changed in place by a later mutation (see the aliasing item above). The validity it does state survives those in-place changes (`Mutation.TraditionalMutationKeepsShape`).
- Engine.Breed: does not state that a crossed-over child is valid. The repair can repeat a location (`Recombination.CrossoverMayRepeat`), so only the shape is kept; the child itself is given exactly (`PassBred`).
- CostCalculation.CostBetweenLateLandings: bounds the cost between 80 and 160 per late landing rather than giving it exactly. The exact figure depends on which landings the battery forced, which the trace does not record; `CostCalculation.AdvanceCost` gives the exact charge of each leg from the battery before it.
- When `_encontrar_vizinho_mais_proximo` returns `None` for non-empty candidates, the source breaks out of the loop (`src/algorithms/genetic_algorithm.py:46-47`, `221-222`). That only happens when every distance is infinite or NaN, which a real-valued `Distance` cannot produce.
- `int(population_size * 0.2)` is the whole-number fifth of the size; the floating-point product is not modelled.
- `GerenciadorDados.unibrasil_id` is not modelled.
  - It is always `None`, because `definir_unibrasil` returns nothing (`src/utils/id_mapper.py:29-30`), and no modelled code reads it.
  - The validator and the search read the registry's depot identifier.
  - The search's constructor requires that identifier to be set.
- The search requires at least two locations and a tournament no larger than the population.
  - With fewer locations, `random.sample(range(1, n - 1), 2)` raises.
  - With a larger tournament, `random.sample` in the tournament raises.
  - In the same way, the evaluator requires one speed and one landing flag per leg and at least one speed, which the source indexes unchecked.
- The landing planner divides by the speed (`src/algorithms/genetic_algorithm.py:117`). `Construction.GenerateLandings` therefore requires non-zero speeds; every speed the search generates is at least 36.
