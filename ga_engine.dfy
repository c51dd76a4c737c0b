/** The genetic search of src/algorithms/genetic_algorithm.py as a whole:
    the class that holds the data, the depot and the locations, the mixed
    initial population, one generation (elites, then bred children) and
    `executar`, the generation loop that keeps the best fitness seen. */
module Engine {
  import opened Common
  import opened Config
  import opened Validation
  import opened DataManagement
  import opened CostCalculation
  import opened Individuals
  import opened Construction
  import opened Recombination
  import opened Mutation
  import opened Selection

  /** `GENETIC_CONFIG` without its two rates: every comparison of a draw
      with a rate is a coin among the draws. */
  datatype Settings = Settings(populationSize: nat, generations: nat, eliteSize: nat, tournamentSize: nat)

  const DEFAULT_SETTINGS: Settings := Settings(POPULATION_SIZE, GENERATIONS, ELITE_SIZE, TOURNAMENT_SIZE)

  /** The draws of one pass of the breeding loop: the two tournaments, the
      crossover coin and the crossover's draws, and the mutation of each
      child. */
  datatype BreedDraws = BreedDraws(first: Stream, second: Stream, cross: bool, crossDraws: CrossDraws,
                                   mutate1: MutateDraws, mutate2: MutateDraws)

  /** Every draw of `executar`: the speed draws of the k-th
      nearest-neighbour individual, the draws of the k-th random
      individual, and the breeding draws of each pass of each generation. */
  datatype SearchDraws = SearchDraws(nearest: nat -> Stream, random: nat -> Draws, breed: (nat, nat) -> BreedDraws)

  /** The shape every member of the population keeps: one stop per location
      between two visits of the depot, one speed and one landing flag per
      leg, every speed in the domain. */
  predicate Shaped(depot: int, ids: seq<int>, ind: Individual) {
    && |ind.route| == |ids| + 2 && DepotBounded(depot, ind.route)
    && Sized(ind) && SpeedsOk(ind.speeds)
  }

  /** A population of `size` well-shaped members. */
  predicate Population(depot: int, ids: seq<int>, size: nat, pop: seq<Individual>) {
    |pop| == size && forall i :: 0 <= i < |pop| ==> Shaped(depot, ids, pop[i])
  }

  /** `int(population_size * 0.2)`: the product of a whole number and the
      double nearest 0.2 never rounds across a whole number, so it is the
      whole-number fifth. */
  function NearestCount(size: nat): (n: nat)
    ensures 5 * n <= size < 5 * n + 5
  {
    size / 5
  }

  /** An individual of the nearest-neighbour construction: the greedy
      tour, speeds in the domain, and the planned landings. */
  predicate NearestBuilt(depot: int, ids: seq<int>, dist: Distance, ind: Individual) {
    && ind.route == [depot] + GreedyOrder(dist, depot, ids) + [depot]
    && Sized(ind) && SpeedsOk(ind.speeds)
    && ind.landings == PlanLandings(FULL_BATTERY, Consumptions(dist, ind.route, ind.speeds))
  }

  /** The population `executar` starts from: a fifth built by the
      nearest-neighbour construction, then the random individuals in the
      order they are drawn. */
  predicate InitialPopulation(depot: int, ids: seq<int>, dist: Distance, size: nat, d: SearchDraws, pop: seq<Individual>) {
    && |pop| == size
    && NearestAll(depot, ids, dist, pop[..NearestCount(size)])
    && RandomBuilt(depot, ids, d, pop[NearestCount(size)..])
  }

  /** Each member an individual of the nearest-neighbour construction and well-shaped. */
  predicate NearestAll(depot: int, ids: seq<int>, dist: Distance, pop: seq<Individual>) {
    forall j :: 0 <= j < |pop| ==> NearestBuilt(depot, ids, dist, pop[j]) && Shaped(depot, ids, pop[j])
  }

  /** Appending an individual of the nearest-neighbour construction. */
  lemma NearestAllStep(depot: int, ids: seq<int>, dist: Distance, pop: seq<Individual>, ind: Individual)
    requires depot !in ids && NearestAll(depot, ids, dist, pop)
    requires Tour(depot, ids, ind.route) && NearestBuilt(depot, ids, dist, ind)
    ensures NearestAll(depot, ids, dist, pop + [ind])
  {
    TourIsDepotBounded(depot, ids, ind.route);
    var next := pop + [ind];
    forall j | 0 <= j < |next| ensures NearestBuilt(depot, ids, dist, next[j]) && Shaped(depot, ids, next[j]) {
      if j < |pop| { assert next[j] == pop[j]; } else { assert next[j] == ind; }
    }
  }

  /** The first loop of `executar`: `count` nearest-neighbour individuals. */
  method NearestMembers(depot: int, ids: seq<int>, dist: Distance, count: nat, d: SearchDraws) returns (pop: seq<Individual>)
    requires depot !in ids
    ensures |pop| == count && NearestAll(depot, ids, dist, pop)
  {
    pop := [];
    for k := 0 to count
      invariant |pop| == k && NearestAll(depot, ids, dist, pop)
    {
      var ind := NearestNeighbourIndividual(depot, ids, dist, d.nearest(k));
      NearestAllStep(depot, ids, dist, pop, ind);
      pop := pop + [ind];
    }
  }

  /** The first `|pop|` random individuals of the draws, each well-shaped. */
  predicate RandomBuilt(depot: int, ids: seq<int>, d: SearchDraws, pop: seq<Individual>) {
    forall j :: 0 <= j < |pop| ==> pop[j] == CreateIndividual(depot, ids, d.random(j)) && Shaped(depot, ids, pop[j])
  }

  /** Drawing the next random individual extends the random members. */
  lemma RandomBuiltStep(depot: int, ids: seq<int>, d: SearchDraws, pop: seq<Individual>)
    requires depot !in ids && RandomBuilt(depot, ids, d, pop)
    ensures RandomBuilt(depot, ids, d, pop + [CreateIndividual(depot, ids, d.random(|pop|))])
  {
    var ind := CreateIndividual(depot, ids, d.random(|pop|));
    CreatedShaped(depot, ids, d.random(|pop|));
    var next := pop + [ind];
    forall j | 0 <= j < |next|
      ensures next[j] == CreateIndividual(depot, ids, d.random(j)) && Shaped(depot, ids, next[j])
    {
      if j < |pop| { assert next[j] == pop[j]; } else { assert next[j] == ind; }
    }
  }

  /** The second loop of `executar`: `count` random individuals. */
  method RandomMembers(depot: int, ids: seq<int>, count: nat, d: SearchDraws) returns (pop: seq<Individual>)
    requires depot !in ids
    ensures |pop| == count && RandomBuilt(depot, ids, d, pop)
  {
    pop := [];
    for k := 0 to count
      invariant |pop| == k && RandomBuilt(depot, ids, d, pop)
    {
      RandomBuiltStep(depot, ids, d, pop);
      pop := pop + [CreateIndividual(depot, ids, d.random(k))];
    }
  }

  /** The mixed first population of `executar`. */
  method FirstPopulation(depot: int, ids: seq<int>, dist: Distance, size: nat, d: SearchDraws) returns (pop: seq<Individual>)
    requires depot !in ids
    ensures InitialPopulation(depot, ids, dist, size, d, pop)
    ensures Population(depot, ids, size, pop)
  {
    var nearest := NearestCount(size);
    var a := NearestMembers(depot, ids, dist, nearest, d);
    var b := RandomMembers(depot, ids, size - nearest, d);
    MixedPopulation(depot, ids, dist, size, d, a, b);
    pop := a + b;
  }

  /** The nearest-neighbour members followed by the random ones make the
      initial population. */
  lemma MixedPopulation(depot: int, ids: seq<int>, dist: Distance, size: nat, d: SearchDraws,
                        a: seq<Individual>, b: seq<Individual>)
    requires |a| == NearestCount(size) && NearestAll(depot, ids, dist, a)
    requires |a| + |b| == size && RandomBuilt(depot, ids, d, b)
    ensures InitialPopulation(depot, ids, dist, size, d, a + b)
    ensures Population(depot, ids, size, a + b)
  {
    assert (a + b)[..|a|] == a && (a + b)[|a|..] == b;
    MixedShaped(depot, ids, dist, d, a, b);
  }

  /** Every member of the mixed population is well-shaped. */
  lemma MixedShaped(depot: int, ids: seq<int>, dist: Distance, d: SearchDraws, a: seq<Individual>, b: seq<Individual>)
    requires NearestAll(depot, ids, dist, a) && RandomBuilt(depot, ids, d, b)
    ensures forall k :: 0 <= k < |a + b| ==> Shaped(depot, ids, (a + b)[k])
  {
    var pop := a + b;
    forall k | 0 <= k < |pop| ensures Shaped(depot, ids, pop[k]) {
      if k < |a| { assert pop[k] == a[k]; } else { assert pop[k] == b[k - |a|]; }
    }
  }

  /** A random individual over locations other than the depot is well-shaped. */
  lemma CreatedShaped(depot: int, ids: seq<int>, d: Draws)
    requires depot !in ids
    ensures Shaped(depot, ids, CreateIndividual(depot, ids, d))
  {
    TourIsDepotBounded(depot, ids, CreateIndividual(depot, ids, d).route);
  }

  /** A tour of locations other than the depot is depot-bounded. */
  lemma TourIsDepotBounded(depot: int, ids: seq<int>, route: seq<int>)
    requires Tour(depot, ids, route) && depot !in ids
    ensures DepotBounded(depot, route)
  {
    assert depot !in multiset(ids);
  }

  /** The children of two well-shaped parents are well-shaped: the repair
      leaves the depot at both ends only, since it is not a location. */
  lemma CrossedChildrenShaped(depot: int, ids: seq<int>, p1: Individual, p2: Individual, d: CrossDraws,
                              c1: Individual, c2: Individual)
    requires |ids| >= 2 && depot !in ids
    requires Shaped(depot, ids, p1) && Shaped(depot, ids, p2)
    requires var p := CutPoint(|p1.route|, d.point);
      && c1.route == ChildRoute(depot, ids, p1.route, p2.route, p, d.choice1, d.fallback1)
      && c1.speeds == Take(p1.speeds, p) + Drop(p2.speeds, p)
      && c1.landings == Take(p1.landings, p) + Drop(p2.landings, p)
    requires var p := CutPoint(|p1.route|, d.point);
      && c2.route == ChildRoute(depot, ids, p2.route, p1.route, p, d.choice2, d.fallback2)
      && c2.speeds == Take(p2.speeds, p) + Drop(p1.speeds, p)
      && c2.landings == Take(p2.landings, p) + Drop(p1.landings, p)
    ensures Shaped(depot, ids, c1) && Shaped(depot, ids, c2)
  {
    var p := CutPoint(|p1.route|, d.point);
    CrossedChildShaped(depot, ids, p1, p2, p, d.choice1, d.fallback1, c1);
    CrossedChildShaped(depot, ids, p2, p1, p, d.choice2, d.fallback2, c2);
  }

  /** One child of two well-shaped parents cut at `p` is well-shaped. */
  lemma CrossedChildShaped(depot: int, ids: seq<int>, a: Individual, b: Individual, p: nat, choice: Stream,
                           fallback: Draws, c: Individual)
    requires |ids| >= 2 && depot !in ids
    requires Shaped(depot, ids, a) && Shaped(depot, ids, b) && 1 <= p <= |a.route| - 2
    requires c.route == ChildRoute(depot, ids, a.route, b.route, p, choice, fallback)
    requires c.speeds == Take(a.speeds, p) + Drop(b.speeds, p)
    requires c.landings == Take(a.landings, p) + Drop(b.landings, p)
    ensures Shaped(depot, ids, c)
  {
    ChildOfEqualParents(depot, ids, a, b, p, choice, fallback);
    DepotCountTwice(depot, c.route);
  }

  /** The two individuals one pass of the breeding loop hands to `mutar`,
      given its two tournament winners: the winners themselves, or their
      crossed-over children when the crossover coin came up. */
  function Offspring(depot: int, ids: seq<int>, p1: Individual, p2: Individual, d: BreedDraws): (Individual, Individual)
    requires |ids| >= 1 && |p1.route| >= 3
  {
    if !d.cross then (p1, p2)
    else
      var x, p := d.crossDraws, CutPoint(|p1.route|, d.crossDraws.point);
      (Individual(ChildRoute(depot, ids, p1.route, p2.route, p, x.choice1, x.fallback1),
                  Take(p1.speeds, p) + Drop(p2.speeds, p), Take(p1.landings, p) + Drop(p2.landings, p)),
       Individual(ChildRoute(depot, ids, p2.route, p1.route, p, x.choice2, x.fallback2),
                  Take(p2.speeds, p) + Drop(p1.speeds, p), Take(p2.landings, p) + Drop(p1.landings, p)))
  }

  /** One pass of the breeding loop: two tournament winners, crossed over
      when the coin says so and copied otherwise, then each child mutated.
      The children are well-shaped, and a child copied from a valid winner
      is valid. */
  method Breed(depot: int, ids: seq<int>, dist: Distance, pop: seq<Individual>, scores: seq<Score>, size: nat,
               d: BreedDraws)
    returns (c1: Individual, c2: Individual)
    requires |ids| >= 2 && depot !in ids
    requires |scores| == |pop| && 1 <= size <= |pop|
    requires forall i :: 0 <= i < |pop| ==> Shaped(depot, ids, pop[i])
    ensures Shaped(depot, ids, c1) && Shaped(depot, ids, c2)
    ensures var p1 := pop[Tournament(scores, size, d.first)];
      !d.cross && ValidateIds(depot, p1.route, p1.speeds, p1.landings) == Accepted ==>
      ValidateIds(depot, c1.route, c1.speeds, c1.landings) == Accepted
    ensures var p2 := pop[Tournament(scores, size, d.second)];
      !d.cross && ValidateIds(depot, p2.route, p2.speeds, p2.landings) == Accepted ==>
      ValidateIds(depot, c2.route, c2.speeds, c2.landings) == Accepted
    ensures PassBred(depot, ids, dist, pop, scores, size, d, c1, c2)
  {
    var p1 := pop[Tournament(scores, size, d.first)];
    var p2 := pop[Tournament(scores, size, d.second)];
    if d.cross {
      c1, c2 := Crossover(depot, ids, p1, p2, d.crossDraws);
      CrossedChildrenShaped(depot, ids, p1, p2, d.crossDraws, c1, c2);
    } else {
      c1, c2 := p1, p2;
    }
    c1 := Mutate(depot, dist, c1, d.mutate1);
    c2 := Mutate(depot, dist, c2, d.mutate2);
  }

  /** What one breeding pass makes: `c1` and `c2` are what `mutar` makes
      of the pass's two offspring. */
  predicate PassBred(depot: int, ids: seq<int>, dist: Distance, pop: seq<Individual>, scores: seq<Score>, size: nat,
                     d: BreedDraws, c1: Individual, c2: Individual)
    requires |ids| >= 2 && |scores| == |pop| && 1 <= size <= |pop|
    requires forall i :: 0 <= i < |pop| ==> Shaped(depot, ids, pop[i])
  {
    var t := Tournament(scores, size, d.first);
    assert Shaped(depot, ids, pop[t]);
    var o := Offspring(depot, ids, pop[t], pop[Tournament(scores, size, d.second)], d);
    Mutated(depot, dist, o.0, d.mutate1, c1) && Mutated(depot, dist, o.1, d.mutate2, c2)
  }

  /** Member `k` of `next`, at offset `j = k - n` past the elites, is
      what `mutar` made of offspring `j % 2` of breeding pass `j / 2` of
      generation `gen`. */
  predicate BredAt(depot: int, ids: seq<int>, dist: Distance, s: Settings, pop: seq<Individual>,
                   scores: seq<Score>, breed: (nat, nat) -> BreedDraws, gen: nat, n: nat, next: seq<Individual>, k: nat)
    requires |ids| >= 2 && |scores| == |pop| && 1 <= s.tournamentSize <= |pop|
    requires forall i :: 0 <= i < |pop| ==> Shaped(depot, ids, pop[i])
    requires n <= k < |next|
  {
    var j := k - n;
    var d := breed(gen, j / 2);
    var t := Tournament(scores, s.tournamentSize, d.first);
    assert Shaped(depot, ids, pop[t]);
    var o := Offspring(depot, ids, pop[t], pop[Tournament(scores, s.tournamentSize, d.second)], d);
    if j % 2 == 0 then Mutated(depot, dist, o.0, d.mutate1, next[k]) else Mutated(depot, dist, o.1, d.mutate2, next[k])
  }

  /** Every member of `next` from position `n` on was bred in the pass its
      offset from `n` names. */
  predicate BredFrom(depot: int, ids: seq<int>, dist: Distance, s: Settings, pop: seq<Individual>,
                     scores: seq<Score>, breed: (nat, nat) -> BreedDraws, gen: nat, n: nat, next: seq<Individual>)
    requires |ids| >= 2 && |scores| == |pop| && 1 <= s.tournamentSize <= |pop|
    requires forall i :: 0 <= i < |pop| ==> Shaped(depot, ids, pop[i])
  {
    forall k :: n <= k < |next| ==> BredAt(depot, ids, dist, s, pop, scores, breed, gen, n, next, k)
  }

  /** Appending the two children of the next pass keeps `BredFrom`. */
  lemma BredFromStep(depot: int, ids: seq<int>, dist: Distance, s: Settings, pop: seq<Individual>,
                     scores: seq<Score>, breed: (nat, nat) -> BreedDraws, gen: nat, n: nat, next: seq<Individual>,
                     pass: nat, c1: Individual, c2: Individual)
    requires |ids| >= 2 && |scores| == |pop| && 1 <= s.tournamentSize <= |pop|
    requires forall i :: 0 <= i < |pop| ==> Shaped(depot, ids, pop[i])
    requires |next| == n + 2 * pass && BredFrom(depot, ids, dist, s, pop, scores, breed, gen, n, next)
    requires PassBred(depot, ids, dist, pop, scores, s.tournamentSize, breed(gen, pass), c1, c2)
    ensures BredFrom(depot, ids, dist, s, pop, scores, breed, gen, n, next + [c1, c2])
  {
    var next' := next + [c1, c2];
    forall k | n <= k < |next'| ensures BredAt(depot, ids, dist, s, pop, scores, breed, gen, n, next', k) {
      if k < |next| {
        assert next'[k] == next[k];
        assert BredAt(depot, ids, dist, s, pop, scores, breed, gen, n, next, k);
      } else {
        assert (k - n) / 2 == pass;
      }
    }
  }

  /** Cutting the population to its size keeps `BredFrom`. */
  lemma BredFromPrefix(depot: int, ids: seq<int>, dist: Distance, s: Settings, pop: seq<Individual>,
                       scores: seq<Score>, breed: (nat, nat) -> BreedDraws, gen: nat, n: nat, next: seq<Individual>,
                       m: nat)
    requires |ids| >= 2 && |scores| == |pop| && 1 <= s.tournamentSize <= |pop|
    requires forall i :: 0 <= i < |pop| ==> Shaped(depot, ids, pop[i])
    requires m <= |next| && BredFrom(depot, ids, dist, s, pop, scores, breed, gen, n, next)
    ensures BredFrom(depot, ids, dist, s, pop, scores, breed, gen, n, next[..m])
  {
    forall k | n <= k < m ensures BredAt(depot, ids, dist, s, pop, scores, breed, gen, n, next[..m], k) {
      assert next[..m][k] == next[k];
      assert BredAt(depot, ids, dist, s, pop, scores, breed, gen, n, next, k);
    }
  }

  /** One pass of the breeding loop of generation `gen`, appending its two
      children to the population being built. */
  method BreedPass(depot: int, ids: seq<int>, dist: Distance, s: Settings, pop: seq<Individual>,
                   scores: seq<Score>, breed: (nat, nat) -> BreedDraws, gen: nat, n: nat, next: seq<Individual>,
                   pass: nat)
    returns (grown: seq<Individual>)
    requires |ids| >= 2 && depot !in ids && |scores| == |pop| && 1 <= s.tournamentSize <= |pop|
    requires forall i :: 0 <= i < |pop| ==> Shaped(depot, ids, pop[i])
    requires forall i :: 0 <= i < |next| ==> Shaped(depot, ids, next[i])
    requires |next| == n + 2 * pass && BredFrom(depot, ids, dist, s, pop, scores, breed, gen, n, next)
    ensures |grown| == |next| + 2 && grown[..|next|] == next
    ensures forall i :: 0 <= i < |grown| ==> Shaped(depot, ids, grown[i])
    ensures BredFrom(depot, ids, dist, s, pop, scores, breed, gen, n, grown)
  {
    var c1, c2 := Breed(depot, ids, dist, pop, scores, s.tournamentSize, breed(gen, pass));
    BredFromStep(depot, ids, dist, s, pop, scores, breed, gen, n, next, pass, c1, c2);
    AppendShaped(depot, ids, next, c1, c2);
    grown := next + [c1, c2];
  }

  /** Appending two well-shaped children to well-shaped members keeps them
      first and keeps every member well-shaped. */
  lemma AppendShaped(depot: int, ids: seq<int>, next: seq<Individual>, c1: Individual, c2: Individual)
    requires forall i :: 0 <= i < |next| ==> Shaped(depot, ids, next[i])
    requires Shaped(depot, ids, c1) && Shaped(depot, ids, c2)
    ensures (next + [c1, c2])[..|next|] == next
    ensures forall i :: 0 <= i < |next| + 2 ==> Shaped(depot, ids, (next + [c1, c2])[i])
  {
    var grown := next + [c1, c2];
    assert grown[..|next|] == next;
    forall i | 0 <= i < |grown| ensures Shaped(depot, ids, grown[i]) {
      if i < |next| { assert grown[i] == next[i]; }
    }
  }

  /** The next population: the elites of this one first, then pairs of bred
      children of generation `gen` until the population is full, cut to its
      size. */
  method NextGeneration(depot: int, ids: seq<int>, dist: Distance, s: Settings, pop: seq<Individual>,
                        scores: seq<Score>, breed: (nat, nat) -> BreedDraws, gen: nat)
    returns (next: seq<Individual>)
    requires |ids| >= 2 && depot !in ids
    requires Population(depot, ids, s.populationSize, pop) && |scores| == |pop|
    requires 1 <= s.tournamentSize <= s.populationSize
    ensures Population(depot, ids, s.populationSize, next)
    ensures var e := Elites(scores, s.eliteSize);
      forall k :: 0 <= k < |e| ==> next[k] == pop[e[k]]
    ensures BredFrom(depot, ids, dist, s, pop, scores, breed, gen, |Elites(scores, s.eliteSize)|, next)
  {
    var e := Elites(scores, s.eliteSize);
    ElitesAreBest(scores, s.eliteSize);
    next := seq(|e|, k requires 0 <= k < |e| => pop[e[k]]);
    var pass := 0;
    while |next| < s.populationSize
      invariant |e| <= |next| && |next| == |e| + 2 * pass
      invariant forall k :: 0 <= k < |e| ==> next[k] == pop[e[k]]
      invariant forall i :: 0 <= i < |next| ==> Shaped(depot, ids, next[i])
      invariant BredFrom(depot, ids, dist, s, pop, scores, breed, gen, |e|, next)
      decreases s.populationSize - |next|
    {
      var grown := BreedPass(depot, ids, dist, s, pop, scores, breed, gen, |e|, next, pass);
      assert forall k :: 0 <= k < |e| ==> grown[k] == grown[..|next|][k];
      next := grown;
      pass := pass + 1;
    }
    BredFromPrefix(depot, ids, dist, s, pop, scores, breed, gen, |e|, next, s.populationSize);
    next := next[..s.populationSize];
  }

  /** Every fitness of the first `g` populations is at least `best`. */
  predicate BestBelow(w: Snapshot, flight: FlightTime, depot: int, seen: seq<seq<Individual>>, g: nat, best: Score)
    requires HoursTabulated(w.weather) && g <= |seen|
  {
    forall h, i :: 0 <= h < g && 0 <= i < |seen[h]| ==> Le(best, Fitness(w, flight, depot, seen[h][i]))
  }

  /** A finite `best` is the fitness of a member of one of the first `g`
      populations. */
  predicate BestAttained(w: Snapshot, flight: FlightTime, depot: int, seen: seq<seq<Individual>>, g: nat, best: Score)
    requires HoursTabulated(w.weather) && g <= |seen|
  {
    best.Finite? ==> exists h, i :: 0 <= h < g && 0 <= i < |seen[h]| && Fitness(w, flight, depot, seen[h][i]) == best
  }

  /** The update of `melhor_fitness` after scoring population `g`: taking
      its first minimum when that is smaller keeps the best at the smallest
      fitness seen so far, whatever population comes next. */
  lemma BestStep(w: Snapshot, flight: FlightTime, depot: int, seen: seq<seq<Individual>>, g: nat, best: Score,
                 next: seq<Individual>)
    requires HoursTabulated(w.weather) && g + 1 == |seen| && |seen[g]| >= 1
    requires BestBelow(w, flight, depot, seen, g, best) && BestAttained(w, flight, depot, seen, g, best)
    ensures var scores := ScoresOf(w, flight, depot, seen[g]);
      var k := FirstMinIndex(scores);
      var best' := if Lt(scores[k], best) then scores[k] else best;
      && Le(best', best)
      && BestBelow(w, flight, depot, seen + [next], g + 1, best')
      && BestAttained(w, flight, depot, seen + [next], g + 1, best')
  {
    var scores := ScoresOf(w, flight, depot, seen[g]);
    var k := FirstMinIndex(scores);
    var best' := if Lt(scores[k], best) then scores[k] else best;
    var seen' := seen + [next];
    forall h, i | 0 <= h < g + 1 && 0 <= i < |seen'[h]| ensures Le(best', Fitness(w, flight, depot, seen'[h][i])) {
      assert seen'[h] == seen[h];
      if h == g {
        assert Fitness(w, flight, depot, seen[h][i]) == scores[i];
      }
    }
    if Lt(scores[k], best) {
      assert seen'[g][k] == seen[g][k];
      assert Fitness(w, flight, depot, seen'[g][k]) == best';
    } else if best.Finite? {
      var h, i :| 0 <= h < g && 0 <= i < |seen[h]| && Fitness(w, flight, depot, seen[h][i]) == best;
      assert seen'[h] == seen[h];
    }
  }

  /** The next population starts with the elites of `pop`. */
  predicate CarriesElites(w: Snapshot, flight: FlightTime, depot: int, s: Settings, pop: seq<Individual>,
                          next: seq<Individual>)
    requires HoursTabulated(w.weather)
  {
    var e := Elites(ScoresOf(w, flight, depot, pop), s.eliteSize);
    forall k :: 0 <= k < |e| ==> k < |next| && next[k] == pop[e[k]]
  }

  /** Generation `gen` turned `pop` into `next`: the elites of `pop`
      first, then the children bred by its passes. */
  predicate Generation(w: Snapshot, flight: FlightTime, depot: int, ids: seq<int>, dist: Distance, s: Settings,
                       breed: (nat, nat) -> BreedDraws, gen: nat, pop: seq<Individual>, next: seq<Individual>)
    requires HoursTabulated(w.weather)
    requires |ids| >= 2 && 1 <= s.tournamentSize <= s.populationSize
    requires Population(depot, ids, s.populationSize, pop)
  {
    var scores := ScoresOf(w, flight, depot, pop);
    && CarriesElites(w, flight, depot, s, pop, next)
    && BredFrom(depot, ids, dist, s, pop, scores, breed, gen, |Elites(scores, s.eliteSize)|, next)
  }

  /** What `executar` has done after `g` generations: `seen` holds the
      first `g + 1` populations, each of them well-shaped and each after the
      first made from the one before by `Generation`; `history` holds the
      best fitness after each generation, never increasing. */
  predicate Record(w: Snapshot, flight: FlightTime, depot: int, ids: seq<int>, dist: Distance, s: Settings,
                   breed: (nat, nat) -> BreedDraws, seen: seq<seq<Individual>>, history: seq<Score>, g: nat)
    requires HoursTabulated(w.weather)
    requires |ids| >= 2 && 1 <= s.tournamentSize <= s.populationSize
  {
    && |seen| == g + 1 && |history| == g
    && (forall h :: 0 <= h < |seen| ==> Population(depot, ids, s.populationSize, seen[h]))
    && (forall h :: 0 <= h < g ==> Generation(w, flight, depot, ids, dist, s, breed, h, seen[h], seen[h + 1]))
    && (forall h :: 0 < h < g ==> Le(history[h], history[h - 1]))
  }

  /** One generation extends the record. */
  lemma RecordStep(w: Snapshot, flight: FlightTime, depot: int, ids: seq<int>, dist: Distance, s: Settings,
                   breed: (nat, nat) -> BreedDraws, seen: seq<seq<Individual>>, history: seq<Score>, g: nat,
                   next: seq<Individual>, best: Score)
    requires HoursTabulated(w.weather)
    requires |ids| >= 2 && 1 <= s.tournamentSize <= s.populationSize
    requires Record(w, flight, depot, ids, dist, s, breed, seen, history, g)
    requires Population(depot, ids, s.populationSize, next)
    requires Generation(w, flight, depot, ids, dist, s, breed, g, seen[g], next)
    requires g > 0 ==> Le(best, history[g - 1])
    ensures Record(w, flight, depot, ids, dist, s, breed, seen + [next], history + [best], g + 1)
  {
    var seen', history' := seen + [next], history + [best];
    forall h | 0 <= h < |seen'| ensures Population(depot, ids, s.populationSize, seen'[h]) {
      if h <= g { assert seen'[h] == seen[h]; }
    }
    forall h | 0 <= h < g + 1 ensures Generation(w, flight, depot, ids, dist, s, breed, h, seen'[h], seen'[h + 1]) {
      assert seen'[h] == seen[h] && seen'[h + 1] == if h < g then seen[h + 1] else next;
    }
    forall h | 0 < h < g + 1 ensures Le(history'[h], history'[h - 1]) {
      assert history'[h - 1] == history[h - 1];
      if h < g { assert history'[h] == history[h]; }
    }
  }

  /** The search: the data it reads, the flight-time and distance oracles,
      its settings, the depot and the locations to visit. */
  class GeneticSearch {
    const data: DataManager
    const flight: FlightTime
    const dist: Distance
    const settings: Settings
    const depot: int
    const ids: seq<int>

    /** `__init__`: the depot's identifier and every other registered
        identifier, in ascending order, from the data manager. */
    constructor (data: DataManager, flight: FlightTime, dist: Distance, settings: Settings)
      requires data.mapper.Valid() && data.DepotId().Some?
      ensures this.data == data && this.flight == flight && this.dist == dist && this.settings == settings
      ensures depot == data.DepotId().value
      ensures forall i :: i in ids <==> 0 <= i < data.mapper.nextId && i != depot
      ensures Distinct(ids) && depot !in ids
      ensures Ascending(ids) && |ids| == data.mapper.nextId - 1
    {
      var list := data.IdsExcludingDepot();
      this.data := data;
      this.flight := flight;
      this.dist := dist;
      this.settings := settings;
      this.depot := data.DepotId().value;
      this.ids := list;
    }

    /** `executar`. `seen` holds the population at the start of every
        generation and the final one; `history` the best fitness after
        every generation. */
    method Run(draws: SearchDraws)
      returns (best: Individual, bestScore: Score, ghost seen: seq<seq<Individual>>, ghost history: seq<Score>)
      requires data.Valid() && |ids| >= 2 && depot !in ids
      requires 1 <= settings.tournamentSize <= settings.populationSize
      ensures var w := SnapshotOf(data);
        && Record(w, flight, depot, ids, dist, settings, draws.breed, seen, history, settings.generations)
        && InitialPopulation(depot, ids, dist, settings.populationSize, draws, seen[0])
        && (settings.generations > 0 ==> history[settings.generations - 1] == bestScore)
        && BestBelow(w, flight, depot, seen, settings.generations, bestScore)
        && BestAttained(w, flight, depot, seen, settings.generations, bestScore)
      ensures Shaped(depot, ids, best)
      ensures bestScore.Finite? ==> ValidateIds(depot, best.route, best.speeds, best.landings) == Accepted
      ensures bestScore.Infinite? ==> best == seen[settings.generations][0]
    {
      ghost var w := SnapshotOf(data);
      var size := settings.populationSize;
      var pop := FirstPopulation(depot, ids, dist, size, draws);
      ghost var first := pop;
      seen := [pop];
      history := [];
      var found: Option<Individual> := None;
      bestScore := Infinite;
      for g := 0 to settings.generations
        invariant Record(w, flight, depot, ids, dist, settings, draws.breed, seen, history, g)
        invariant seen[0] == first && seen[g] == pop
        invariant g > 0 ==> history[g - 1] == bestScore
        invariant BestBelow(w, flight, depot, seen, g, bestScore) && BestAttained(w, flight, depot, seen, g, bestScore)
        invariant found.None? <==> bestScore.Infinite?
        invariant found.Some? ==> Shaped(depot, ids, found.value)
        invariant found.Some? ==> ValidateIds(depot, found.value.route, found.value.speeds, found.value.landings) == Accepted
      {
        var gen: nat := g;
        var scores := ScorePopulation(data, flight, depot, pop);
        assert scores == ScoresOf(w, flight, depot, pop);
        var k := FirstMinIndex(scores);
        var next := NextGeneration(depot, ids, dist, settings, pop, scores, draws.breed, gen);
        assert Generation(w, flight, depot, ids, dist, settings, draws.breed, g, pop, next);
        BestStep(w, flight, depot, seen, g, bestScore, next);
        if Lt(scores[k], bestScore) {
          bestScore := scores[k];
          found := Some(pop[k]);
        }
        RecordStep(w, flight, depot, ids, dist, settings, draws.breed, seen, history, g, next, bestScore);
        history := history + [bestScore];
        pop := next;
        seen := seen + [next];
      }
      best := if found.Some? then found.value else pop[0];
    }
  }
}
