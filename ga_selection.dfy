/** Fitness and selection of the genetic search
    (src/algorithms/genetic_algorithm.py:249-290): the fitness of a
    solution, the tournament, the first minimum of a generation and the
    stable ranking the elites are taken from. */
module Selection {
  import opened Common
  import opened Validation
  import opened DataManagement
  import opened CostCalculation
  import opened Individuals

  /** A fitness value: the cost of a valid, feasible solution, or
      `float('inf')`. The costs are whole numbers: seconds plus ten times a
      whole landing charge. */
  datatype Score = Finite(value: int) | Infinite

  /** `a <= b` on fitness values, infinity lying above every cost. */
  predicate Le(a: Score, b: Score) {
    b.Infinite? || (a.Finite? && a.value <= b.value)
  }

  /** `a < b` on fitness values; `inf < inf` is false. */
  predicate Lt(a: Score, b: Score) {
    !Le(b, a)
  }

  /** The fitness `executar` gives a solution: infinity when the identifier
      validator rejects it, the evaluator's result otherwise. */
  function Fitness(w: Snapshot, flight: FlightTime, depot: int, ind: Individual): (s: Score)
    requires HoursTabulated(w.weather)
    ensures s.Finite? ==> ValidateIds(depot, ind.route, ind.speeds, ind.landings) == Accepted
  {
    if ValidateIds(depot, ind.route, ind.speeds, ind.landings) != Accepted then Infinite
    else
      ValidateIdsAcceptsWellFormed(depot, ind.route, ind.speeds, ind.landings);
      match Evaluate(w, flight, ind.route, ind.speeds, ind.landings)
      case Infeasible => Infinite
      case Feasible(f, _, _, _) => Finite(f)
  }

  /** A finite fitness belongs exactly to the well-formed solutions whose
      evaluation succeeds, is that evaluation's fitness, and is at least
      the stop time of every leg. */
  lemma FiniteFitness(w: Snapshot, flight: FlightTime, depot: int, ind: Individual)
    requires HoursTabulated(w.weather)
    ensures var s := Fitness(w, flight, depot, ind);
      s.Finite? <==> WellFormed(depot, ind.route, |ind.speeds|, |ind.landings|)
                     && Evaluate(w, flight, ind.route, ind.speeds, ind.landings).Feasible?
    ensures var s := Fitness(w, flight, depot, ind);
      s.Finite? ==> s.value == Evaluate(w, flight, ind.route, ind.speeds, ind.landings).fitness
    ensures var s := Fitness(w, flight, depot, ind);
      s.Finite? ==> s.value >= 72 * (|ind.route| - 1)
  {
    ValidateIdsAcceptsWellFormed(depot, ind.route, ind.speeds, ind.landings);
    if Fitness(w, flight, depot, ind).Finite? {
      FeasibleFitness(w, flight, ind.route, ind.speeds, ind.landings);
    }
  }

  /** One pass of the fitness loop of `executar`: validate, and evaluate
      only a valid solution. */
  method ScoreIndividual(dm: DataManager, flight: FlightTime, depot: int, ind: Individual) returns (s: Score)
    requires dm.Valid()
    ensures s == Fitness(SnapshotOf(dm), flight, depot, ind)
  {
    if ValidateIds(depot, ind.route, ind.speeds, ind.landings) != Accepted {
      return Infinite;
    }
    ValidateIdsAcceptsWellFormed(depot, ind.route, ind.speeds, ind.landings);
    var e := EvaluateRoute(dm, flight, ind.route, ind.speeds, ind.landings);
    s := if e.Feasible? then Finite(e.fitness) else Infinite;
  }

  /** The fitness of every member of a population, in order. */
  function ScoresOf(w: Snapshot, flight: FlightTime, depot: int, pop: seq<Individual>): (scores: seq<Score>)
    requires HoursTabulated(w.weather)
    ensures |scores| == |pop|
    ensures forall i :: 0 <= i < |pop| ==> scores[i] == Fitness(w, flight, depot, pop[i])
  {
    seq(|pop|, i requires 0 <= i < |pop| => Fitness(w, flight, depot, pop[i]))
  }

  /** The fitness loop of `executar`: one score per member of the population. */
  method ScorePopulation(dm: DataManager, flight: FlightTime, depot: int, pop: seq<Individual>)
    returns (scores: seq<Score>)
    requires dm.Valid()
    ensures |scores| == |pop|
    ensures forall i :: 0 <= i < |pop| ==> scores[i] == Fitness(SnapshotOf(dm), flight, depot, pop[i])
  {
    ghost var w := SnapshotOf(dm);
    scores := [];
    for i := 0 to |pop|
      invariant |scores| == i
      invariant forall k :: 0 <= k < i ==> scores[k] == Fitness(w, flight, depot, pop[k])
    {
      var s := ScoreIndividual(dm, flight, depot, pop[i]);
      assert s == Fitness(w, flight, depot, pop[i]);
      ScoredAppend(w, flight, depot, pop, scores, s);
      scores := scores + [s];
    }
  }

  /** Scoring the next member extends the scores of a prefix. */
  lemma ScoredAppend(w: Snapshot, flight: FlightTime, depot: int, pop: seq<Individual>, scores: seq<Score>, s: Score)
    requires HoursTabulated(w.weather) && |scores| < |pop|
    requires forall k :: 0 <= k < |scores| ==> scores[k] == Fitness(w, flight, depot, pop[k])
    requires s == Fitness(w, flight, depot, pop[|scores|])
    ensures forall k :: 0 <= k < |scores| + 1 ==> (scores + [s])[k] == Fitness(w, flight, depot, pop[k])
  {
    forall k | 0 <= k < |scores| + 1 ensures (scores + [s])[k] == Fitness(w, flight, depot, pop[k]) {
      if k < |scores| { assert (scores + [s])[k] == scores[k]; }
    }
  }

  /** Every entry of `sample` is a position of `scores`. */
  predicate Positions(scores: seq<Score>, sample: seq<int>) {
    forall i :: 0 <= i < |sample| ==> 0 <= sample[i] < |scores|
  }

  /** `k` is where `sample.index(min(...))` lands: the score at `sample[k]`
      is the smallest of the sampled ones, and every earlier entry's score
      is larger. */
  predicate IsFirstMin(scores: seq<Score>, sample: seq<int>, k: nat)
    requires Positions(scores, sample)
  {
    && k < |sample|
    && (forall i :: 0 <= i < |sample| ==> Le(scores[sample[k]], scores[sample[i]]))
    && (forall i :: 0 <= i < k ==> Lt(scores[sample[k]], scores[sample[i]]))
  }

  /** `min` keeps its first candidate until a strictly smaller one comes. */
  function FirstMin(scores: seq<Score>, sample: seq<int>): (k: nat)
    requires |sample| >= 1 && Positions(scores, sample)
    ensures IsFirstMin(scores, sample, k)
    decreases |sample|
  {
    if |sample| == 1 then 0
    else
      var k := FirstMin(scores, sample[..|sample| - 1]);
      if Lt(scores[sample[|sample| - 1]], scores[sample[k]]) then |sample| - 1 else k
  }

  /** `fitness_scores.index(min(fitness_scores))`: the first position with
      the smallest score of all. */
  function FirstMinIndex(scores: seq<Score>): (k: nat)
    requires |scores| >= 1
    ensures k < |scores|
    ensures forall i :: 0 <= i < |scores| ==> Le(scores[k], scores[i])
    ensures forall i :: 0 <= i < k ==> Lt(scores[k], scores[i])
  {
    FirstMinOfAll(scores);
    FirstMin(scores, Range(0, |scores|))
  }

  /** Over the sample of every position, a sampled entry is its own
      position. */
  lemma FirstMinOfAll(scores: seq<Score>)
    requires |scores| >= 1
    ensures var k := FirstMin(scores, Range(0, |scores|));
      && (forall i :: 0 <= i < |scores| ==> Le(scores[k], scores[i]))
      && (forall i :: 0 <= i < k ==> Lt(scores[k], scores[i]))
  {
    var all := Range(0, |scores|);
    var k := FirstMin(scores, all);
    assert all[k] == k;
    forall i | 0 <= i < |scores| ensures Le(scores[k], scores[i]) && (i < k ==> Lt(scores[k], scores[i])) {
      assert all[i] == i;
    }
  }

  /** The first minimum is determined by the scores: no other entry is both
      smallest and first. */
  lemma FirstMinIsUnique(scores: seq<Score>, sample: seq<int>, k1: nat, k2: nat)
    requires Positions(scores, sample)
    requires IsFirstMin(scores, sample, k1) && IsFirstMin(scores, sample, k2)
    ensures k1 == k2
  {
    var s1, s2 := scores[sample[k1]], scores[sample[k2]];
    assert k1 < k2 ==> Lt(s2, s1);
    assert k2 < k1 ==> Lt(s1, s2);
  }

  /** `random.sample(range(n), size)`: `size` distinct positions below `n`,
      the first `size` of a shuffle of all of them; a sample of all `n`
      holds every position. */
  function Sample(n: nat, size: nat, pick: Stream): (s: seq<int>)
    requires size <= n
    ensures |s| == size && Distinct(s)
    ensures forall i :: 0 <= i < |s| ==> 0 <= s[i] < n
    ensures size == n ==> forall j :: 0 <= j < n ==> j in s
  {
    var all := Shuffle(Range(0, n), pick);
    PermutedPositions(n, all);
    assert all[..n] == all;
    all[..size]
  }

  /** A permutation of `range(n)` holds every position below `n` exactly once. */
  lemma PermutedPositions(n: nat, all: seq<int>)
    requires multiset(all) == multiset(Range(0, n))
    ensures |all| == n && Distinct(all)
    ensures forall i :: 0 <= i < n ==> 0 <= all[i] < n
    ensures forall j :: 0 <= j < n ==> j in all
  {
    var range := Range(0, n);
    RangeDistinct(0, n);
    DistinctPermutation(range, all);
    PermutationMembers(range, all);
    forall i | 0 <= i < n ensures 0 <= all[i] < n {
      assert all[i] in range;
    }
  }

  /** `selecao_torneio`: among `size` distinct sampled members, the position
      of the first one with the smallest fitness. */
  function Tournament(scores: seq<Score>, size: nat, pick: Stream): (w: int)
    requires 1 <= size <= |scores|
    ensures 0 <= w < |scores| && w in Sample(|scores|, size, pick)
    ensures forall j :: j in Sample(|scores|, size, pick) ==> Le(scores[w], scores[j])
  {
    var s := Sample(|scores|, size, pick);
    s[FirstMin(scores, s)]
  }

  /** A tournament as large as the population picks a member with the
      smallest fitness of all. */
  lemma FullTournamentPicksBest(scores: seq<Score>, pick: Stream)
    requires |scores| >= 1
    ensures var w := Tournament(scores, |scores|, pick);
      forall j :: 0 <= j < |scores| ==> Le(scores[w], scores[j])
  {
    var s := Sample(|scores|, |scores|, pick);
    assert forall j :: 0 <= j < |scores| ==> j in s;
  }

  /** Position `i` comes before position `j` in
      `sorted(range(n), key=lambda i: scores[i])`: a smaller fitness, or the
      same fitness and an earlier position, since the sort is stable. */
  predicate Before(scores: seq<Score>, i: int, j: int)
    requires 0 <= i < |scores| && 0 <= j < |scores|
  {
    Lt(scores[i], scores[j]) || (scores[i] == scores[j] && i < j)
  }

  /** Every entry of `r` comes after position `z`. */
  predicate Below(scores: seq<Score>, z: int, r: seq<int>)
    requires 0 <= z < |scores| && Positions(scores, r)
  {
    forall k :: 0 <= k < |r| ==> Before(scores, z, r[k])
  }

  /** The entries of `r` are in the order of the sort. */
  predicate Ranked(scores: seq<Score>, r: seq<int>)
    requires Positions(scores, r)
  {
    forall a, b :: 0 <= a < b < |r| ==> Before(scores, r[a], r[b])
  }

  /** One step of the insertion sort: `x` goes before the first entry it
      comes before. */
  function Insert(scores: seq<Score>, x: int, r: seq<int>): (r': seq<int>)
    requires 0 <= x < |scores| && Positions(scores, r)
    ensures |r'| == |r| + 1 && Positions(scores, r')
    ensures forall y :: y in r' <==> y == x || y in r
  {
    if r == [] then [x]
    else if Before(scores, x, r[0]) then [x] + r
    else
      assert r == [r[0]] + r[1..];
      [r[0]] + Insert(scores, x, r[1..])
  }

  /** A position that comes before `x` and before every entry of `r` comes
      before every entry once `x` is inserted. */
  lemma {:induction false} InsertBelow(scores: seq<Score>, x: int, r: seq<int>, z: int)
    requires 0 <= x < |scores| && 0 <= z < |scores| && Positions(scores, r)
    requires Before(scores, z, x) && Below(scores, z, r)
    ensures Below(scores, z, Insert(scores, x, r))
  {
    if r != [] && !Before(scores, x, r[0]) {
      InsertBelow(scores, x, r[1..], z);
    }
  }

  /** Inserting a new position into a sorted sequence keeps it sorted. */
  lemma {:induction false} InsertRanked(scores: seq<Score>, x: int, r: seq<int>)
    requires 0 <= x < |scores| && Positions(scores, r)
    requires Ranked(scores, r) && x !in r
    ensures Ranked(scores, Insert(scores, x, r))
  {
    if r == [] {
    } else if Before(scores, x, r[0]) {
      var r' := [x] + r;
      forall a, b | 0 <= a < b < |r'| ensures Before(scores, r'[a], r'[b]) {
        if a == 0 && b > 1 {
          assert Before(scores, r[0], r[b - 1]);
        }
      }
    } else {
      var y := r[0];
      assert Before(scores, y, x);
      InsertRanked(scores, x, r[1..]);
      InsertBelow(scores, x, r[1..], y);
      var t := Insert(scores, x, r[1..]);
      assert Insert(scores, x, r) == [y] + t;
      forall a, b | 0 <= a < b < |t| + 1 ensures Before(scores, ([y] + t)[a], ([y] + t)[b]) {
        if a > 0 {
          assert ([y] + t)[a] == t[a - 1] && ([y] + t)[b] == t[b - 1];
        }
      }
    }
  }

  /** The positions `lo`, ..., `|scores| - 1`, insertion-sorted. */
  function RankFrom(scores: seq<Score>, lo: nat): (r: seq<int>)
    requires lo <= |scores|
    ensures |r| == |scores| - lo && Positions(scores, r)
    ensures forall y :: y in r <==> lo <= y < |scores|
    decreases |scores| - lo
  {
    if lo == |scores| then []
    else Insert(scores, lo, RankFrom(scores, lo + 1))
  }

  /** `sorted(range(len(fitness_scores)), key=lambda i: fitness_scores[i])`. */
  function Rank(scores: seq<Score>): seq<int> {
    RankFrom(scores, 0)
  }

  /** The ranking lists every position once, in order of fitness, ties in
      order of position. */
  lemma {:induction false} RankFromIsSorted(scores: seq<Score>, lo: nat)
    requires lo <= |scores|
    ensures Ranked(scores, RankFrom(scores, lo))
    decreases |scores| - lo
  {
    if lo < |scores| {
      var r := RankFrom(scores, lo + 1);
      RankFromIsSorted(scores, lo + 1);
      InsertRanked(scores, lo, r);
    }
  }

  /** The ranking lists every position exactly once, sorted stably by
      fitness. */
  lemma RankIsStableSort(scores: seq<Score>)
    ensures var r := Rank(scores);
      && |r| == |scores| && Positions(scores, r) && Distinct(r)
      && (forall i :: i in r <==> 0 <= i < |scores|)
      && Ranked(scores, r)
  {
    RankFromIsSorted(scores, 0);
    var r := Rank(scores);
    forall a, b | 0 <= a < b < |r| ensures r[a] != r[b] {
      assert Before(scores, r[a], r[b]);
    }
  }

  /** `elite_indices`: the first `eliteSize` positions of the ranking. */
  function Elites(scores: seq<Score>, eliteSize: nat): (e: seq<int>)
    ensures |e| == if eliteSize <= |scores| then eliteSize else |scores|
  {
    var r := Rank(scores);
    if eliteSize <= |r| then r[..eliteSize] else r
  }

  /** The elites are distinct positions, and none of them has a larger
      fitness than a member left out. */
  lemma ElitesAreBest(scores: seq<Score>, eliteSize: nat)
    ensures var e := Elites(scores, eliteSize);
      && Positions(scores, e) && Distinct(e)
      && forall i, j :: i in e && 0 <= j < |scores| && j !in e ==> Le(scores[i], scores[j])
  {
    var r := Rank(scores);
    RankIsStableSort(scores);
    var e := Elites(scores, eliteSize);
    var m := |e|;
    assert e == r[..m];
    forall i, j | i in e && 0 <= j < |scores| && j !in e ensures Le(scores[i], scores[j]) {
      var a :| 0 <= a < m && e[a] == i;
      assert j in r;
      var b :| 0 <= b < |r| && r[b] == j;
      assert b >= m;
      assert Before(scores, r[a], r[b]);
    }
  }
}
