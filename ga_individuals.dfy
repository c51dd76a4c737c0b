/** Candidate solutions of the genetic search (src/algorithms/genetic_algorithm.py)
    and the random individual of `criar_individuo`.

    Every random draw of the source is an explicit parameter: a `Stream`
    gives the outcome of the i-th draw of one kind, any outcome being
    possible, so what is proved holds however the draws come out. */
module Individuals {
  import opened Common
  import opened Config
  import opened Validation

  /** A route of location identifiers, one speed and one landing flag per leg. */
  datatype Individual = Individual(route: seq<int>, speeds: seq<int>, landings: seq<bool>)

  /** The outcomes of a sequence of random draws. */
  type Stream = nat -> nat

  /** `random.choice([True, False])` as the i-th draw of a stream. */
  function Coin(s: Stream, i: nat): bool {
    s(i) % 2 == 1
  }

  /** The draws `criar_individuo` makes: the shuffle, one speed and one
      landing flag per leg. */
  datatype Draws = Draws(order: Stream, speed: Stream, landing: Stream)

  /** Every speed is one of 36, 40, ..., 96. */
  predicate SpeedsOk(speeds: seq<int>) {
    forall i :: 0 <= i < |speeds| ==> IsSpeed(speeds[i])
  }

  /** One speed and one landing flag per leg of a non-empty route. */
  predicate Sized(ind: Individual) {
    |ind.route| >= 1 && |ind.speeds| == |ind.route| - 1 && |ind.landings| == |ind.route| - 1
  }

  /** The route leaves the depot, visits the given locations in some order
      and returns to the depot. */
  predicate Tour(depot: int, ids: seq<int>, route: seq<int>) {
    && |route| == |ids| + 2
    && route[0] == depot && route[|route| - 1] == depot
    && multiset(Interior(route)) == multiset(ids)
  }

  /** The route starts and ends at the depot and does not pass through it
      in between. */
  predicate DepotBounded(depot: int, route: seq<int>) {
    |route| >= 2 && route[0] == depot && route[|route| - 1] == depot && depot !in Interior(route)
  }

  /** `list.pop(k)`: the sequence without its k-th element. */
  function RemoveAt<T>(s: seq<T>, k: nat): (r: seq<T>)
    requires k < |s|
    ensures |r| == |s| - 1
    ensures multiset(r) + multiset{s[k]} == multiset(s)
  {
    assert s == s[..k] + [s[k]] + s[k + 1..];
    s[..k] + s[k + 1..]
  }

  /** `random.shuffle`: the element taken first is chosen by the draw made
      while `|s|` elements remain, then the rest is shuffled. */
  function Shuffle<T>(s: seq<T>, pick: Stream): (r: seq<T>)
    ensures |r| == |s| && multiset(r) == multiset(s)
    decreases |s|
  {
    if s == [] then []
    else
      var k := pick(|s|) % |s|;
      [s[k]] + Shuffle(RemoveAt(s, k), pick)
  }

  /** `criar_individuo`: the depot, the locations shuffled, the depot again,
      then a speed drawn from the domain and a landing flag drawn for every
      leg. */
  function CreateIndividual(depot: int, ids: seq<int>, d: Draws): (ind: Individual)
    ensures Tour(depot, ids, ind.route) && Sized(ind) && SpeedsOk(ind.speeds)
  {
    var inner := Shuffle(ids, d.order);
    var route := [depot] + inner + [depot];
    assert Interior(route) == inner;
    Individual(route,
      seq(|route| - 1, i requires 0 <= i => SpeedFromPick(d.speed(i))),
      seq(|route| - 1, i requires 0 <= i => Coin(d.landing, i)))
  }

  /** A tour over distinct locations other than the depot passes the
      identifier validator. */
  lemma TourAccepted(depot: int, ids: seq<int>, ind: Individual)
    requires Tour(depot, ids, ind.route) && Sized(ind)
    requires Distinct(ids) && depot !in ids && |ids| >= 1
    ensures ValidateIds(depot, ind.route, ind.speeds, ind.landings) == Accepted
  {
    var mid := Interior(ind.route);
    DistinctPermutation(ids, mid);
    assert depot !in multiset(mid);
    ValidateIdsAcceptsWellFormed(depot, ind.route, ind.speeds, ind.landings);
  }

  /** Reordering the inner stops of an accepted route, with as many speeds
      and landing flags as before, gives an accepted route. */
  lemma InnerReorderKeepsAccepted(depot: int, a: seq<int>, b: seq<int>, speeds: seq<int>, landings: seq<bool>,
                                  speeds': seq<int>, landings': seq<bool>)
    requires |a| == |b| >= 2 && a[0] == b[0] && a[|a| - 1] == b[|b| - 1]
    requires multiset(Interior(a)) == multiset(Interior(b))
    requires |speeds'| == |speeds| && |landings'| == |landings|
    requires ValidateIds(depot, a, speeds, landings) == Accepted
    ensures ValidateIds(depot, b, speeds', landings') == Accepted
  {
    ValidateIdsAcceptsWellFormed(depot, a, speeds, landings);
    ValidateIdsAcceptsWellFormed(depot, b, speeds', landings');
    assert depot !in multiset(Interior(a));
    DistinctPermutation(Interior(a), Interior(b));
  }

  /** A random individual over distinct locations is always a valid solution. */
  lemma CreatedIsAccepted(depot: int, ids: seq<int>, d: Draws)
    requires Distinct(ids) && depot !in ids && |ids| >= 1
    ensures var ind := CreateIndividual(depot, ids, d);
      ValidateIds(depot, ind.route, ind.speeds, ind.landings) == Accepted
  {
    TourAccepted(depot, ids, CreateIndividual(depot, ids, d));
  }
}
