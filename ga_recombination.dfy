/** Single-point crossover and route repair of the genetic search
    (src/algorithms/genetic_algorithm.py:135-171). The repair puts the depot
    at both ends and replaces any other depot stop by a drawn location; it
    does not remove repeated locations, so a child may visit a location
    twice and miss another. */
module Recombination {
  import opened Common
  import opened Config
  import opened Validation
  import opened Individuals

  /** The depot occurs strictly between the two ends. */
  predicate DepotInside(depot: int, route: seq<int>) {
    exists i :: 0 < i < |route| - 1 && route[i] == depot
  }

  /** What `random.choice(self.ids_ceps)` needs: a location to draw from
      whenever an inner depot stop has to be replaced. */
  predicate Repairable(depot: int, ids: seq<int>, route: seq<int>) {
    |route| >= 3 && DepotInside(depot, route) ==> |ids| > 0
  }

  /** A route of three or more stops once repaired: the depot at both ends,
      every inner depot stop replaced by the location the draw for that
      position picks, and every other stop kept. */
  function Repaired(depot: int, ids: seq<int>, route: seq<int>, choice: Stream): (r: seq<int>)
    requires |route| >= 3 && Repairable(depot, ids, route)
    ensures |r| == |route|
  {
    seq(|route|, i requires 0 <= i < |route| =>
      if i == 0 || i == |route| - 1 then depot
      else if route[i] == depot then ids[choice(i) % |ids|]
      else route[i])
  }

  /** A repaired route starts and ends at the depot, keeps every inner stop
      that was not the depot and replaces the others by locations of `ids`;
      when the depot is not among those locations, it occurs exactly twice. */
  lemma RepairedShape(depot: int, ids: seq<int>, route: seq<int>, choice: Stream)
    requires |route| >= 3 && Repairable(depot, ids, route)
    ensures var r := Repaired(depot, ids, route, choice);
      && r[0] == depot && r[|r| - 1] == depot
      && (forall i :: 0 < i < |r| - 1 && route[i] != depot ==> r[i] == route[i])
      && (forall i :: 0 < i < |r| - 1 && route[i] == depot ==> r[i] in ids)
    ensures depot !in ids ==> multiset(Repaired(depot, ids, route, choice))[depot] == 2
  {
    var r := Repaired(depot, ids, route, choice);
    if depot !in ids {
      forall k | 0 <= k < |Interior(r)| ensures Interior(r)[k] != depot {
        assert Interior(r)[k] == r[k + 1];
      }
      DepotCountTwice(depot, r);
    }
  }

  /** The repair only looks at the inner stops. */
  lemma RepairIgnoresEnds(depot: int, ids: seq<int>, route: seq<int>, r: seq<int>, choice: Stream)
    requires |route| >= 3 && Repairable(depot, ids, route)
    requires |r| == |route| && forall j :: 0 < j < |r| - 1 ==> r[j] == route[j]
    ensures Repairable(depot, ids, r) && Repaired(depot, ids, r, choice) == Repaired(depot, ids, route, choice)
  {
    if DepotInside(depot, r) {
      var i :| 0 < i < |r| - 1 && r[i] == depot;
      assert route[i] == depot;
    }
  }

  /** With the depot at both ends and nowhere else, the repair changes nothing. */
  lemma RepairKeepsTour(depot: int, ids: seq<int>, r: seq<int>, choice: Stream)
    requires |r| >= 3 && r[0] == depot && r[|r| - 1] == depot && multiset(r)[depot] <= 2
    ensures Repairable(depot, ids, r) && Repaired(depot, ids, r, choice) == r
  {
    DepotCountTwice(depot, r);
    forall j | 0 < j < |r| - 1 ensures r[j] != depot {
      assert r[j] == Interior(r)[j - 1];
    }
  }

  /** The loop of `_corrigir_rota` over the inner depot stops: each is
      overwritten in place by the location drawn for its position. */
  method ReplaceInnerDepots(depot: int, ids: seq<int>, route: seq<int>, choice: Stream) returns (r: seq<int>)
    requires |route| >= 3 && route[0] == depot && route[|route| - 1] == depot
    requires Repairable(depot, ids, route)
    ensures r == Repaired(depot, ids, route, choice)
  {
    r := route;
    ghost var want := Repaired(depot, ids, route, choice);
    for i := 1 to |r| - 1
      invariant |r| == |route| && r[0] == depot && r[|r| - 1] == depot
      invariant forall j :: 0 < j < i ==> r[j] == want[j]
      invariant forall j :: i <= j < |r| - 1 ==> r[j] == route[j]
    {
      if r[i] == depot {
        r := r[i := ids[choice(i) % |ids|]];
      }
    }
    assert r == want;
  }

  /** `_corrigir_rota`: a route shorter than three stops is replaced by the
      route of a random individual; otherwise the ends are set to the depot
      and, when the depot occurs more than twice, each inner depot stop is
      overwritten by a drawn location. */
  method RepairRoute(depot: int, ids: seq<int>, route: seq<int>, choice: Stream, fallback: Draws)
    returns (r: seq<int>)
    requires Repairable(depot, ids, route)
    ensures |route| < 3 ==> r == CreateIndividual(depot, ids, fallback).route
    ensures |route| >= 3 ==> r == Repaired(depot, ids, route, choice)
  {
    if |route| < 3 {
      return CreateIndividual(depot, ids, fallback).route;
    }
    r := route;
    if r[0] != depot {
      r := r[0 := depot];
    }
    if r[|r| - 1] != depot {
      r := r[|r| - 1 := depot];
    }
    RepairIgnoresEnds(depot, ids, route, r, choice);
    if multiset(r)[depot] > 2 {
      r := ReplaceInnerDepots(depot, ids, r, choice);
    } else {
      RepairKeepsTour(depot, ids, r, choice);
    }
  }

  /** Python's `s[:p]`. */
  function Take<T>(s: seq<T>, p: nat): (r: seq<T>)
    ensures |r| == if p <= |s| then p else |s|
  {
    if p <= |s| then s[..p] else s
  }

  /** Python's `s[p:]`. */
  function Drop<T>(s: seq<T>, p: nat): (r: seq<T>)
    ensures |r| == if p <= |s| then |s| - p else 0
  {
    if p <= |s| then s[p..] else []
  }

  /** `random.randint(1, size - 2)` from a draw. */
  function CutPoint(size: int, pick: nat): (p: nat)
    requires size >= 3
    ensures 1 <= p <= size - 2
  {
    1 + pick % (size - 2)
  }

  /** The draws of one crossover: the cut point, the draws of each child's
      repair and the random individuals used for a too-short child. */
  datatype CrossDraws = CrossDraws(point: nat, choice1: Stream, choice2: Stream, fallback1: Draws, fallback2: Draws)

  /** The route a child gets from the head of `a` and the tail of `b`. */
  function ChildRoute(depot: int, ids: seq<int>, a: seq<int>, b: seq<int>, p: nat, choice: Stream, fallback: Draws): seq<int>
    requires Repairable(depot, ids, Take(a, p) + Drop(b, p))
  {
    var spliced := Take(a, p) + Drop(b, p);
    if |spliced| < 3 then CreateIndividual(depot, ids, fallback).route
    else Repaired(depot, ids, spliced, choice)
  }

  /** `crossover`: both children take the parents' routes, speeds and
      landing flags cut at the same drawn point, in opposite order, and
      their routes are repaired. */
  method Crossover(depot: int, ids: seq<int>, p1: Individual, p2: Individual, d: CrossDraws)
    returns (c1: Individual, c2: Individual)
    requires |p1.route| >= 3
    requires var p := CutPoint(|p1.route|, d.point);
      && Repairable(depot, ids, Take(p1.route, p) + Drop(p2.route, p))
      && Repairable(depot, ids, Take(p2.route, p) + Drop(p1.route, p))
    ensures var p := CutPoint(|p1.route|, d.point);
      && c1.route == ChildRoute(depot, ids, p1.route, p2.route, p, d.choice1, d.fallback1)
      && c2.route == ChildRoute(depot, ids, p2.route, p1.route, p, d.choice2, d.fallback2)
      && c1.speeds == Take(p1.speeds, p) + Drop(p2.speeds, p)
      && c1.landings == Take(p1.landings, p) + Drop(p2.landings, p)
      && c2.speeds == Take(p2.speeds, p) + Drop(p1.speeds, p)
      && c2.landings == Take(p2.landings, p) + Drop(p1.landings, p)
  {
    var p := CutPoint(|p1.route|, d.point);
    var r1 := RepairRoute(depot, ids, Take(p1.route, p) + Drop(p2.route, p), d.choice1, d.fallback1);
    var r2 := RepairRoute(depot, ids, Take(p2.route, p) + Drop(p1.route, p), d.choice2, d.fallback2);
    c1 := Individual(r1, Take(p1.speeds, p) + Drop(p2.speeds, p), Take(p1.landings, p) + Drop(p2.landings, p));
    c2 := Individual(r2, Take(p2.speeds, p) + Drop(p1.speeds, p), Take(p2.landings, p) + Drop(p1.landings, p));
  }

  /** Children of two parents of the same size keep that size, start and end
      at the depot, hold the depot exactly twice when it is not one of the
      locations, and draw their speeds from the parents'. */
  lemma {:induction false} ChildOfEqualParents(depot: int, ids: seq<int>, a: Individual, b: Individual, p: nat,
                                               choice: Stream, fallback: Draws)
    requires Sized(a) && Sized(b) && |a.route| == |b.route| >= 3 && 1 <= p <= |a.route| - 2
    requires Repairable(depot, ids, Take(a.route, p) + Drop(b.route, p))
    ensures var r := ChildRoute(depot, ids, a.route, b.route, p, choice, fallback);
      && |r| == |a.route| && r[0] == depot && r[|r| - 1] == depot
      && (depot !in ids ==> multiset(r)[depot] == 2)
      && |Take(a.speeds, p) + Drop(b.speeds, p)| == |r| - 1
      && |Take(a.landings, p) + Drop(b.landings, p)| == |r| - 1
    ensures SpeedsOk(a.speeds) && SpeedsOk(b.speeds) ==> SpeedsOk(Take(a.speeds, p) + Drop(b.speeds, p))
  {
    var spliced := Take(a.route, p) + Drop(b.route, p);
    RepairedShape(depot, ids, spliced, choice);
    var s := Take(a.speeds, p) + Drop(b.speeds, p);
    if SpeedsOk(a.speeds) && SpeedsOk(b.speeds) {
      forall i | 0 <= i < |s| ensures IsSpeed(s[i]) {
        if i < p { assert s[i] == a.speeds[i]; } else { assert s[i] == b.speeds[i]; }
      }
    }
  }

  /** The repair does not remove repeated locations: cutting two valid
      tours of locations 1 and 2 after the second stop gives a child that
      visits location 1 twice, which the validator rejects. */
  lemma CrossoverMayRepeat(choice: Stream, fallback: Draws)
    ensures var r := ChildRoute(0, [1, 2], [0, 1, 2, 0], [0, 2, 1, 0], 2, choice, fallback);
      && r == [0, 1, 1, 0]
      && ValidateIds(0, [0, 1, 2, 0], [36, 36, 36], [false, false, false]) == Accepted
      && ValidateIds(0, [0, 2, 1, 0], [36, 36, 36], [false, false, false]) == Accepted
      && ValidateIds(0, r, [36, 36, 36], [false, false, false]) != Accepted
  {
    var spliced := Take([0, 1, 2, 0], 2) + Drop([0, 2, 1, 0], 2);
    assert spliced == [0, 1, 1, 0];
    RepairKeepsTour(0, [1, 2], spliced, choice);
    TourOfTwoAccepted(1, 2);
    TourOfTwoAccepted(2, 1);
    RepeatRejected();
  }

  lemma TourOfTwoAccepted(x: int, y: int)
    requires x != y && x != 0 && y != 0
    ensures ValidateIds(0, [0, x, y, 0], [36, 36, 36], [false, false, false]) == Accepted
  {
    assert Interior([0, x, y, 0]) == [x, y];
    ValidateIdsAcceptsWellFormed(0, [0, x, y, 0], [36, 36, 36], [false, false, false]);
  }

  lemma RepeatRejected()
    ensures ValidateIds(0, [0, 1, 1, 0], [36, 36, 36], [false, false, false]) != Accepted
  {
    var mid := Interior([0, 1, 1, 0]);
    assert mid == [1, 1] && mid[0] == mid[1];
    ValidateIdsAcceptsWellFormed(0, [0, 1, 1, 0], [36, 36, 36], [false, false, false]);
  }
}
