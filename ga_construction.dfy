/** The nearest-neighbour individual of the genetic search
    (src/algorithms/genetic_algorithm.py:38-133): a greedy tour from the
    depot, speeds chosen by leg length, and landing flags planned from a
    simulated battery.

    The distance between two locations is the great-circle distance of
    their coordinates, computed in floating point; it is a parameter here,
    any function from two identifiers to a real number. */
module Construction {
  import opened Common
  import opened Config
  import opened Calculations
  import opened Validation
  import opened Individuals

  /** Kilometres between the locations of two identifiers. */
  type Distance = (int, int) -> real

  /** `cands[k]` is at the least distance from `from`, and no earlier
      candidate is as close (the scan keeps the first strict minimum). */
  predicate IsNearest(dist: Distance, from: int, cands: seq<int>, k: int) {
    && 0 <= k < |cands|
    && (forall j :: 0 <= j < |cands| ==> dist(from, cands[k]) <= dist(from, cands[j]))
    && (forall j :: 0 <= j < k ==> dist(from, cands[k]) < dist(from, cands[j]))
  }

  /** Position the scan of `_encontrar_vizinho_mais_proximo` settles on. */
  function NearestIndex(dist: Distance, from: int, cands: seq<int>): (k: nat)
    requires |cands| > 0
    ensures IsNearest(dist, from, cands, k)
    decreases |cands|
  {
    if |cands| == 1 then 0
    else
      var init := cands[..|cands| - 1];
      var k := NearestIndex(dist, from, init);
      assert forall j :: 0 <= j < |init| ==> init[j] == cands[j];
      if dist(from, cands[|cands| - 1]) < dist(from, cands[k]) then |cands| - 1 else k
  }

  /** At most one position is the nearest in that sense. */
  lemma NearestIsUnique(dist: Distance, from: int, cands: seq<int>, k1: int, k2: int)
    requires IsNearest(dist, from, cands, k1) && IsNearest(dist, from, cands, k2)
    ensures k1 == k2
  {
    var d1, d2 := dist(from, cands[k1]), dist(from, cands[k2]);
    assert k1 < k2 ==> d2 < d1;
    assert k2 < k1 ==> d1 < d2;
  }

  /** Position of the first occurrence, which `list.remove` deletes. */
  function FirstIndex(s: seq<int>, x: int): (k: nat)
    requires x in s
    ensures k < |s| && s[k] == x
    ensures forall j :: 0 <= j < k ==> s[j] != x
  {
    if s[0] == x then 0 else 1 + FirstIndex(s[1..], x)
  }

  /** The nearest candidate is the first occurrence of its identifier. */
  lemma NearestIsFirstOccurrence(dist: Distance, from: int, cands: seq<int>)
    requires |cands| > 0
    ensures var k := NearestIndex(dist, from, cands); FirstIndex(cands, cands[k]) == k
  {
  }

  /** `_encontrar_vizinho_mais_proximo`: the candidate closest to `from`,
      the first of equally close ones, and `None` for no candidates. */
  method FindNearest(dist: Distance, from: int, cands: seq<int>) returns (nearest: Option<int>)
    ensures cands == [] <==> nearest.None?
    ensures nearest.Some? ==> nearest == Some(cands[NearestIndex(dist, from, cands)])
  {
    nearest := None;
    var least := 0.0;
    ghost var best := 0;
    for i := 0 to |cands|
      invariant i == 0 <==> nearest.None?
      invariant i > 0 ==> && best == NearestIndex(dist, from, cands[..i])
                          && nearest == Some(cands[best]) && least == dist(from, cands[best])
    {
      var d := dist(from, cands[i]);
      assert cands[..i + 1][..i] == cands[..i];
      if nearest.None? || d < least {
        least := d;
        nearest := Some(cands[i]);
        best := i;
      }
    }
    assert cands[..|cands|] == cands;
  }

  /** The nearest-neighbour order: from `from`, the nearest remaining
      location, then the nearest to that one, until none remains. */
  function GreedyOrder(dist: Distance, from: int, ids: seq<int>): (order: seq<int>)
    ensures multiset(order) == multiset(ids)
    decreases |ids|
  {
    if ids == [] then []
    else
      var k := NearestIndex(dist, from, ids);
      [ids[k]] + GreedyOrder(dist, ids[k], RemoveAt(ids, k))
  }

  /** Where the i-th stop of an order is reached from. */
  function Previous(from: int, order: seq<int>, i: nat): int
    requires i <= |order|
  {
    if i == 0 then from else order[i - 1]
  }

  /** The first stop of the greedy order is at least as close to the start
      as every other stop. */
  lemma FirstStopIsNearest(dist: Distance, from: int, ids: seq<int>, j: nat)
    requires j < |ids|
    ensures var order := GreedyOrder(dist, from, ids);
      |order| == |ids| && dist(from, order[0]) <= dist(from, order[j])
  {
    var order := GreedyOrder(dist, from, ids);
    assert |order| == |multiset(order)| == |ids|;
    assert order[j] in multiset(order);
    var m :| 0 <= m < |ids| && ids[m] == order[j];
  }

  /** Each stop of the greedy order is at least as close to the previous
      stop as every stop that comes after it. */
  lemma {:induction false} GreedyOrderIsGreedy(dist: Distance, from: int, ids: seq<int>, i: nat, j: nat)
    requires i <= j < |ids|
    ensures var order := GreedyOrder(dist, from, ids);
      |order| == |ids| &&
      dist(Previous(from, order, i), order[i]) <= dist(Previous(from, order, i), order[j])
    decreases i
  {
    FirstStopIsNearest(dist, from, ids, j);
    if i > 0 {
      var order := GreedyOrder(dist, from, ids);
      var k := NearestIndex(dist, from, ids);
      var tail := GreedyOrder(dist, ids[k], RemoveAt(ids, k));
      GreedyOrderIsGreedy(dist, ids[k], RemoveAt(ids, k), i - 1, j - 1);
      assert order == [ids[k]] + tail;
      assert order[i] == tail[i - 1] && order[j] == tail[j - 1];
      assert Previous(from, order, i) == Previous(ids[k], tail, i - 1);
    }
  }

  /** Regrouping a concatenation, stated apart from the loop below so that
      its proof does not see the loop's context. */
  lemma Associative<T>(a: seq<T>, b: seq<T>, c: seq<T>)
    ensures a + b + c == a + (b + c)
  {
  }

  /** The nearest-neighbour loop shared by `criar_individuo_vizinho_mais_proximo`
      and `_mutacao_vizinho_mais_proximo`: repeatedly move to the nearest
      unvisited location and remove it from the unvisited list. */
  method NearestNeighbourTour(dist: Distance, from: int, ids: seq<int>) returns (order: seq<int>)
    ensures order == GreedyOrder(dist, from, ids)
  {
    order := [];
    var unvisited := ids;
    var current := from;
    while unvisited != []
      invariant order + GreedyOrder(dist, current, unvisited) == GreedyOrder(dist, from, ids)
      decreases |unvisited|
    {
      var nearest := FindNearest(dist, current, unvisited);
      var next := nearest.value;
      ghost var rest := GreedyOrder(dist, next, RemoveAt(unvisited, NearestIndex(dist, current, unvisited)));
      assert GreedyOrder(dist, current, unvisited) == [next] + rest;
      NearestIsFirstOccurrence(dist, current, unvisited);
      var k := FirstIndex(unvisited, next);
      Associative(order, [next], rest);
      order := order + [next];
      unvisited := RemoveAt(unvisited, k);
      current := next;
    }
  }

  /** `_gerar_velocidades_otimizadas` for one leg of length `d`: the minimum
      speed below 1 km, a drawn speed of 40-48 below 5 km, of 52-64 below
      15 km and of 68-96 beyond. */
  function BucketSpeed(d: real, pick: nat): (v: int)
    ensures IsSpeed(v)
    ensures d < 1.0 ==> v == MIN_SPEED
    ensures 1.0 <= d < 5.0 ==> 40 <= v <= 48
    ensures 5.0 <= d < 15.0 ==> 52 <= v <= 64
    ensures 15.0 <= d ==> 68 <= v <= MAX_SPEED
  {
    if d < 1.0 then 36
    else if d < 5.0 then [40, 44, 48][pick % 3]
    else if d < 15.0 then [52, 56, 60, 64][pick % 4]
    else [68, 72, 76, 80, 84, 88, 92, 96][pick % 8]
  }

  /** Every speed of a leg's bucket is drawn by some pick, so the buckets
      are exactly 36, 40-48, 52-64 and 68-96. */
  lemma BucketSpeedOnto(d: real, v: int)
    requires IsSpeed(v)
    requires d < 1.0 ==> v == MIN_SPEED
    requires 1.0 <= d < 5.0 ==> 40 <= v <= 48
    requires 5.0 <= d < 15.0 ==> 52 <= v <= 64
    requires 15.0 <= d ==> 68 <= v
    ensures exists p: nat :: BucketSpeed(d, p) == v
  {
    if d < 1.0 {
      assert BucketSpeed(d, 0) == v;
    } else if d < 5.0 {
      assert BucketSpeed(d, ((v - 40) / 4) as nat) == v;
    } else if d < 15.0 {
      assert BucketSpeed(d, ((v - 52) / 4) as nat) == v;
    } else {
      assert BucketSpeed(d, ((v - 68) / 4) as nat) == v;
    }
  }

  /** `_gerar_velocidades_otimizadas`: one speed per leg, from the bucket of
      that leg's length, with the i-th draw for the i-th leg. */
  method GenerateSpeeds(dist: Distance, route: seq<int>, pick: Stream) returns (speeds: seq<int>)
    ensures |speeds| == LegCount(route) && SpeedsOk(speeds)
    ensures forall i :: 0 <= i < |speeds| ==> speeds[i] == BucketSpeed(dist(route[i], route[i + 1]), pick(i))
  {
    speeds := [];
    for i := 0 to LegCount(route)
      invariant |speeds| == i && SpeedsOk(speeds)
      invariant forall j :: 0 <= j < i ==> speeds[j] == BucketSpeed(dist(route[j], route[j + 1]), pick(j))
    {
      var d := dist(route[i], route[i + 1]);
      speeds := speeds + [BucketSpeed(d, pick(i))];
    }
  }

  /** The planner's full battery, `5000 * 0.93`. */
  const FULL_BATTERY: real := 4650.0

  /** Battery units the planner expects a leg of `d` km at `speed` to use:
      the flight seconds `d / speed * 3600` times 5000 over the autonomy at
      that speed. */
  function PlannedConsumption(d: real, speed: int): (c: real)
    requires speed != 0
    ensures d >= 0.0 && speed > 0 ==> c >= 0.0
  {
    var secs := d / speed as real * 3600.0;
    var a := Autonomy(speed, 5000.0, 0.93);
    secs * (5000.0 / a)
  }

  /** The planned consumption of every leg of a route. */
  function Consumptions(dist: Distance, route: seq<int>, speeds: seq<int>): (cons: seq<real>)
    requires |speeds| >= LegCount(route)
    requires forall i :: 0 <= i < LegCount(route) ==> speeds[i] != 0
    ensures |cons| == LegCount(route)
  {
    seq(LegCount(route), i requires 0 <= i < LegCount(route) => PlannedConsumption(dist(route[i], route[i + 1]), speeds[i]))
  }

  /** Whether the planner lands before a leg: the battery cannot cover the
      leg and the stop. */
  predicate MustLand(battery: real, c: real) {
    battery < c + STOP_CONSUMPTION as real
  }

  /** The planner's battery after a leg: recharged when it lands, reduced by
      the leg otherwise, and reduced by the stop in both cases. */
  function Drain(battery: real, c: real): real {
    (if MustLand(battery, c) then FULL_BATTERY else battery - c) - STOP_CONSUMPTION as real
  }

  /** The planner's battery after the given legs. */
  function BatteryAfter(battery: real, cons: seq<real>): real
    decreases |cons|
  {
    if cons == [] then battery
    else Drain(BatteryAfter(battery, cons[..|cons| - 1]), cons[|cons| - 1])
  }

  /** The landing flags the planner sets for the given legs. */
  function PlanLandings(battery: real, cons: seq<real>): (flags: seq<bool>)
    ensures |flags| == |cons|
    decreases |cons|
  {
    if cons == [] then []
    else
      var init := cons[..|cons| - 1];
      PlanLandings(battery, init) + [MustLand(BatteryAfter(battery, init), cons[|cons| - 1])]
  }

  /** A leg gets a landing flag exactly when the battery left by the legs
      before it cannot cover it and the stop. */
  lemma {:induction false} PlanLandingsAt(battery: real, cons: seq<real>, i: nat)
    requires i < |cons|
    ensures PlanLandings(battery, cons)[i] <==> MustLand(BatteryAfter(battery, cons[..i]), cons[i])
    decreases |cons|
  {
    var init := cons[..|cons| - 1];
    if i < |cons| - 1 {
      PlanLandingsAt(battery, init, i);
      assert init[..i] == cons[..i];
    } else {
      assert init == cons[..i];
    }
  }

  /** Starting within a full battery, the planner's battery stays within a
      full battery and never goes below zero, whatever the legs, provided
      no leg has a negative consumption. */
  lemma {:induction false} BatteryAfterInRange(battery: real, cons: seq<real>)
    requires 0.0 <= battery <= FULL_BATTERY
    requires forall i :: 0 <= i < |cons| ==> cons[i] >= 0.0
    ensures 0.0 <= BatteryAfter(battery, cons) <= FULL_BATTERY
    decreases |cons|
  {
    if cons != [] {
      BatteryAfterInRange(battery, cons[..|cons| - 1]);
    }
  }

  /** Total of the consumptions plus one stop per leg. */
  function Demand(cons: seq<real>): real
    decreases |cons|
  {
    if cons == [] then 0.0 else Demand(cons[..|cons| - 1]) + cons[|cons| - 1] + STOP_CONSUMPTION as real
  }

  /** When the battery covers all the legs and their stops, the planner
      never lands, and what is left is the battery less that demand. */
  lemma {:induction false} NoLandingWhenCovered(battery: real, cons: seq<real>)
    requires forall i :: 0 <= i < |cons| ==> cons[i] >= 0.0
    requires battery >= Demand(cons)
    ensures BatteryAfter(battery, cons) == battery - Demand(cons)
    ensures forall i :: 0 <= i < |cons| ==> !PlanLandings(battery, cons)[i]
    decreases |cons|
  {
    if cons != [] {
      var init := cons[..|cons| - 1];
      assert Demand(init) <= Demand(cons);
      NoLandingWhenCovered(battery, init);
    }
  }

  /** `_gerar_tempos_pouso_inteligentes`: walks the legs with a battery that
      starts full, sets the landing flag when the battery cannot cover the
      leg and the stop, and recharges then. */
  method GenerateLandings(dist: Distance, route: seq<int>, speeds: seq<int>) returns (landings: seq<bool>)
    requires |speeds| >= LegCount(route)
    requires forall i :: 0 <= i < LegCount(route) ==> speeds[i] != 0
    ensures landings == PlanLandings(FULL_BATTERY, Consumptions(dist, route, speeds))
  {
    ghost var cons := Consumptions(dist, route, speeds);
    landings := [];
    var battery := FULL_BATTERY;
    for i := 0 to LegCount(route)
      invariant landings == PlanLandings(FULL_BATTERY, cons[..i])
      invariant battery == BatteryAfter(FULL_BATTERY, cons[..i])
    {
      var d := dist(route[i], route[i + 1]);
      var consumption := PlannedConsumption(d, speeds[i]);
      assert cons[..i + 1][..i] == cons[..i];
      if battery < consumption + 72.0 {
        landings := landings + [true];
        battery := FULL_BATTERY;
      } else {
        landings := landings + [false];
        battery := battery - consumption;
      }
      battery := battery - 72.0;
    }
    assert cons[..LegCount(route)] == cons;
  }

  /** `criar_individuo_vizinho_mais_proximo`: the greedy tour from the depot
      and back, with speeds by leg length and planned landing flags. */
  method NearestNeighbourIndividual(depot: int, ids: seq<int>, dist: Distance, pick: Stream) returns (ind: Individual)
    ensures ind.route == [depot] + GreedyOrder(dist, depot, ids) + [depot]
    ensures Tour(depot, ids, ind.route) && Sized(ind) && SpeedsOk(ind.speeds)
    ensures forall i :: 0 <= i < |ind.speeds| ==>
      ind.speeds[i] == BucketSpeed(dist(ind.route[i], ind.route[i + 1]), pick(i))
    ensures ind.landings == PlanLandings(FULL_BATTERY, Consumptions(dist, ind.route, ind.speeds))
    ensures Distinct(ids) && depot !in ids && |ids| >= 1 ==>
      ValidateIds(depot, ind.route, ind.speeds, ind.landings) == Accepted
  {
    var order := NearestNeighbourTour(dist, depot, ids);
    var route := [depot] + order + [depot];
    assert Interior(route) == order;
    assert |order| == |multiset(order)| == |multiset(ids)| == |ids|;
    assert Tour(depot, ids, route);
    var speeds := GenerateSpeeds(dist, route, pick);
    assert forall i :: 0 <= i < |speeds| ==> speeds[i] >= MIN_SPEED;
    var landings := GenerateLandings(dist, route, speeds);
    ind := Individual(route, speeds, landings);
    assert Sized(ind);
    if Distinct(ids) && depot !in ids && |ids| >= 1 {
      TourAccepted(depot, ids, ind);
    }
  }
}
