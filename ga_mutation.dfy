/** Mutation of the genetic search (src/algorithms/genetic_algorithm.py:173-247):
    either the nearest-neighbour reordering of a section of the route, or
    the traditional mutation that may swap two inner stops, redraws some
    speeds and flips some landing flags. */
module Mutation {
  import opened Common
  import opened Config
  import opened Validation
  import opened Individuals
  import opened Construction

  /** `random.sample(range(1, n - 1), 2)`: two distinct inner positions of a
      route of `n` stops, from two draws. */
  function SwapPositions(n: int, a: nat, b: nat): (r: (nat, nat))
    requires n >= 4
    ensures 1 <= r.0 <= n - 2 && 1 <= r.1 <= n - 2 && r.0 != r.1
  {
    var m := n - 2;
    var i := a % m;
    var s := i + 1 + b % (m - 1);
    var j := if s < m then s else s - m;
    (1 + i, 1 + j)
  }

  /** The sequence with the elements at `i` and `j` exchanged. */
  function Swap(s: seq<int>, i: nat, j: nat): (r: seq<int>)
    requires i < |s| && j < |s|
    ensures |r| == |s| && r[i] == s[j] && r[j] == s[i]
    ensures forall k :: 0 <= k < |s| && k != i && k != j ==> r[k] == s[k]
  {
    s[i := s[j]][j := s[i]]
  }

  /** Exchanging two elements keeps the multiset of elements. */
  lemma SwapIsPermutation(s: seq<int>, i: nat, j: nat)
    requires i < |s| && j < |s|
    ensures multiset(Swap(s, i, j)) == multiset(s)
  {
    var t := s[i := s[j]];
    assert multiset(t) == multiset(s) - multiset{s[i]} + multiset{s[j]};
    assert multiset(t[j := s[i]]) == multiset(t) - multiset{t[j]} + multiset{s[i]};
  }

  /** The draws of the traditional mutation: whether to swap and the two
      positions, then per speed whether to redraw it and the new speed, and
      per landing flag whether to flip it. */
  datatype MutationDraws = MutationDraws(swap: bool, first: nat, second: nat, redraw: Stream, speed: Stream, flip: Stream)

  /** The loop over the speeds: each is replaced by a drawn speed when its
      coin comes up. */
  method RedrawSpeeds(speeds: seq<int>, redraw: Stream, pick: Stream) returns (r: seq<int>)
    ensures |r| == |speeds|
    ensures forall i :: 0 <= i < |r| ==> r[i] == if Coin(redraw, i) then SpeedFromPick(pick(i)) else speeds[i]
  {
    r := speeds;
    for i := 0 to |r|
      invariant |r| == |speeds|
      invariant forall k :: 0 <= k < i ==> r[k] == if Coin(redraw, k) then SpeedFromPick(pick(k)) else speeds[k]
      invariant forall k :: i <= k < |r| ==> r[k] == speeds[k]
    {
      if Coin(redraw, i) {
        r := r[i := SpeedFromPick(pick(i))];
      }
    }
  }

  /** The loop over the landing flags: each is negated when its coin comes up. */
  method FlipLandings(landings: seq<bool>, flip: Stream) returns (r: seq<bool>)
    ensures |r| == |landings|
    ensures forall i :: 0 <= i < |r| ==> r[i] == (landings[i] != Coin(flip, i))
  {
    r := landings;
    for i := 0 to |r|
      invariant |r| == |landings|
      invariant forall k :: 0 <= k < i ==> r[k] == (landings[k] != Coin(flip, k))
      invariant forall k :: i <= k < |r| ==> r[k] == landings[k]
    {
      if Coin(flip, i) {
        r := r[i := !r[i]];
      }
    }
  }

  /** What the traditional branch makes of `ind`: the route as it was, or
      with the two drawn inner stops exchanged; each speed redrawn when its
      coin comes up; each landing flag negated when its coin comes up. */
  predicate TraditionallyMutated(ind: Individual, d: MutationDraws, m: Individual) {
    && (!d.swap ==> m.route == ind.route)
    && (d.swap ==> |ind.route| >= 4 && var (i, j) := SwapPositions(|ind.route|, d.first, d.second);
         m.route == Swap(ind.route, i, j))
    && |m.speeds| == |ind.speeds| && |m.landings| == |ind.landings|
    && (forall i :: 0 <= i < |m.speeds| ==>
         m.speeds[i] == if Coin(d.redraw, i) then SpeedFromPick(d.speed(i)) else ind.speeds[i])
    && (forall i :: 0 <= i < |m.landings| ==> m.landings[i] == (ind.landings[i] != Coin(d.flip, i)))
  }

  /** The traditional branch of `mutar`: possibly swap two distinct inner
      stops, then redraw speeds and flip landing flags one by one. */
  method TraditionalMutation(ind: Individual, d: MutationDraws) returns (m: Individual)
    requires d.swap ==> |ind.route| >= 4
    ensures TraditionallyMutated(ind, d, m)
  {
    var route := ind.route;
    if d.swap {
      var (i, j) := SwapPositions(|route|, d.first, d.second);
      route := route[i := route[j]][j := route[i]];
    }
    var speeds := RedrawSpeeds(ind.speeds, d.redraw, d.speed);
    var landings := FlipLandings(ind.landings, d.flip);
    m := Individual(route, speeds, landings);
  }

  /** Exchanging two inner stops exchanges them in the interior, so the
      route keeps its ends and the multiset of its inner stops. */
  lemma SwapInner(s: seq<int>, i: nat, j: nat)
    requires 1 <= i <= |s| - 2 && 1 <= j <= |s| - 2
    ensures var r := Swap(s, i, j);
      && r[0] == s[0] && r[|r| - 1] == s[|s| - 1]
      && multiset(r) == multiset(s)
      && multiset(Interior(r)) == multiset(Interior(s))
  {
    SwapIsPermutation(s, i, j);
    var a, b := Interior(s), Interior(Swap(s, i, j));
    var c := Swap(a, i - 1, j - 1);
    forall k | 0 <= k < |a| ensures b[k] == c[k] {
      assert b[k] == Swap(s, i, j)[k + 1] && a[k] == s[k + 1];
    }
    assert b == c;
    SwapIsPermutation(a, i - 1, j - 1);
  }

  /** The traditional mutation keeps the sizes, the two ends, the multiset of
      stops and the speed domain, so a valid solution stays valid. */
  lemma TraditionalMutationKeepsShape(ind: Individual, d: MutationDraws, m: Individual)
    requires TraditionallyMutated(ind, d, m)
    ensures |m.route| == |ind.route| && multiset(m.route) == multiset(ind.route)
    ensures |m.route| >= 2 ==> m.route[0] == ind.route[0] && m.route[|m.route| - 1] == ind.route[|ind.route| - 1]
    ensures |m.route| >= 2 ==> multiset(Interior(m.route)) == multiset(Interior(ind.route))
    ensures SpeedsOk(ind.speeds) ==> SpeedsOk(m.speeds)
    ensures forall depot: int :: ValidateIds(depot, ind.route, ind.speeds, ind.landings) == Accepted ==>
      ValidateIds(depot, m.route, m.speeds, m.landings) == Accepted
  {
    TraditionalRouteKept(ind, d, m);
    RedrawKeepsDomain(ind.speeds, d, m.speeds);
    forall depot: int | ValidateIds(depot, ind.route, ind.speeds, ind.landings) == Accepted
      ensures ValidateIds(depot, m.route, m.speeds, m.landings) == Accepted
    {
      ValidateIdsAcceptsWellFormed(depot, ind.route, ind.speeds, ind.landings);
      InnerReorderKeepsAccepted(depot, ind.route, m.route, ind.speeds, ind.landings, m.speeds, m.landings);
    }
  }

  /** The swap, when drawn, exchanges two inner stops, so the route keeps
      its size, its ends and its stops. */
  lemma TraditionalRouteKept(ind: Individual, d: MutationDraws, m: Individual)
    requires d.swap ==> |ind.route| >= 4
    requires !d.swap ==> m.route == ind.route
    requires d.swap ==> var (i, j) := SwapPositions(|ind.route|, d.first, d.second);
      m.route == Swap(ind.route, i, j)
    ensures |m.route| == |ind.route| && multiset(m.route) == multiset(ind.route)
    ensures |m.route| >= 2 ==> m.route[0] == ind.route[0] && m.route[|m.route| - 1] == ind.route[|ind.route| - 1]
    ensures |m.route| >= 2 ==> multiset(Interior(m.route)) == multiset(Interior(ind.route))
  {
    if d.swap {
      var (i, j) := SwapPositions(|ind.route|, d.first, d.second);
      SwapInner(ind.route, i, j);
    }
  }

  /** Speeds redrawn from the domain or kept stay in the domain. */
  lemma RedrawKeepsDomain(speeds: seq<int>, d: MutationDraws, r: seq<int>)
    requires |r| == |speeds|
    requires forall i :: 0 <= i < |r| ==> r[i] == if Coin(d.redraw, i) then SpeedFromPick(d.speed(i)) else speeds[i]
    ensures SpeedsOk(speeds) ==> SpeedsOk(r)
  {
    if SpeedsOk(speeds) {
      forall i | 0 <= i < |r| ensures IsSpeed(r[i]) {
        if !Coin(d.redraw, i) { assert r[i] == speeds[i]; }
      }
    }
  }

  /** `random.randint(1, n - 4)` and `random.randint(start + 2, n - 2)`: the
      section `[start, end)` of a route of `n` stops, from two draws. */
  function SectionBounds(n: int, a: nat, b: nat): (r: (nat, nat))
    requires n >= 6
    ensures 1 <= r.0 && r.0 + 2 <= r.1 <= n - 2
  {
    var lo := 1 + a % (n - 4);
    (lo, lo + 2 + b % (n - 3 - lo))
  }

  /** The section's stops other than the depot, in order. */
  function WithoutDepot(depot: int, s: seq<int>): (r: seq<int>)
    ensures |r| <= |s| && depot !in r
    ensures depot !in s ==> r == s
  {
    if s == [] then []
    else (if s[0] == depot then [] else [s[0]]) + WithoutDepot(depot, s[1..])
  }

  /** Where the reordered section is entered from: the depot for a section
      at the start of the route, the stop before the section otherwise. */
  function SectionEntry(depot: int, route: seq<int>, lo: nat): int
    requires 1 <= lo <= |route|
  {
    if lo == 1 then depot else route[lo - 1]
  }

  /** The draws of the section mutation: the two bounds and one speed draw
      per rewritten leg. */
  datatype SectionDraws = SectionDraws(start: nat, end: nat, speed: Stream)

  /** The speeds after the legs `[lo, hi)` of `route` got new speeds from
      the buckets of their lengths; the other speeds are kept. */
  predicate Rebucketed(dist: Distance, route: seq<int>, speeds: seq<int>, lo: nat, hi: nat, pick: Stream, r: seq<int>)
    requires hi < |route|
  {
    && |r| == |speeds|
    && (forall i :: lo <= i < hi && i < |r| ==> r[i] == BucketSpeed(dist(route[i], route[i + 1]), pick(i)))
    && (forall i :: 0 <= i < |r| && !(lo <= i < hi) ==> r[i] == speeds[i])
  }

  /** The loop over the legs `[lo, hi)` of the reordered route: each leg
      whose speed exists gets a new speed from the bucket of its length. */
  method RebucketSpeeds(dist: Distance, route: seq<int>, speeds: seq<int>, lo: nat, hi: nat, pick: Stream)
    returns (r: seq<int>)
    requires hi < |route|
    ensures Rebucketed(dist, route, speeds, lo, hi, pick, r)
  {
    r := speeds;
    if lo < hi {
      for i := lo to hi
        invariant |r| == |speeds|
        invariant forall k :: lo <= k < i && k < |r| ==> r[k] == BucketSpeed(dist(route[k], route[k + 1]), pick(k))
        invariant forall k :: 0 <= k < |r| && !(lo <= k < i) ==> r[k] == speeds[k]
      {
        if i < |r| {
          r := r[i := BucketSpeed(dist(route[i], route[i + 1]), pick(i))];
        }
      }
    }
  }

  /** Speeds taken from the buckets stay in the domain. */
  lemma RebucketedKeepsDomain(dist: Distance, route: seq<int>, speeds: seq<int>, lo: nat, hi: nat, pick: Stream, r: seq<int>)
    requires hi < |route| && Rebucketed(dist, route, speeds, lo, hi, pick, r)
    ensures SpeedsOk(speeds) ==> SpeedsOk(r)
  {
    if SpeedsOk(speeds) {
      forall i | 0 <= i < |r| ensures IsSpeed(r[i]) {
        if lo <= i < hi {
          assert r[i] == BucketSpeed(dist(route[i], route[i + 1]), pick(i));
        } else {
          assert r[i] == speeds[i];
        }
      }
    }
  }

  /** The route the section mutation builds: the stops before the section,
      the section's non-depot stops in nearest-neighbour order from the
      entry stop, and the stops after it. */
  function Reordered(depot: int, dist: Distance, route: seq<int>, lo: nat, hi: nat): seq<int>
    requires 1 <= lo <= hi <= |route|
  {
    route[..lo] + GreedyOrder(dist, SectionEntry(depot, route, lo), WithoutDepot(depot, route[lo..hi])) + route[hi..]
  }

  /** What the section mutation does to the section `[lo, hi)`: the route
      is reordered, the landing flags are kept, and each leg starting in
      the section whose speed exists gets a speed from the bucket of its
      new length. */
  predicate SectionReordered(depot: int, dist: Distance, ind: Individual, lo: nat, hi: nat, pick: Stream, m: Individual)
    requires 1 <= lo <= hi <= |ind.route|
  {
    && m.route == Reordered(depot, dist, ind.route, lo, hi)
    && m.landings == ind.landings
    && |m.route| >= 1
    && Rebucketed(dist, m.route, ind.speeds, lo, Min(hi, |m.route| - 1), pick, m.speeds)
  }

  /** The part of `_mutacao_vizinho_mais_proximo` after the checks: the
      nearest-neighbour loop over the section's non-depot stops, entered
      from the depot or from the stop before the section, then the loop
      over the speeds of the new section. */
  method ReorderSection(depot: int, dist: Distance, ind: Individual, lo: nat, hi: nat, pick: Stream) returns (m: Individual)
    requires 1 <= lo <= hi <= |ind.route|
    ensures SectionReordered(depot, dist, ind, lo, hi, pick, m)
  {
    var order := NearestNeighbourTour(dist, SectionEntry(depot, ind.route, lo), WithoutDepot(depot, ind.route[lo..hi]));
    var route := ind.route[..lo] + order + ind.route[hi..];
    assert route == Reordered(depot, dist, ind.route, lo, hi);
    var last := Min(hi, |route| - 1);
    var speeds := RebucketSpeeds(dist, route, ind.speeds, lo, last, pick);
    m := Individual(route, speeds, ind.landings);
    assert m.route == route && m.speeds == speeds;
    assert m.route == Reordered(depot, dist, ind.route, lo, hi);
    assert m.landings == ind.landings;
    assert |m.route| >= 1;
    assert Min(hi, |m.route| - 1) == last;
    assert Rebucketed(dist, m.route, ind.speeds, lo, Min(hi, |m.route| - 1), pick, m.speeds);
  }

  /** What the section branch makes of `ind`: routes of fewer than six
      stops, and sections with fewer than two non-depot stops, are left
      alone; otherwise the section drawn is reordered. */
  predicate SectionMutated(depot: int, dist: Distance, ind: Individual, d: SectionDraws, m: Individual) {
    if |ind.route| < 6 then m == ind
    else
      var (lo, hi) := SectionBounds(|ind.route|, d.start, d.end);
      if |WithoutDepot(depot, ind.route[lo..hi])| < 2 then m == ind
      else SectionReordered(depot, dist, ind, lo, hi, d.speed, m)
  }

  /** `_mutacao_vizinho_mais_proximo`. */
  method SectionMutation(depot: int, dist: Distance, ind: Individual, d: SectionDraws) returns (m: Individual)
    ensures SectionMutated(depot, dist, ind, d, m)
  {
    if |ind.route| < 6 {
      return ind;
    }
    var (lo, hi) := SectionBounds(|ind.route|, d.start, d.end);
    var section := WithoutDepot(depot, ind.route[lo..hi]);
    if |section| < 2 {
      return ind;
    }
    m := ReorderSection(depot, dist, ind, lo, hi, d.speed);
  }

  function Min(a: int, b: int): int {
    if a <= b then a else b
  }

  /** Replacing a section of `a` by a sequence as long keeps every other
      position, and the inner stops become the old ones with the section
      replaced. */
  lemma SpliceSameLength<T>(a: seq<T>, s: seq<T>, lo: nat, hi: nat)
    requires 1 <= lo <= hi <= |a| - 1 && |s| == hi - lo
    ensures var b := a[..lo] + s + a[hi..];
      && |b| == |a| && b[lo..hi] == s
      && (forall i :: 0 <= i < |a| && !(lo <= i < hi) ==> b[i] == a[i])
      && Interior(b) == a[1..lo] + s + a[hi..|a| - 1]
      && Interior(a) == a[1..lo] + a[lo..hi] + a[hi..|a| - 1]
  {
    var b := a[..lo] + s + a[hi..];
    assert |b| == |a|;
    forall i | 0 <= i < |a| ensures b[i] == if lo <= i < hi then s[i - lo] else a[i] {
      if i < lo { assert b[i] == a[..lo][i]; }
      else if i < hi { assert b[i] == (a[..lo] + s)[i]; }
      else { assert b[i] == a[hi..][i - hi]; }
    }
    assert b[lo..hi] == s;
    var c := a[1..lo] + s + a[hi..|a| - 1];
    assert |Interior(b)| == |c|;
    forall i | 0 <= i < |c| ensures Interior(b)[i] == c[i] {
      if i < lo - 1 { assert c[i] == a[1..lo][i]; }
      else if i < hi - 1 { assert c[i] == (a[1..lo] + s)[i]; }
      else { assert c[i] == a[hi..|a| - 1][i - (hi - 1)]; }
    }
    assert a[1..lo] + a[lo..hi] + a[hi..|a| - 1] == a[1..|a| - 1];
  }

  /** A section free of the depot is reordered among itself: the route
      keeps its size, its stops outside the section and its multiset of
      stops. */
  lemma ReorderedKeepsTour(depot: int, dist: Distance, ind: Individual, lo: nat, hi: nat)
    requires 1 <= lo <= hi <= |ind.route| - 1
    requires depot !in ind.route[lo..hi]
    ensures var r := Reordered(depot, dist, ind.route, lo, hi);
      && |r| == |ind.route|
      && (forall i :: 0 <= i < |r| && !(lo <= i < hi) ==> r[i] == ind.route[i])
      && multiset(r[lo..hi]) == multiset(ind.route[lo..hi])
      && multiset(Interior(r)) == multiset(Interior(ind.route))
  {
    var route := ind.route;
    var mid := route[lo..hi];
    var order := GreedyOrder(dist, SectionEntry(depot, route, lo), mid);
    assert |order| == |multiset(order)| == |mid|;
    SpliceSameLength(route, order, lo, hi);
  }

  /** On a route that leaves and returns to the depot without passing
      through it, the section holds no depot, so the section mutation keeps
      the route's size and shape and keeps a valid solution valid; it also
      keeps every speed in the domain. */
  lemma SectionReorderKeepsShape(depot: int, dist: Distance, ind: Individual, lo: nat, hi: nat, pick: Stream, m: Individual)
    requires 1 <= lo <= hi <= |ind.route| - 1
    requires SectionReordered(depot, dist, ind, lo, hi, pick, m)
    ensures DepotBounded(depot, ind.route) ==> |m.route| == |ind.route| && DepotBounded(depot, m.route)
    ensures SpeedsOk(ind.speeds) ==> SpeedsOk(m.speeds)
    ensures ValidateIds(depot, ind.route, ind.speeds, ind.landings) == Accepted ==>
      ValidateIds(depot, m.route, m.speeds, m.landings) == Accepted
  {
    RebucketedKeepsDomain(dist, m.route, ind.speeds, lo, Min(hi, |m.route| - 1), pick, m.speeds);
    ValidateIdsAcceptsWellFormed(depot, ind.route, ind.speeds, ind.landings);
    if DepotBounded(depot, ind.route) {
      forall k | lo <= k < hi ensures ind.route[k] != depot {
        assert ind.route[k] == Interior(ind.route)[k - 1];
      }
      ReorderedKeepsTour(depot, dist, ind, lo, hi);
      assert depot !in multiset(Interior(ind.route));
      if ValidateIds(depot, ind.route, ind.speeds, ind.landings) == Accepted {
        InnerReorderKeepsAccepted(depot, ind.route, m.route, ind.speeds, ind.landings, m.speeds, m.landings);
      }
    }
  }

  /** Every draw of `mutar`: the 30% choice of the section mutation, then
      the draws of either branch. */
  datatype MutateDraws = MutateDraws(section: bool, sectionDraws: SectionDraws, traditional: MutationDraws)

  /** What `mutar` makes of `ind`: the section branch when its choice came
      up, the traditional branch otherwise. */
  predicate Mutated(depot: int, dist: Distance, ind: Individual, d: MutateDraws, m: Individual) {
    if d.section then SectionMutated(depot, dist, ind, d.sectionDraws, m)
    else TraditionallyMutated(ind, d.traditional, m)
  }

  /** `mutar`: the section mutation, or the traditional one. Both keep the
      number of speeds and landing flags, keep a depot-bounded route
      depot-bounded and as long, keep speeds in the domain and keep a valid
      solution valid. */
  method Mutate(depot: int, dist: Distance, ind: Individual, d: MutateDraws) returns (m: Individual)
    requires !d.section && d.traditional.swap ==> |ind.route| >= 4
    ensures |m.speeds| == |ind.speeds| && |m.landings| == |ind.landings|
    ensures DepotBounded(depot, ind.route) ==> |m.route| == |ind.route| && DepotBounded(depot, m.route)
    ensures ValidateIds(depot, ind.route, ind.speeds, ind.landings) == Accepted ==>
      ValidateIds(depot, m.route, m.speeds, m.landings) == Accepted
    ensures SpeedsOk(ind.speeds) ==> SpeedsOk(m.speeds)
    ensures Mutated(depot, dist, ind, d, m)
  {
    if d.section {
      m := SectionMutation(depot, dist, ind, d.sectionDraws);
      if |ind.route| >= 6 {
        var (lo, hi) := SectionBounds(|ind.route|, d.sectionDraws.start, d.sectionDraws.end);
        if |WithoutDepot(depot, ind.route[lo..hi])| >= 2 {
          SectionReorderKeepsShape(depot, dist, ind, lo, hi, d.sectionDraws.speed, m);
        }
      }
    } else {
      m := TraditionalMutation(ind, d.traditional);
      TraditionalMutationKeepsShape(ind, d.traditional, m);
      if DepotBounded(depot, ind.route) {
        assert depot !in multiset(Interior(ind.route));
      }
    }
  }
}
