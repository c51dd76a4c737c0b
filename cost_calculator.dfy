/** Route evaluation (src/core/cost_calculator.py, `calcular_custo_rota_ids`):
    the drone flies the legs of a route in order, on a clock that starts on
    day 1 at 06:00:00, recharging when the battery cannot cover a leg,
    paying for landings late in the day, and giving up when a leg would end
    after the seventh day.

    The flight time of a leg, `ceil(distance / effective speed * 3600)`,
    rests on floating-point trigonometry (great-circle distance, bearing,
    wind composition); it is a parameter here: any function from the two
    end points, the cruise speed and the wind to whole seconds. */
module CostCalculation {
  import opened Common
  import opened Config
  import opened Calculations
  import opened DataManagement

  /** Seconds of flight between two points at a speed in a wind. */
  type FlightTime = (Coord, Coord, int, Wind) -> nat

  /** What the evaluation reads from the data manager, as values: the
      coordinates of each code, the registry's identifier-to-code map and the
      weather table. */
  datatype Snapshot = Snapshot(ceps: map<string, Coord>, idToCep: map<int, string>, weather: WeatherTable)

  /** The data manager's current lookups. */
  function SnapshotOf(dm: DataManager): (w: Snapshot)
    reads dm, dm.mapper
    ensures dm.Valid() ==> HoursTabulated(w.weather)
  {
    Snapshot(dm.ceps, dm.mapper.idToCep, dm.weather)
  }

  /** `obter_cep_por_id`: the code of an identifier, "" when unknown. */
  function CepOfId(w: Snapshot, id: int): string {
    if id in w.idToCep then w.idToCep[id] else ""
  }

  /** `obter_coords_por_id`: the coordinates of an identifier's code. */
  function CoordsOfId(w: Snapshot, id: int): Coord {
    CoordsIn(w.ceps, CepOfId(w, id))
  }

  /** The snapshot answers exactly as the data manager does. */
  lemma SnapshotAgrees(dm: DataManager, id: int, day: int, hour: int)
    requires dm.Valid()
    ensures CepOfId(SnapshotOf(dm), id) == dm.CepById(id)
    ensures CoordsOfId(SnapshotOf(dm), id) == dm.CoordsById(id)
    ensures WindIn(SnapshotOf(dm).weather, day, hour) == dm.ClimateAt(day, hour)
  {
  }

  datatype Clock = Clock(day: int, hour: int, minute: int, second: int)

  /** One entry of the route trace. */
  datatype Leg = Leg(
    startCep: string, startCoords: Coord, start: Clock, speed: int,
    endCep: string, endCoords: Coord, landing: bool, end: Clock)

  /** The loop variables of the evaluation after some legs. */
  datatype Sim = Sim(clock: Clock, battery: real, totalTime: int, totalCost: int, legs: seq<Leg>)

  /** `(inf, {"error": ...})` or `(fitness, {route_info, total_time, total_cost})`. */
  datatype Evaluation =
    | Infeasible
    | Feasible(fitness: int, legs: seq<Leg>, totalTime: int, totalCost: int)

  const START_CLOCK: Clock := Clock(1, START_HOUR, 0, 0)

  /** A clock inside the operation: one of the seven days, within working
      hours, minutes and seconds in range. */
  predicate ClockOk(c: Clock) {
    && 1 <= c.day <= MAX_DAYS
    && START_HOUR <= c.hour < END_HOUR
    && 0 <= c.minute < 60 && 0 <= c.second < 60
  }

  /** Seconds since midnight of the clock's day. */
  function SecondOfDay(c: Clock): int {
    c.hour * 3600 + c.minute * 60 + c.second
  }

  /** Clocks ordered by day, then by time of day. */
  predicate ClockLe(a: Clock, b: Clock) {
    a.day < b.day || (a.day == b.day && SecondOfDay(a) <= SecondOfDay(b))
  }

  /** The clock after `secs` more seconds: seconds and minutes carry, and an
      end at or after the closing hour moves to the opening hour of the next
      day, keeping minutes and seconds. */
  function Tick(c: Clock, secs: nat): (e: Clock)
    requires ClockOk(c)
    ensures 0 <= e.minute < 60 && 0 <= e.second < 60
    ensures e.day == c.day ==> START_HOUR <= e.hour < END_HOUR && SecondOfDay(e) == SecondOfDay(c) + secs
    ensures e.day != c.day ==> e.day == c.day + 1 && e.hour == START_HOUR
    ensures e.day != c.day <==> SecondOfDay(c) + secs >= END_HOUR * 3600
    ensures e.minute * 60 + e.second == (SecondOfDay(c) + secs) % 3600
  {
    var s := c.second + secs;
    var m := c.minute + s / 60;
    var h := c.hour + m / 60;
    if h >= END_HOUR then Clock(c.day + 1, START_HOUR, m % 60, s % 60)
    else Clock(c.day, h, m % 60, s % 60)
  }

  /** The battery the drone leaves with when flying at `speed`. */
  function FullCharge(speed: int): (b: real)
    ensures 0.0 < b <= BASE_AUTONOMY * AUTONOMY_CORRECTION
  {
    Autonomy(speed, BASE_AUTONOMY, AUTONOMY_CORRECTION)
  }

  /** Battery units a flight of `secs` seconds consumes at `speed`. */
  function Consumption(secs: nat, speed: int): (c: real)
    ensures c >= 0.0
    ensures secs > 0 ==> c >= secs as real
  {
    var a := FullCharge(speed);
    assert BASE_AUTONOMY / a >= 1.0 by {
      assert a <= BASE_AUTONOMY;
    }
    secs as real * (BASE_AUTONOMY / a)
  }

  /** Charge of one landing started at `hour`. */
  function LandingCharge(hour: int): (c: int)
    ensures c == 0 || c == LANDING_COST
    ensures c > 0 <==> hour >= LATE_HOUR
  {
    if hour >= LATE_HOUR then LANDING_COST else 0
  }

  function Initial(speed: int): Sim {
    Sim(START_CLOCK, FullCharge(speed), 0, 0, [])
  }

  /** Seconds a recorded leg took: its flight plus the stop. */
  function LegSeconds(w: Snapshot, flight: FlightTime, leg: Leg): (secs: nat)
    requires HoursTabulated(w.weather)
    ensures secs >= STOP_CONSUMPTION
  {
    flight(leg.startCoords, leg.endCoords, leg.speed, WindIn(w.weather, leg.start.day, leg.start.hour)) + STOP_CONSUMPTION
  }

  function TotalSeconds(w: Snapshot, flight: FlightTime, legs: seq<Leg>): (t: nat)
    requires HoursTabulated(w.weather)
    ensures t >= 72 * |legs|
  {
    if legs == [] then 0
    else TotalSeconds(w, flight, legs[..|legs| - 1]) + LegSeconds(w, flight, legs[|legs| - 1])
  }

  /** Legs that landed at or after the late hour. */
  function LateLandings(legs: seq<Leg>): (n: nat)
    ensures n <= |legs|
  {
    if legs == [] then 0
    else
      var last := legs[|legs| - 1];
      LateLandings(legs[..|legs| - 1]) + (if last.landing && last.start.hour >= LATE_HOUR then 1 else 0)
  }

  /** What the data manager and the flight model report for a leg started
      at clock `c`: the codes and coordinates of both ends and the flight
      time in the wind of that day and hour. */
  datatype Observation = Observation(startCep: string, startCoords: Coord, endCep: string, endCoords: Coord, secs: nat)

  function Observe(w: Snapshot, flight: FlightTime, c: Clock, from: int, to: int, speed: int): Observation
    requires HoursTabulated(w.weather)
  {
    var a := CoordsOfId(w, from);
    var b := CoordsOfId(w, to);
    Observation(CepOfId(w, from), a, CepOfId(w, to), b, flight(a, b, speed, WindIn(w.weather, c.day, c.hour)))
  }

  /** The battery cannot cover the flight and the stop after it, so the
      drone lands to recharge before the leg. */
  predicate Forced(s: Sim, o: Observation, speed: int) {
    s.battery < Consumption(o.secs, speed) + STOP_CONSUMPTION as real
  }

  /** The loop body once the leg is observed: recharge when the battery
      cannot cover the flight and the stop, charge late landings (a forced
      one twice: once when forced and once as a landing), advance the clock,
      and stop (`None`) when the leg ends past the last day. */
  function Advance(s: Sim, o: Observation, speed: int, planned: bool): (r: Option<Sim>)
    requires ClockOk(s.clock)
    ensures r.Some? ==> ClockOk(r.value.clock) && |r.value.legs| == |s.legs| + 1
  {
    var forced := Forced(s, o, speed);
    var battery := (if forced then FullCharge(speed) else s.battery - Consumption(o.secs, speed)) - STOP_CONSUMPTION as real;
    var landing := planned || forced;
    var cost := s.totalCost + (if forced then LandingCharge(s.clock.hour) else 0)
                            + (if landing then LandingCharge(s.clock.hour) else 0);
    var end := Tick(s.clock, o.secs + STOP_CONSUMPTION);
    if end.day != s.clock.day && end.day > MAX_DAYS then None
    else
      var leg := Leg(o.startCep, o.startCoords, s.clock, speed, o.endCep, o.endCoords, landing, end);
      Some(Sim(end, battery, s.totalTime + o.secs + STOP_CONSUMPTION, cost, s.legs + [leg]))
  }

  /** A leg fails exactly when its end, flight and stop included, falls
      past the last day; so only a leg started on the last day can fail. */
  lemma AdvanceStops(s: Sim, o: Observation, speed: int, planned: bool)
    requires ClockOk(s.clock)
    ensures Advance(s, o, speed, planned).None? <==> Tick(s.clock, o.secs + STOP_CONSUMPTION).day > MAX_DAYS
    ensures Advance(s, o, speed, planned).None? ==> s.clock.day == MAX_DAYS
  {
  }

  /** A leg moves the clock on by the flight and the stop, and appends one
      leg to the trace, starting at the old clock and ending at the new one,
      later on the same day or on the next. */
  lemma AdvanceClock(s: Sim, o: Observation, speed: int, planned: bool)
    requires ClockOk(s.clock)
    ensures var r := Advance(s, o, speed, planned);
      r.Some? ==> r.value.clock == Tick(s.clock, o.secs + STOP_CONSUMPTION)
    ensures var r := Advance(s, o, speed, planned);
      r.Some? ==> var leg := r.value.legs[|s.legs|];
      && r.value.legs == s.legs + [leg]
      && ClockLe(s.clock, r.value.clock) && leg.start == s.clock && leg.end == r.value.clock
  {
  }

  /** The leg appended goes between the observed ends at the given speed,
      and lands when planned or when the battery cannot cover the flight
      and the stop; time grows by the flight and the stop. */
  lemma AdvanceFlies(s: Sim, o: Observation, speed: int, planned: bool)
    requires ClockOk(s.clock)
    ensures var r := Advance(s, o, speed, planned);
      r.Some? ==> var leg := r.value.legs[|s.legs|];
      && r.value.legs == s.legs + [leg]
      && leg.speed == speed
      && leg.startCep == o.startCep && leg.endCep == o.endCep
      && leg.startCoords == o.startCoords && leg.endCoords == o.endCoords
      && (leg.landing <==> planned || Forced(s, o, speed))
      && r.value.totalTime == s.totalTime + o.secs + STOP_CONSUMPTION
  {
  }

  /** A late landing costs 80, or 160 when it was forced (charged once for
      the recharge and once for the landing); nothing else costs anything. */
  lemma AdvanceCost(s: Sim, o: Observation, speed: int, planned: bool)
    requires ClockOk(s.clock)
    ensures var r := Advance(s, o, speed, planned);
      r.Some? ==>
        r.value.totalCost == s.totalCost +
          (if s.clock.hour < LATE_HOUR then 0
           else if Forced(s, o, speed) then 2 * LANDING_COST
           else if planned then LANDING_COST
           else 0)
    ensures var r := Advance(s, o, speed, planned);
      r.Some? ==> var leg := r.value.legs[|s.legs|];
      && r.value.legs == s.legs + [leg]
      && if leg.landing && leg.start.hour >= LATE_HOUR
         then s.totalCost + LANDING_COST <= r.value.totalCost <= s.totalCost + 2 * LANDING_COST
         else r.value.totalCost == s.totalCost
  {
  }

  /** A forced landing recharges to a full charge before the leg; either
      way the leg's flight (when not recharged) and the stop are paid from
      the battery. Hence it stays within a full charge, and above zero when
      a full charge covers a stop. */
  lemma AdvanceBattery(s: Sim, o: Observation, speed: int, planned: bool)
    requires ClockOk(s.clock)
    ensures var r := Advance(s, o, speed, planned);
      r.Some? ==>
        r.value.battery ==
          (if Forced(s, o, speed) then FullCharge(speed) else s.battery - Consumption(o.secs, speed))
          - STOP_CONSUMPTION as real
    ensures var r := Advance(s, o, speed, planned);
      r.Some? && s.battery <= BASE_AUTONOMY * AUTONOMY_CORRECTION ==>
      r.value.battery <= BASE_AUTONOMY * AUTONOMY_CORRECTION
    ensures var r := Advance(s, o, speed, planned);
      r.Some? && s.battery >= 0.0 && FullCharge(speed) >= STOP_CONSUMPTION as real ==>
      r.value.battery >= 0.0
  {
  }

  /** One iteration of the loop: fly from `from` to `to` at `speed`, with a
      planned landing or not. */
  function Step(w: Snapshot, flight: FlightTime, s: Sim, from: int, to: int, speed: int, planned: bool): Option<Sim>
    requires HoursTabulated(w.weather)
    requires ClockOk(s.clock)
  {
    Advance(s, Observe(w, flight, s.clock, from, to, speed), speed, planned)
  }

  /** The inputs the source indexes without checking: the first speed always,
      and one speed and one landing flag per leg. */
  predicate Indexable(route: seq<int>, speeds: seq<int>, landings: seq<bool>) {
    |speeds| >= 1 && |speeds| >= |route| - 1 && |landings| >= |route| - 1
  }

  /** The state after the first `k` legs, `None` once a leg has overrun. */
  function Run(w: Snapshot, flight: FlightTime, route: seq<int>, speeds: seq<int>, landings: seq<bool>, k: nat): (r: Option<Sim>)
    requires HoursTabulated(w.weather) && Indexable(route, speeds, landings)
    requires k <= LegCount(route)
    ensures r.Some? ==> ClockOk(r.value.clock) && |r.value.legs| == k
    decreases k
  {
    if k == 0 then Some(Initial(speeds[0]))
    else
      match Run(w, flight, route, speeds, landings, k - 1)
      case None => None
      case Some(s) => Step(w, flight, s, route[k - 1], route[k], speeds[k - 1], landings[k - 1])
  }

  /** The result of the evaluation. */
  function Evaluate(w: Snapshot, flight: FlightTime, route: seq<int>, speeds: seq<int>, landings: seq<bool>): (e: Evaluation)
    requires HoursTabulated(w.weather) && Indexable(route, speeds, landings)
    ensures e.Feasible? ==> |e.legs| == LegCount(route) && e.fitness == e.totalTime + 10 * e.totalCost
  {
    match Run(w, flight, route, speeds, landings, LegCount(route))
    case None => Infeasible
    case Some(s) => Feasible(s.totalTime + 10 * s.totalCost, s.legs, s.totalTime, s.totalCost)
  }

  /** `calcular_custo_rota_ids`: the loop over the legs, with the early
      return for a leg that overruns the last day. */
  method EvaluateRoute(dm: DataManager, flight: FlightTime, route: seq<int>, speeds: seq<int>, landings: seq<bool>)
    returns (e: Evaluation)
    requires dm.Valid() && Indexable(route, speeds, landings)
    ensures e == Evaluate(SnapshotOf(dm), flight, route, speeds, landings)
  {
    var sim := Initial(speeds[0]);
    var n := LegCount(route);
    for i := 0 to n
      invariant Run(SnapshotOf(dm), flight, route, speeds, landings, i) == Some(sim)
    {
      var next := FlyLegOf(dm, flight, route, speeds, landings, i, sim);
      if next.None? {
        RunStaysNone(SnapshotOf(dm), flight, route, speeds, landings, i + 1, n);
        return Infeasible;
      }
      sim := next.value;
    }
    e := Feasible(sim.totalTime + 10 * sim.totalCost, sim.legs, sim.totalTime, sim.totalCost);
  }

  /** One pass of the loop: observe leg `i` through the data manager and fly it. */
  method FlyLegOf(dm: DataManager, flight: FlightTime, route: seq<int>, speeds: seq<int>, landings: seq<bool>, i: nat, sim: Sim)
    returns (next: Option<Sim>)
    requires dm.Valid() && Indexable(route, speeds, landings)
    requires i < LegCount(route)
    requires Run(SnapshotOf(dm), flight, route, speeds, landings, i) == Some(sim)
    ensures Run(SnapshotOf(dm), flight, route, speeds, landings, i + 1) == next
  {
    var from, to := route[i], route[i + 1];
    var a := dm.CoordsById(from);
    var b := dm.CoordsById(to);
    var wind := dm.ClimateAt(sim.clock.day, sim.clock.hour);
    var secs := flight(a, b, speeds[i], wind);
    var o := Observation(dm.CepById(from), a, dm.CepById(to), b, secs);
    next := FlyLeg(sim, o, speeds[i], landings[i]);
    RunNext(dm, flight, route, speeds, landings, i, sim, a, b, secs, next);
  }

  /** The body of the loop once the leg is observed, on the loop variables. */
  method FlyLeg(s: Sim, o: Observation, speed: int, planned: bool) returns (r: Option<Sim>)
    requires ClockOk(s.clock)
    ensures r == Advance(s, o, speed, planned)
  {
    var battery, totalCost, landing := s.battery, s.totalCost, planned;
    var cons := Consumption(o.secs, speed);
    if battery < cons + STOP_CONSUMPTION as real {
      landing := true;
      battery := FullCharge(speed);
      totalCost := totalCost + LandingCharge(s.clock.hour);
    } else {
      battery := battery - cons;
    }
    battery := battery - STOP_CONSUMPTION as real;
    if landing {
      totalCost := totalCost + LandingCharge(s.clock.hour);
    }
    var totalTime := s.totalTime + o.secs + STOP_CONSUMPTION;
    var clock := Tick(s.clock, o.secs + STOP_CONSUMPTION);
    if clock.day != s.clock.day && clock.day > MAX_DAYS {
      return None;
    }
    var leg := Leg(o.startCep, o.startCoords, s.clock, speed, o.endCep, o.endCoords, landing, clock);
    r := Some(Sim(clock, battery, totalTime, totalCost, s.legs + [leg]));
  }

  /** One more leg of the run, observed through the data manager. */
  lemma RunNext(dm: DataManager, flight: FlightTime, route: seq<int>, speeds: seq<int>, landings: seq<bool>, k: nat,
                s: Sim, a: Coord, b: Coord, secs: nat, next: Option<Sim>)
    requires dm.Valid() && Indexable(route, speeds, landings)
    requires k < LegCount(route)
    requires Run(SnapshotOf(dm), flight, route, speeds, landings, k) == Some(s)
    requires a == dm.CoordsById(route[k]) && b == dm.CoordsById(route[k + 1])
    requires secs == flight(a, b, speeds[k], dm.ClimateAt(s.clock.day, s.clock.hour))
    requires next == Advance(s, Observation(dm.CepById(route[k]), a, dm.CepById(route[k + 1]), b, secs), speeds[k], landings[k])
    ensures Run(SnapshotOf(dm), flight, route, speeds, landings, k + 1) == next
  {
    SnapshotAgrees(dm, route[k], s.clock.day, s.clock.hour);
    SnapshotAgrees(dm, route[k + 1], s.clock.day, s.clock.hour);
  }

  /** Once a leg has overrun, every longer prefix has too. */
  lemma {:induction false} RunStaysNone(w: Snapshot, flight: FlightTime, route: seq<int>, speeds: seq<int>, landings: seq<bool>, k: nat, n: nat)
    requires HoursTabulated(w.weather) && Indexable(route, speeds, landings)
    requires k <= n <= LegCount(route)
    requires Run(w, flight, route, speeds, landings, k).None?
    ensures Run(w, flight, route, speeds, landings, n).None?
    decreases n - k
  {
    if k < n {
      RunStaysNone(w, flight, route, speeds, landings, k + 1, n);
    }
  }

  /** The trace starts at the opening clock, every leg starts when the
      previous one ended, and every leg's clocks are in range and ordered. */
  lemma {:induction false} TraceChained(w: Snapshot, flight: FlightTime, route: seq<int>, speeds: seq<int>, landings: seq<bool>, k: nat)
    requires HoursTabulated(w.weather) && Indexable(route, speeds, landings)
    requires k <= LegCount(route)
    requires Run(w, flight, route, speeds, landings, k).Some?
    ensures var s := Run(w, flight, route, speeds, landings, k).value;
      && (k > 0 ==> s.legs[0].start == START_CLOCK && s.legs[k - 1].end == s.clock)
      && (k == 0 ==> s.clock == START_CLOCK)
      && (forall j :: 0 < j < k ==> s.legs[j].start == s.legs[j - 1].end)
      && (forall j :: 0 <= j < k ==> ClockOk(s.legs[j].start) && ClockOk(s.legs[j].end) && ClockLe(s.legs[j].start, s.legs[j].end))
  {
    if k > 0 {
      TraceChained(w, flight, route, speeds, landings, k - 1);
      var p := Run(w, flight, route, speeds, landings, k - 1).value;
      var o := Observe(w, flight, p.clock, route[k - 1], route[k], speeds[k - 1]);
      AdvanceClock(p, o, speeds[k - 1], landings[k - 1]);
      var r := Advance(p, o, speeds[k - 1], landings[k - 1]);
      assert Run(w, flight, route, speeds, landings, k) == r;
      var s := r.value;
      forall j | 0 <= j < k - 1 ensures s.legs[j] == p.legs[j] {}
    }
  }

  /** `leg` ends at its start moved on by its own flight and stop. */
  predicate Ticked(w: Snapshot, flight: FlightTime, leg: Leg)
    requires HoursTabulated(w.weather)
  {
    ClockOk(leg.start) && leg.end == Tick(leg.start, LegSeconds(w, flight, leg))
  }

  /** One step appends a leg that ends at its start moved on by its own
      flight and stop. */
  lemma StepTicks(w: Snapshot, flight: FlightTime, p: Sim, from: int, to: int, speed: int, planned: bool)
    requires HoursTabulated(w.weather) && ClockOk(p.clock)
    ensures var r := Step(w, flight, p, from, to, speed, planned);
      r.Some? ==>
        && |r.value.legs| == |p.legs| + 1 && r.value.legs[..|p.legs|] == p.legs
        && Ticked(w, flight, r.value.legs[|p.legs|])
  {
    var o := Observe(w, flight, p.clock, from, to, speed);
    AdvanceClock(p, o, speed, planned);
    AdvanceFlies(p, o, speed, planned);
    var r := Advance(p, o, speed, planned);
    if r.Some? {
      assert r.value.legs[..|p.legs|] == p.legs;
    }
  }

  /** Every leg of the trace ends at its start moved on by its own flight
      and stop, with the rollover to the next day's opening hour. */
  lemma {:induction false} TraceTicks(w: Snapshot, flight: FlightTime, route: seq<int>, speeds: seq<int>, landings: seq<bool>, k: nat)
    requires HoursTabulated(w.weather) && Indexable(route, speeds, landings)
    requires k <= LegCount(route)
    requires Run(w, flight, route, speeds, landings, k).Some?
    ensures var s := Run(w, flight, route, speeds, landings, k).value;
      forall j :: 0 <= j < |s.legs| ==> Ticked(w, flight, s.legs[j])
  {
    if k > 0 {
      TraceTicks(w, flight, route, speeds, landings, k - 1);
      var p := Run(w, flight, route, speeds, landings, k - 1).value;
      StepTicks(w, flight, p, route[k - 1], route[k], speeds[k - 1], landings[k - 1]);
      assert Run(w, flight, route, speeds, landings, k) == Step(w, flight, p, route[k - 1], route[k], speeds[k - 1], landings[k - 1]);
      var s := Run(w, flight, route, speeds, landings, k).value;
      forall j | 0 <= j < |s.legs| ensures Ticked(w, flight, s.legs[j]) {
        if j < |p.legs| {
          assert s.legs[j] == s.legs[..|p.legs|][j];
        }
      }
    }
  }

  /** `leg` flies from stop `j` to stop `j + 1` of the route at the `j`-th
      speed, and lands at least when planned. */
  predicate FliesLeg(w: Snapshot, route: seq<int>, speeds: seq<int>, landings: seq<bool>, leg: Leg, j: int)
    requires 0 <= j && j + 1 < |route| && j < |speeds| && j < |landings|
  {
    && leg.startCep == CepOfId(w, route[j]) && leg.endCep == CepOfId(w, route[j + 1])
    && leg.startCoords == CoordsOfId(w, route[j]) && leg.endCoords == CoordsOfId(w, route[j + 1])
    && leg.speed == speeds[j]
    && (landings[j] ==> leg.landing)
  }

  /** Leg `j` of the trace flies from stop `j` to stop `j + 1` of the route
      at the `j`-th speed, and lands when planned (or when forced). */
  lemma {:induction false} TraceFollowsRoute(w: Snapshot, flight: FlightTime, route: seq<int>, speeds: seq<int>, landings: seq<bool>, k: nat)
    requires HoursTabulated(w.weather) && Indexable(route, speeds, landings)
    requires k <= LegCount(route)
    requires Run(w, flight, route, speeds, landings, k).Some?
    ensures var s := Run(w, flight, route, speeds, landings, k).value;
      forall j :: 0 <= j < k ==> FliesLeg(w, route, speeds, landings, s.legs[j], j)
  {
    if k > 0 {
      TraceFollowsRoute(w, flight, route, speeds, landings, k - 1);
      var p := Run(w, flight, route, speeds, landings, k - 1).value;
      var o := Observe(w, flight, p.clock, route[k - 1], route[k], speeds[k - 1]);
      AdvanceFlies(p, o, speeds[k - 1], landings[k - 1]);
      var r := Advance(p, o, speeds[k - 1], landings[k - 1]);
      assert Run(w, flight, route, speeds, landings, k) == r;
      var s := r.value;
      forall j | 0 <= j < k ensures FliesLeg(w, route, speeds, landings, s.legs[j], j) {
        if j < k - 1 {
          assert s.legs[j] == s.legs[..k - 1][j] == p.legs[j];
        }
      }
    }
  }

  /** The total time is the sum, over the legs, of the flight time in the
      wind at the leg's start plus the stop. */
  lemma {:induction false} TotalTimeIsSum(w: Snapshot, flight: FlightTime, route: seq<int>, speeds: seq<int>, landings: seq<bool>, k: nat)
    requires HoursTabulated(w.weather) && Indexable(route, speeds, landings)
    requires k <= LegCount(route)
    requires Run(w, flight, route, speeds, landings, k).Some?
    ensures var s := Run(w, flight, route, speeds, landings, k).value;
      s.totalTime == TotalSeconds(w, flight, s.legs)
  {
    if k > 0 {
      TotalTimeIsSum(w, flight, route, speeds, landings, k - 1);
      var p := Run(w, flight, route, speeds, landings, k - 1).value;
      var o := Observe(w, flight, p.clock, route[k - 1], route[k], speeds[k - 1]);
      AdvanceFlies(p, o, speeds[k - 1], landings[k - 1]);
      var r := Advance(p, o, speeds[k - 1], landings[k - 1]);
      assert Run(w, flight, route, speeds, landings, k) == r;
      var s := r.value;
      assert s.legs[..k - 1] == p.legs;
    }
  }

  /** Every landing at or after the late hour costs 80, twice when the
      landing was forced by the battery (it is charged once when forced and
      once more as a landing), and nothing else costs anything. */
  lemma {:induction false} CostBetweenLateLandings(w: Snapshot, flight: FlightTime, route: seq<int>, speeds: seq<int>, landings: seq<bool>, k: nat)
    requires HoursTabulated(w.weather) && Indexable(route, speeds, landings)
    requires k <= LegCount(route)
    requires Run(w, flight, route, speeds, landings, k).Some?
    ensures var s := Run(w, flight, route, speeds, landings, k).value;
      80 * LateLandings(s.legs) <= s.totalCost <= 160 * LateLandings(s.legs)
  {
    if k > 0 {
      CostBetweenLateLandings(w, flight, route, speeds, landings, k - 1);
      var p := Run(w, flight, route, speeds, landings, k - 1).value;
      var o := Observe(w, flight, p.clock, route[k - 1], route[k], speeds[k - 1]);
      AdvanceCost(p, o, speeds[k - 1], landings[k - 1]);
      var r := Advance(p, o, speeds[k - 1], landings[k - 1]);
      assert Run(w, flight, route, speeds, landings, k) == r;
      var s := r.value;
      assert s.legs[..k - 1] == p.legs;
      var leg := s.legs[k - 1];
      assert LateLandings(s.legs) == LateLandings(p.legs) + (if leg.landing && leg.start.hour >= LATE_HOUR then 1 else 0);
    }
  }

  /** The battery never exceeds a full charge, and, with speeds from the
      drone's range, never goes below zero. */
  lemma {:induction false} BatteryInRange(w: Snapshot, flight: FlightTime, route: seq<int>, speeds: seq<int>, landings: seq<bool>, k: nat)
    requires HoursTabulated(w.weather) && Indexable(route, speeds, landings)
    requires k <= LegCount(route)
    requires forall j :: 0 <= j < |speeds| ==> IsSpeed(speeds[j])
    requires Run(w, flight, route, speeds, landings, k).Some?
    ensures var s := Run(w, flight, route, speeds, landings, k).value;
      0.0 <= s.battery <= BASE_AUTONOMY * AUTONOMY_CORRECTION
  {
    if k > 0 {
      BatteryInRange(w, flight, route, speeds, landings, k - 1);
      FullChargeCoversStop(speeds[k - 1]);
      var p := Run(w, flight, route, speeds, landings, k - 1).value;
      var o := Observe(w, flight, p.clock, route[k - 1], route[k], speeds[k - 1]);
      AdvanceBattery(p, o, speeds[k - 1], landings[k - 1]);
      var r := Advance(p, o, speeds[k - 1], landings[k - 1]);
      assert Run(w, flight, route, speeds, landings, k) == r;
      var s := r.value;
    }
  }

  /** A full charge at any speed of the drone's range covers a stop. */
  lemma FullChargeCoversStop(speed: int)
    requires IsSpeed(speed)
    ensures FullCharge(speed) >= STOP_CONSUMPTION as real
  {
    AutonomyNonIncreasing(speed, MAX_SPEED, BASE_AUTONOMY, AUTONOMY_CORRECTION);
    assert FullCharge(MAX_SPEED) == 5000.0 * (0.375 * 0.375) * 0.93;
  }

  /** A feasible evaluation's fitness is the time of its legs plus ten times
      its cost, with each leg taking at least the stop time. */
  lemma FeasibleFitness(w: Snapshot, flight: FlightTime, route: seq<int>, speeds: seq<int>, landings: seq<bool>)
    requires HoursTabulated(w.weather) && Indexable(route, speeds, landings)
    requires Evaluate(w, flight, route, speeds, landings).Feasible?
    ensures var e := Evaluate(w, flight, route, speeds, landings);
      && e.totalTime == TotalSeconds(w, flight, e.legs)
      && e.fitness >= 72 * LegCount(route)
      && e.totalCost >= 0
  {
    TotalTimeIsSum(w, flight, route, speeds, landings, LegCount(route));
    CostBetweenLateLandings(w, flight, route, speeds, landings, LegCount(route));
  }

  /** A route with no legs costs nothing. */
  lemma NoLegsNoCost(w: Snapshot, flight: FlightTime, route: seq<int>, speeds: seq<int>, landings: seq<bool>)
    requires HoursTabulated(w.weather) && Indexable(route, speeds, landings)
    requires |route| <= 1
    ensures Evaluate(w, flight, route, speeds, landings) == Feasible(0, [], 0, 0)
  {
  }

  /** An evaluation fails only by a leg that starts on the last day: the
      prefix before it ran, and had reached day seven. */
  lemma {:induction false} InfeasibleOnLastDay(w: Snapshot, flight: FlightTime, route: seq<int>, speeds: seq<int>, landings: seq<bool>, k: nat)
    requires HoursTabulated(w.weather) && Indexable(route, speeds, landings)
    requires k <= LegCount(route)
    requires Run(w, flight, route, speeds, landings, k).None?
    ensures exists j :: (0 <= j < k && Run(w, flight, route, speeds, landings, j).Some?
      && Run(w, flight, route, speeds, landings, j).value.clock.day == MAX_DAYS
      && Run(w, flight, route, speeds, landings, j + 1).None?)
  {
    if Run(w, flight, route, speeds, landings, k - 1).None? {
      InfeasibleOnLastDay(w, flight, route, speeds, landings, k - 1);
    } else {
      var p := Run(w, flight, route, speeds, landings, k - 1).value;
      var o := Observe(w, flight, p.clock, route[k - 1], route[k], speeds[k - 1]);
      AdvanceStops(p, o, speeds[k - 1], landings[k - 1]);
      assert Run(w, flight, route, speeds, landings, k) == Advance(p, o, speeds[k - 1], landings[k - 1]);
    }
  }
}
