/** Fixed configuration of the drone, the daily operation window, the genetic
    search and the weather table (src/config.py). */
module Config {

  // Drone
  const MIN_SPEED: int := 36
  const MAX_SPEED: int := 96
  const SPEED_STEP: int := 4
  const BASE_AUTONOMY: real := 5000.0
  const AUTONOMY_CORRECTION: real := 0.93
  /** Seconds added to every leg, and battery units drained at every stop. */
  const STOP_CONSUMPTION: int := 72
  /** Monetary cost of one landing charged late in the day (80.0 in the source). */
  const LANDING_COST: int := 80

  // Operation window
  const START_HOUR: int := 6
  const END_HOUR: int := 19
  const MAX_DAYS: int := 7
  /** Hour of the day from which a landing is charged. */
  const LATE_HOUR: int := 17

  // Genetic search defaults
  const POPULATION_SIZE: nat := 100
  const GENERATIONS: nat := 200
  const ELITE_SIZE: nat := 10
  const TOURNAMENT_SIZE: nat := 5

  /** Code of the depot location (Unibrasil). */
  const DEPOT_CEP: string := "82821020"

  /** Wind speed and one of the sixteen compass directions. */
  datatype Wind = Wind(speed: int, direction: string)

  type Coord = (real, real)

  /** Day number to (hour of day to wind). */
  type WeatherTable = map<int, map<int, Wind>>

  const WEATHER_DATA: WeatherTable := map[
    1 := map[6 := Wind(17, "ENE"), 9 := Wind(18, "E"), 12 := Wind(19, "E"), 15 := Wind(19, "E"), 18 := Wind(20, "E"), 21 := Wind(20, "E")],
    2 := map[6 := Wind(20, "E"), 9 := Wind(19, "E"), 12 := Wind(16, "E"), 15 := Wind(19, "E"), 18 := Wind(21, "E"), 21 := Wind(21, "E")],
    3 := map[6 := Wind(15, "ENE"), 9 := Wind(17, "NE"), 12 := Wind(8, "NE"), 15 := Wind(20, "E"), 18 := Wind(16, "E"), 21 := Wind(15, "ENE")],
    4 := map[6 := Wind(8, "ENE"), 9 := Wind(11, "ENE"), 12 := Wind(7, "NE"), 15 := Wind(6, "NE"), 18 := Wind(11, "E"), 21 := Wind(11, "E")],
    5 := map[6 := Wind(3, "WSW"), 9 := Wind(3, "WSW"), 12 := Wind(7, "WSW"), 15 := Wind(7, "SSW"), 18 := Wind(10, "E"), 21 := Wind(11, "ENE")],
    6 := map[6 := Wind(4, "NE"), 9 := Wind(5, "ENE"), 12 := Wind(4, "NE"), 15 := Wind(8, "E"), 18 := Wind(15, "E"), 21 := Wind(15, "E")],
    7 := map[6 := Wind(6, "NE"), 9 := Wind(8, "NE"), 12 := Wind(14, "NE"), 15 := Wind(16, "E"), 18 := Wind(13, "ENE"), 21 := Wind(10, "ENE")]
  ]

  /** A speed the drone can be assigned: 36, 40, ..., 96. */
  predicate IsSpeed(v: int) {
    MIN_SPEED <= v <= MAX_SPEED && (v - MIN_SPEED) % SPEED_STEP == 0
  }

  /** The choice `random.choice(range(36, 97, 4))`, driven by an arbitrary pick. */
  function SpeedFromPick(k: nat): (v: int)
    ensures IsSpeed(v)
  {
    MIN_SPEED + SPEED_STEP * (k % 16)
  }

  /** Every speed of the domain is reached by some pick. */
  lemma SpeedFromPickOnto(v: int)
    requires IsSpeed(v)
    ensures SpeedFromPick(((v - MIN_SPEED) / SPEED_STEP) as nat) == v
  {
  }
}
