/** In-memory lookups of the data manager (src/utils/data_manager.py): wind at
    a simulated day and hour, coordinates by code or identifier, and the
    delegations to the identifier registry. Loading the coordinate file is
    not part of this model: the constructor receives its result. */
module DataManagement {
  import opened Common
  import opened Config
  import opened IdMapping

  predicate Ascending(s: seq<int>) {
    forall i, j :: 0 <= i < j < |s| ==> s[i] < s[j]
  }

  /** `h` is a tabulated hour nearest to `hour`, and the smallest such: the
      element `min(sorted(hours), key=lambda x: abs(x - hour))` picks, since
      `min` keeps the first of equally distant hours. */
  predicate IsNearestHour<W>(table: map<int, W>, hour: int, h: int) {
    && h in table
    && (forall k :: k in table ==> Abs(h - hour) <= Abs(k - hour))
    && (forall k :: k in table && Abs(k - hour) == Abs(h - hour) ==> h <= k)
  }

  /** Some tabulated hour, to bound the search below. */
  ghost function SomeHour<W>(table: map<int, W>): (k: int)
    requires exists k :: k in table
    ensures k in table
  {
    var k :| k in table; k
  }

  /** Searches outwards from `hour` at distance `d`, `d + 1`, ..., trying the
      earlier hour first; no tabulated hour lies closer than `d`. */
  function NearestFrom<W>(table: map<int, W>, hour: int, d: nat): (h: int)
    requires exists k :: k in table
    requires forall k :: k in table ==> Abs(k - hour) >= d
    ensures IsNearestHour(table, hour, h)
    decreases Abs(SomeHour(table) - hour) - d
  {
    if hour - d in table then hour - d
    else if hour + d in table then hour + d
    else
      assert forall k :: k in table ==> Abs(k - hour) >= d + 1;
      NearestFrom(table, hour, d + 1)
  }

  /** The tabulated hour a lookup at `hour` uses. */
  function NearestHour<W>(table: map<int, W>, hour: int): (h: int)
    requires exists k :: k in table
    ensures IsNearestHour(table, hour, h)
  {
    NearestFrom(table, hour, 0)
  }

  /** At most one hour is the nearest one. */
  lemma NearestHourUnique<W>(table: map<int, W>, hour: int, h1: int, h2: int)
    requires IsNearestHour(table, hour, h1) && IsNearestHour(table, hour, h2)
    ensures h1 == h2
  {
    assert Abs(h1 - hour) == Abs(h2 - hour);
  }

  /** A tabulated hour is its own nearest hour. */
  lemma NearestHourOfTabulated<W>(table: map<int, W>, hour: int)
    requires hour in table
    ensures NearestHour(table, hour) == hour
  {
    var h := NearestHour(table, hour);
    assert Abs(h - hour) <= Abs(hour - hour);
  }

  /** Every tabulated day lists at least one hour, as the lookup's `min`
      needs. */
  predicate HoursTabulated(weather: WeatherTable) {
    forall d :: d in weather ==> exists h :: h in weather[d]
  }

  /** `obter_clima_por_horario` on a weather table: calm from the north on a
      day the table lacks, otherwise the entry of the nearest tabulated hour. */
  function WindIn(weather: WeatherTable, day: int, hour: int): (w: Wind)
    requires day in weather ==> exists h :: h in weather[day]
    ensures day !in weather ==> w == Wind(0, "N")
    ensures day in weather ==> w == weather[day][NearestHour(weather[day], hour)]
    ensures day in weather && hour in weather[day] ==> w == weather[day][hour]
  {
    if day !in weather then Wind(0, "N")
    else
      var h := NearestHour(weather[day], hour);
      if hour in weather[day] then NearestHourOfTabulated(weather[day], hour); weather[day][h]
      else weather[day][h]
  }

  /** `ceps.get(cep, (0, 0))`. */
  function CoordsIn(ceps: map<string, Coord>, cep: string): (c: Coord)
    ensures cep in ceps ==> c == ceps[cep]
    ensures cep !in ceps ==> c == (0.0, 0.0)
  {
    if cep in ceps then ceps[cep] else (0.0, 0.0)
  }

  class DataManager {
    var ceps: map<string, Coord>
    var mapper: IdMapper
    var weather: WeatherTable

    ghost predicate Valid()
      reads this, mapper
    {
      && mapper.Valid()
      && HoursTabulated(weather)
    }

    /** The state the source builds from the coordinate file. */
    constructor (ceps: map<string, Coord>, mapper: IdMapper, weather: WeatherTable)
      ensures this.ceps == ceps && this.mapper == mapper && this.weather == weather
    {
      this.ceps := ceps;
      this.mapper := mapper;
      this.weather := weather;
    }

    /** Wind at a simulated day and hour: calm from the north on a day the
        table lacks, otherwise the entry of the nearest tabulated hour. */
    function ClimateAt(day: int, hour: int): (w: Wind)
      reads this
      requires day in weather ==> exists h :: h in weather[day]
      ensures day !in weather ==> w == Wind(0, "N")
      ensures day in weather ==> w == weather[day][NearestHour(weather[day], hour)]
      ensures day in weather && hour in weather[day] ==> w == weather[day][hour]
    {
      WindIn(weather, day, hour)
    }

    /** Coordinates of a code, (0, 0) when unknown. */
    function CoordsByCep(cep: string): (c: Coord)
      reads this
      ensures cep in ceps ==> c == ceps[cep]
      ensures cep !in ceps ==> c == (0.0, 0.0)
    {
      CoordsIn(ceps, cep)
    }

    /** Coordinates of an identifier, through its code. */
    function CoordsById(id: int): (c: Coord)
      reads this, mapper
      requires mapper.Valid()
      ensures id in mapper.idToCep ==> c == CoordsByCep(mapper.idToCep[id])
      ensures id !in mapper.idToCep && "" !in ceps ==> c == (0.0, 0.0)
    {
      CoordsByCep(mapper.CepOf(id))
    }

    /** The code of an identifier, as the registry answers it. */
    function CepById(id: int): (cep: string)
      reads this, mapper
      requires mapper.Valid()
      ensures cep == mapper.CepOf(id)
      ensures id in mapper.idToCep ==> mapper.IdOf(cep) == id
    {
      mapper.CepOf(id)
    }

    function DepotId(): (d: Option<int>)
      reads this, mapper
      ensures d == mapper.depotId
      ensures d.Some? ==> mapper.IsDepotId(d.value)
    {
      mapper.depotId
    }

    function RouteToCeps(ids: seq<int>): (route: seq<string>)
      reads this, mapper
      requires mapper.Valid()
      ensures route == mapper.RouteToCeps(ids)
      ensures |route| == |ids|
    {
      mapper.RouteToCeps(ids)
    }

    /** The registry's non-depot identifiers, ascending. */
    method IdsExcludingDepot() returns (ids: seq<int>)
      requires mapper.Valid()
      ensures forall i :: i in ids <==> 0 <= i < mapper.nextId && !mapper.IsDepotId(i)
      ensures Ascending(ids)
      ensures |ids| == if mapper.depotId.Some? then mapper.nextId - 1 else mapper.nextId
    {
      ids := mapper.IdsExcludingDepot();
    }
  }

  /** With the configured weather table, any day after the seventh is calm. */
  lemma CalmAfterLastDay(dm: DataManager, day: int, hour: int)
    requires dm.weather == WEATHER_DATA
    requires day > MAX_DAYS
    ensures dm.ClimateAt(day, hour) == Wind(0, "N")
  {
  }
}
