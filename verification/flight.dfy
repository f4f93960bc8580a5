/**
 * The flight-information back end (`flight_info_backend.py`): a country
 * name is geocoded to coordinates through a process-wide cache, and two
 * countries' coordinates give a distance and an estimated flight time.
 *
 * The geocoding web service and the geodesic distance are parameters
 * (`geocode`, `distance`); arithmetic is over `real`, that is, exact
 * rationals rather than the source's floating point.
 */
module Flight {
  import opened Wrappers

  /** Latitudes as a geocoder reports them. */
  type Latitude = r: real | -90.0 <= r <= 90.0

  datatype Coord = Coord(lat: Latitude, lon: real)

  /** The record handed to the info box (the source rounds both numbers to two decimals). */
  datatype Info = Info(from: string, to: string, distanceKm: real, hours: real)

  /** Country name to coordinates, for every lookup that has succeeded so far. */
  type Cache = map<string, Coord>

  /** Average cruise speed in km/h at the equator. */
  const CruiseSpeed: real := 800.0

  /** Time added for take-off and landing, in hours. */
  const GroundHours: real := 0.5

  function Abs(r: real): (a: real)
    ensures a >= 0.0 && (a == r || a == -r)
  {
    if r < 0.0 then -r else r
  }

  /**
   * The share of cruise speed kept at the two endpoints' mean absolute
   * latitude: full speed at the equator, 20% less at the poles.
   */
  function SpeedFactor(lat1: Latitude, lat2: Latitude): (f: real)
    ensures 0.8 <= f <= 1.0
    ensures f == 1.0 <==> lat1 == 0.0 && lat2 == 0.0
    ensures f == 0.8 <==> Abs(lat1) == 90.0 && Abs(lat2) == 90.0
  {
    var avgLat := (Abs(lat1) + Abs(lat2)) / 2.0;
    1.0 - (avgLat / 90.0) * 0.2
  }

  /** Hours for `d` km between the two latitudes. */
  function EstimateFlightTime(d: real, lat1: Latitude, lat2: Latitude): (t: real)
    ensures d == 0.0 ==> t == GroundHours
    ensures d >= 0.0 ==> d / CruiseSpeed + GroundHours <= t <= d / (0.8 * CruiseSpeed) + GroundHours
    ensures d > 0.0 ==> t > GroundHours
  {
    var speed := CruiseSpeed * SpeedFactor(lat1, lat2);
    SpeedBounds(d, speed);
    d / speed + GroundHours
  }

  /** Dividing a non-negative distance by a speed between 640 and 800 km/h. */
  lemma SpeedBounds(d: real, speed: real)
    requires 640.0 <= speed <= 800.0
    ensures d >= 0.0 ==> d / 800.0 <= d / speed <= d / 640.0
    ensures d > 0.0 ==> d / speed > 0.0
  {
    var q := d / speed;
    assert q * speed == d;
    if d >= 0.0 {
      NonNegativeFactor(q, speed);
      assert q * 640.0 <= q * speed <= q * 800.0;
    }
    if d > 0.0 {
      PositiveFactor(q, speed);
    }
  }

  lemma NonNegativeFactor(x: real, s: real)
    requires s > 0.0 && x * s >= 0.0
    ensures x >= 0.0
  {
  }

  lemma PositiveFactor(x: real, s: real)
    requires s > 0.0 && x * s > 0.0
    ensures x > 0.0
  {
  }

  /** Swapping the endpoints does not change the estimate. */
  lemma FlightTimeSymmetric(d: real, lat1: Latitude, lat2: Latitude)
    ensures EstimateFlightTime(d, lat1, lat2) == EstimateFlightTime(d, lat2, lat1)
  {
    assert SpeedFactor(lat1, lat2) == SpeedFactor(lat2, lat1);
  }

  /** A longer distance between the same latitudes never takes less time. */
  lemma FlightTimeMonotone(d1: real, d2: real, lat1: Latitude, lat2: Latitude)
    requires d1 <= d2
    ensures EstimateFlightTime(d1, lat1, lat2) <= EstimateFlightTime(d2, lat1, lat2)
  {
    var speed := CruiseSpeed * SpeedFactor(lat1, lat2);
    assert (d2 / speed - d1 / speed) * speed == d2 - d1;
    NonNegativeFactor(d2 / speed - d1 / speed, speed);
  }

  // ---------------------------------------------------------------------------
  // Cached geocoding

  /** The coordinates found (if any) and the cache afterwards. */
  datatype Lookup = Lookup(coord: Option<Coord>, cache: Cache)

  /**
   * A cached name is answered from the cache without asking `geocode`;
   * otherwise `geocode` is asked and only a successful answer is cached.
   */
  function CountryCoordinates(cache: Cache, name: string, geocode: string -> Option<Coord>): (r: Lookup)
    ensures name in cache ==> r == Lookup(Some(cache[name]), cache)
    ensures name !in cache ==> r.coord == geocode(name)
    ensures r.coord.None? ==> r.cache == cache
    ensures r.coord.Some? ==> r.cache == cache[name := r.coord.value]
  {
    if name in cache then Lookup(Some(cache[name]), cache)
    else
      match geocode(name)
      case None => Lookup(None, cache)
      case Some(c) => Lookup(Some(c), cache[name := c])
  }

  /** Every cached entry is what `geocode` answers for that name. */
  predicate CacheAgrees(cache: Cache, geocode: string -> Option<Coord>) {
    forall name :: name in cache ==> geocode(name) == Some(cache[name])
  }

  /**
   * A cache that agrees with `geocode` is invisible: a lookup returns what
   * `geocode` would, the cache keeps agreeing, and it only ever grows.
   */
  lemma CacheTransparent(cache: Cache, name: string, geocode: string -> Option<Coord>)
    requires CacheAgrees(cache, geocode)
    ensures CountryCoordinates(cache, name, geocode).coord == geocode(name)
    ensures CacheAgrees(CountryCoordinates(cache, name, geocode).cache, geocode)
    ensures cache.Keys <= CountryCoordinates(cache, name, geocode).cache.Keys
  {
  }

  /** Both the flight-information record (if any) and the cache afterwards. */
  datatype InfoLookup = InfoLookup(info: Option<Info>, cache: Cache)

  /**
   * Both names are looked up, the second after the first has updated the
   * cache; if either fails there is no record. Otherwise the record names
   * the countries in the order given and carries the estimated time for
   * `distance` between the two coordinates.
   */
  function FlightInfo(cache: Cache, country1: string, country2: string,
                      geocode: string -> Option<Coord>, distance: (Coord, Coord) -> real): (r: InfoLookup)
    ensures var first := CountryCoordinates(cache, country1, geocode);
            var second := CountryCoordinates(first.cache, country2, geocode);
            && r.cache == second.cache
            && (r.info.None? <==> first.coord.None? || second.coord.None?)
            && (r.info.Some? ==>
                  && r.info.value.from == country1
                  && r.info.value.to == country2
                  && r.info.value.distanceKm == distance(first.coord.value, second.coord.value)
                  && r.info.value.hours
                     == EstimateFlightTime(r.info.value.distanceKm, first.coord.value.lat, second.coord.value.lat))
    ensures r.info.Some? && r.info.value.distanceKm >= 0.0 ==> r.info.value.hours >= GroundHours
  {
    var first := CountryCoordinates(cache, country1, geocode);
    var second := CountryCoordinates(first.cache, country2, geocode);
    if first.coord.None? || second.coord.None? then InfoLookup(None, second.cache)
    else
      var a := first.coord.value;
      var b := second.coord.value;
      var d := distance(a, b);
      InfoLookup(Some(Info(country1, country2, d, EstimateFlightTime(d, a.lat, b.lat))), second.cache)
  }

  /**
   * With a cache that agrees with `geocode`, there is a record exactly when
   * both names geocode, its times come from the geocoded coordinates, and
   * the cache keeps agreeing. A failed first lookup does not stop the
   * second from being made and cached.
   */
  lemma FlightInfoExact(cache: Cache, country1: string, country2: string,
                        geocode: string -> Option<Coord>, distance: (Coord, Coord) -> real)
    requires CacheAgrees(cache, geocode)
    ensures var r := FlightInfo(cache, country1, country2, geocode, distance);
            && (r.info.None? <==> geocode(country1).None? || geocode(country2).None?)
            && (r.info.Some? ==>
                  var a := geocode(country1).value;
                  var b := geocode(country2).value;
                  r.info.value == Info(country1, country2, distance(a, b), EstimateFlightTime(distance(a, b), a.lat, b.lat)))
            && CacheAgrees(r.cache, geocode)
            && (geocode(country2).Some? ==> country2 in r.cache)
  {
    var first := CountryCoordinates(cache, country1, geocode);
    CacheTransparent(cache, country1, geocode);
    CacheTransparent(first.cache, country2, geocode);
  }
}
