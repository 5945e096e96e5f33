/**
 * The telemetry event log of one match and the five extractors that scan it
 * (jsonparser.py). A log is an ordered list of records tagged by their `_T`
 * field; every extractor is one forward pass over that list that reads it and
 * never writes it.
 *
 * Each extractor is specified by a recursive function on the sequence of
 * entries; those functions are defined from the last entry backwards (the
 * value for `t` from the value for all but its last entry), which is exactly
 * what a forward loop has computed after each step. The facts that say what
 * these functions mean are in module TelemetryFacts.
 */
module Telemetry {
  import opened Wrappers

  /** Centimetres in a kilometre; telemetry coordinates are in centimetres. */
  const CM_TO_KM: int := 100000

  /** The vehicle id of the transport aircraft every player jumps out of. */
  const TRANSPORT_AIRCRAFT: string := "DummyTransportAircraft_C"

  datatype Location = Location(x: int, y: int, z: int)

  /** One player as a telemetry record lists it. */
  datatype Character = Character(name: string, location: Location, ranking: int)

  /**
   * One log record, by the value of its `_T` field. `Other` stands for every
   * record whose `_T` is none of the four kinds an extractor tests.
   */
  datatype Entry =
    | LogMatchStart(mapName: string, characters: seq<Character>)
    | LogMatchEnd(characters: seq<Character>)
    | LogParachuteLanding(character: Character)
    | LogVehicleLeave(vehicleId: string, character: Character)
    | Other

  /** The `{'name': ..., 'ranking': ...}` dictionary of get_rankings. */
  datatype Ranking = Ranking(name: string, ranking: int)

  /** The `[x, y]` pair of get_all_landings. */
  datatype Point = Point(x: int, y: int)

  /** The pair `(first_coordinate, current_coordinate)` of get_flight_data. */
  datatype Flight = Flight(first: Option<Location>, last: Option<Location>)

  /** `characters[0]` on an empty list raises IndexError in get_plane_start. */
  datatype ParseError = IndexError

  // ---------------------------------------------------------------------
  // Specification functions
  // ---------------------------------------------------------------------

  /** get_map: the map name of the first LogMatchStart, if any. */
  function MapName(t: seq<Entry>): Option<string>
    decreases |t|
  {
    if t == [] then None
    else if t[0].LogMatchStart? then Some(t[0].mapName)
    else MapName(t[1..])
  }

  /**
   * get_plane_start: every LogMatchStart overwrites the answer with its first
   * character's location, so the last one wins; the first LogMatchStart with
   * no characters raises.
   */
  function PlaneStart(t: seq<Entry>): Result<Option<Location>, ParseError>
    decreases |t|
  {
    if t == [] then Ok(None)
    else
      var before := PlaneStart(t[..|t| - 1]);
      var e := t[|t| - 1];
      if before.Err? || !e.LogMatchStart? then before
      else if e.characters == [] then Err(IndexError)
      else Ok(Some(e.characters[0].location))
  }

  function RankingOf(c: Character): Ranking {
    Ranking(c.name, c.ranking)
  }

  /** The rankings of a list of characters, in list order. */
  function RankingsOf(cs: seq<Character>): seq<Ranking>
    decreases |cs|
  {
    if cs == [] then [] else RankingsOf(cs[..|cs| - 1]) + [RankingOf(cs[|cs| - 1])]
  }

  /** What one entry adds to the result of get_rankings. */
  function EndRankings(e: Entry): seq<Ranking> {
    if e.LogMatchEnd? then RankingsOf(e.characters) else []
  }

  /** get_rankings: one ranking per character of every LogMatchEnd, in log order. */
  function Rankings(t: seq<Entry>): seq<Ranking>
    decreases |t|
  {
    if t == [] then [] else Rankings(t[..|t| - 1]) + EndRankings(t[|t| - 1])
  }

  function LandingPoint(c: Character): Point {
    Point(c.location.x, c.location.y)
  }

  /** get_all_landings: name -> landing point; a later landing overwrites an earlier one. */
  function Landings(t: seq<Entry>): map<string, Point>
    decreases |t|
  {
    if t == [] then map[]
    else
      var before := Landings(t[..|t| - 1]);
      var e := t[|t| - 1];
      if e.LogParachuteLanding? then before[e.character.name := LandingPoint(e.character)]
      else before
  }

  /** The entries get_flight_data reacts to: leaving the transport aircraft. */
  predicate IsAircraftLeave(e: Entry) {
    e.LogVehicleLeave? && e.vehicleId == TRANSPORT_AIRCRAFT
  }

  /** get_flight_data: the locations of the first and the last aircraft exit. */
  function FlightData(t: seq<Entry>): Flight
    decreases |t|
  {
    if t == [] then Flight(None, None)
    else
      var before := FlightData(t[..|t| - 1]);
      var e := t[|t| - 1];
      if !IsAircraftLeave(e) then before
      else
        var current := Some(e.character.location);
        Flight(if before.first.None? then current else before.first, current)
  }

  /** Once the scan of get_plane_start has raised, the whole scan raises. */
  lemma {:induction false} PlaneStartErrorPersists(t: seq<Entry>, k: nat)
    requires k <= |t|
    requires PlaneStart(t[..k]) == Err(IndexError)
    ensures PlaneStart(t) == Err(IndexError)
    decreases |t| - k
  {
    if k == |t| {
      assert t[..k] == t;
    } else {
      assert t[..k + 1][..k] == t[..k];
      PlaneStartErrorPersists(t, k + 1);
    }
  }

  // ---------------------------------------------------------------------
  // The extractors: loops over the log, which they only read
  // ---------------------------------------------------------------------

  method GetPlaneStart(telemetry: array<Entry>) returns (r: Result<Option<Location>, ParseError>)
    ensures r == PlaneStart(telemetry[..])
  {
    var startLoc: Option<Location> := None;
    for i := 0 to telemetry.Length
      invariant PlaneStart(telemetry[..i]) == Ok(startLoc)
    {
      assert telemetry[..i + 1][..i] == telemetry[..i];
      var logEntry := telemetry[i];
      if logEntry.LogMatchStart? {
        if logEntry.characters == [] {
          PlaneStartErrorPersists(telemetry[..], i + 1);
          return Err(IndexError);
        }
        startLoc := Some(logEntry.characters[0].location);
      }
    }
    assert telemetry[..telemetry.Length] == telemetry[..];
    return Ok(startLoc);
  }

  method GetMap(telemetry: array<Entry>) returns (r: Option<string>)
    ensures r == MapName(telemetry[..])
  {
    for i := 0 to telemetry.Length
      invariant MapName(telemetry[i..]) == MapName(telemetry[..])
    {
      assert telemetry[i..][1..] == telemetry[i + 1..];
      if telemetry[i].LogMatchStart? {
        return Some(telemetry[i].mapName);
      }
    }
    return None;
  }

  method GetRankings(telemetry: array<Entry>) returns (results: seq<Ranking>)
    ensures results == Rankings(telemetry[..])
  {
    results := [];
    for i := 0 to telemetry.Length
      invariant results == Rankings(telemetry[..i])
    {
      assert telemetry[..i + 1][..i] == telemetry[..i];
      var logEntry := telemetry[i];
      if logEntry.LogMatchEnd? {
        var characters := logEntry.characters;
        for j := 0 to |characters|
          invariant results == Rankings(telemetry[..i]) + RankingsOf(characters[..j])
        {
          assert characters[..j + 1][..j] == characters[..j];
          results := results + [Ranking(characters[j].name, characters[j].ranking)];
        }
        assert characters[..|characters|] == characters;
      }
    }
    assert telemetry[..telemetry.Length] == telemetry[..];
  }

  method GetAllLandings(telemetry: array<Entry>) returns (landings: map<string, Point>)
    ensures landings == Landings(telemetry[..])
  {
    landings := map[];
    for i := 0 to telemetry.Length
      invariant landings == Landings(telemetry[..i])
    {
      assert telemetry[..i + 1][..i] == telemetry[..i];
      var logEntry := telemetry[i];
      if logEntry.LogParachuteLanding? {
        var landingLoc := logEntry.character.location;
        var x := landingLoc.x;
        var y := landingLoc.y;
        landings := landings[logEntry.character.name := Point(x, y)];
      }
    }
    assert telemetry[..telemetry.Length] == telemetry[..];
  }

  method GetFlightData(telemetry: array<Entry>) returns (firstCoordinate: Option<Location>, currentCoordinate: Option<Location>)
    ensures Flight(firstCoordinate, currentCoordinate) == FlightData(telemetry[..])
  {
    firstCoordinate := None;
    currentCoordinate := None;
    for i := 0 to telemetry.Length
      invariant Flight(firstCoordinate, currentCoordinate) == FlightData(telemetry[..i])
    {
      assert telemetry[..i + 1][..i] == telemetry[..i];
      var logEntry := telemetry[i];
      if logEntry.LogVehicleLeave? && logEntry.vehicleId == TRANSPORT_AIRCRAFT {
        currentCoordinate := Some(logEntry.character.location);
        if firstCoordinate == None {
          firstCoordinate := currentCoordinate;
        }
      }
    }
    assert telemetry[..telemetry.Length] == telemetry[..];
  }

  /**
   * The calls display_drop_locations makes, in its order. No extractor
   * writes the log, so each answer is its specification on the log as it
   * was before the first call, whatever ran before it.
   */
  method ExtractForDisplay(telemetry: array<Entry>)
    returns (landings: map<string, Point>, rankings: seq<Ranking>, mapName: Option<string>, flight: Flight)
    ensures landings == Landings(telemetry[..])
    ensures rankings == Rankings(telemetry[..])
    ensures mapName == MapName(telemetry[..])
    ensures flight == FlightData(telemetry[..])
  {
    landings := GetAllLandings(telemetry);
    rankings := GetRankings(telemetry);
    mapName := GetMap(telemetry);
    var firstLaunch, lastLaunch := GetFlightData(telemetry);
    flight := Flight(firstLaunch, lastLaunch);
  }
}
