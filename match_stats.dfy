/**
 * The lookups of get_match_stats (data.py): the telemetry asset id, the
 * telemetry object it names, its URL, and the four match attributes, with
 * the failure each missing piece raises, in the order the code meets them.
 *
 * The HTTP reply is a parameter, already decoded: the pandas reshaping of
 * the JSON is replaced by lookups over sequences and maps.
 */
module MatchStats {
  import opened Wrappers

  const ASSET_TYPE := "asset"
  const URL_KEY := "URL"
  const GAME_MODE := "gameMode"
  const MAP_NAME := "mapName"
  const CREATED_AT := "createdAt"
  const DURATION := "duration"

  /** One entry of `data.relationships.assets.data`: its `type` and `id`. */
  datatype AssetRef = AssetRef(kind: string, id: string)

  /** One entry of `included`: its `id` and its `attributes`. */
  datatype IncludedEntry = IncludedEntry(id: string, attributes: map<string, string>)

  /**
   * The `data` part of a match reply: the asset relationships, if the reply
   * has any, and the match attributes.
   */
  datatype MatchData = MatchData(assets: Option<seq<AssetRef>>, attributes: map<string, string>)

  datatype MatchReply = MatchReply(data: MatchData, included: seq<IncludedEntry>)

  /**
   * The record get_match_stats hands to the match constructor. The
   * telemetry URL is a column: one cell per included entry carrying the
   * telemetry id, None where that entry has no URL attribute.
   */
  datatype MatchRecord = MatchRecord(matchId: string, gameMode: string, mapName: string, startTime: string,
                                     duration: string, telemetryUrl: seq<Option<string>>)

  /** The lookups that raise: a missing key or an empty selection. */
  datatype StatsError = MissingAssets | NoAssetEntry | NoTelemetryUrl | MissingAttribute(name: string)

  /** The id of the first asset relationship whose type is "asset". */
  function FirstAssetId(assets: seq<AssetRef>): (r: Option<string>)
    ensures r.None? <==> forall i :: 0 <= i < |assets| ==> assets[i].kind != ASSET_TYPE
    ensures r.Some? ==> exists i :: 0 <= i < |assets| && assets[i].kind == ASSET_TYPE && assets[i].id == r.value
                                    && forall j :: 0 <= j < i ==> assets[j].kind != ASSET_TYPE
    decreases |assets|
  {
    if assets == [] then None
    else if assets[0].kind == ASSET_TYPE then Some(assets[0].id)
    else
      var rest := FirstAssetId(assets[1..]);
      assert forall i :: 0 < i < |assets| ==> assets[i] == assets[1..][i - 1];
      rest
  }

  /** The included entries whose id is the telemetry id, in reply order. */
  function TelemetryObjects(included: seq<IncludedEntry>, id: string): (r: seq<IncludedEntry>)
    ensures forall i :: 0 <= i < |r| ==> r[i].id == id
    ensures |r| <= |included|
    decreases |included|
  {
    if included == [] then []
    else
      var before := TelemetryObjects(included[..|included| - 1], id);
      var e := included[|included| - 1];
      if e.id == id then before + [e] else before
  }

  /** The URL cells of the telemetry objects, one per object. */
  function UrlColumn(objects: seq<IncludedEntry>): (r: seq<Option<string>>)
    ensures |r| == |objects|
    ensures forall i :: 0 <= i < |objects| ==>
      r[i] == if URL_KEY in objects[i].attributes then Some(objects[i].attributes[URL_KEY]) else None
  {
    seq(|objects|, i requires 0 <= i < |objects| =>
      if URL_KEY in objects[i].attributes then Some(objects[i].attributes[URL_KEY]) else None)
  }

  /** Some telemetry object carries a URL, so the URL column exists. */
  predicate HasUrl(objects: seq<IncludedEntry>) {
    exists e :: e in objects && URL_KEY in e.attributes
  }

  /** An attribute of the match, or the error naming it. */
  function Attribute(data: MatchData, name: string): (r: Result<string, StatsError>)
    ensures r.Ok? <==> name in data.attributes
    ensures r.Ok? ==> r.value == data.attributes[name]
    ensures r.Err? ==> r.error == MissingAttribute(name)
  {
    if name in data.attributes then Ok(data.attributes[name]) else Err(MissingAttribute(name))
  }

  /** get_match_stats after the reply has arrived. */
  function GetMatchStats(matchId: string, reply: MatchReply): (r: Result<MatchRecord, StatsError>)
    ensures reply.data.assets.None? ==> r == Err(MissingAssets)
    ensures reply.data.assets.Some? && FirstAssetId(reply.data.assets.value).None? ==> r == Err(NoAssetEntry)
    ensures r.Ok? ==> r.value.matchId == matchId
  {
    match reply.data.assets
    case None => Err(MissingAssets)
    case Some(assets) =>
      match FirstAssetId(assets)
      case None => Err(NoAssetEntry)
      case Some(telemetryId) =>
        var telemetryObject := TelemetryObjects(reply.included, telemetryId);
        if !HasUrl(telemetryObject) then Err(NoTelemetryUrl)
        else
          var telemetryUrl := UrlColumn(telemetryObject);
          match Attribute(reply.data, GAME_MODE)
          case Err(e) => Err(e)
          case Ok(gameMode) =>
            match Attribute(reply.data, MAP_NAME)
            case Err(e) => Err(e)
            case Ok(mapName) =>
              match Attribute(reply.data, CREATED_AT)
              case Err(e) => Err(e)
              case Ok(startTime) =>
                match Attribute(reply.data, DURATION)
                case Err(e) => Err(e)
                case Ok(duration) => Ok(MatchRecord(matchId, gameMode, mapName, startTime, duration, telemetryUrl))
  }
}
