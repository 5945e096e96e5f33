# Panalyzer core, modelled in Dafny

Panalyzer collects PUBG matches from the PUBG web API and plots where players
landed. This project models its two pieces of sequential logic and proves what
they compute.

- **Telemetry extractors** (`jsonparser.py`): a telemetry log is an ordered
  list of records tagged by `_T`. `get_map`, `get_plane_start`,
  `get_rankings`, `get_all_landings` and `get_flight_data` each scan the log
  once without changing it. In `telemetry.dfy` each one is a loop method over
  an `array<Entry>`, proved equal to a recursive specification function. In
  `telemetry_facts.dfy` those functions are characterised by facts that do not
  depend on how the loops compute them: which entry an answer comes from, how answers combine over concatenated logs,
  and which entries an extractor ignores.
- **Acquisition bookkeeping** (`data.py`):
  - the `API_Key` class with its limiter fields;
  - the limiter update and response construction of `get_sample_matches`;
  - the key loop of `main`, which refills, skips or calls each key in turn and
    breaks at the first 200 (`key_rotation.dfy`, `key_rotation_facts.dfy`);
  - the telemetry-URL and attribute lookups of `get_match_stats`
    (`match_stats.dfy`, `match_stats_facts.dfy`);
  - the output-name derivation and per-file loop of `extract_gzip`
    (`gzip_extract.dfy`, `gzip_extract_facts.dfy`).

The HTTP replies, the clock reading and the outcome of each decompression are
parameters. The key objects are a Dafny `class` whose fields the loop updates
in place. `wrappers.dfy` holds the `Option` and `Result` types.

Behaviours of the code that a reader might not expect, which the model
keeps:
- a key is refilled only when `limit_reset < now`, strictly;
- the plane start is taken from the *last* `LogMatchStart`, because the loop
  in `get_plane_start` has no `break`;
- `extract_gzip` removes *every* occurrence of `".gz"` from a name, not only a
  trailing one;
- nothing keeps `limit_remaining <= limit_max`: `limit_max` stays -1 forever,
  since the limit header is stored in `limit_qty`.

## Model

| member | source | states |
|---|---|---|
| Telemetry.PlaneStartErrorPersists | jsonparser.py:25-27 | once `characters[0]` has raised on a prefix of the log, the whole scan raises |
| Telemetry.GetPlaneStart | jsonparser.py:23-28 | the loop's answer, or its IndexError, is the plane-start specification of the whole log |
| Telemetry.GetMap | jsonparser.py:32-36 | the loop with early return answers the map-name specification of the whole log |
| Telemetry.GetRankings | jsonparser.py:43-50 | the nested append loop builds exactly the rankings specification of the log |
| Telemetry.GetAllLandings | jsonparser.py:57-65 | the dictionary built by the loop is the landings specification of the log |
| Telemetry.GetFlightData | jsonparser.py:68-76 | the pair (first, current) is the flight specification of the log |
| Telemetry.ExtractForDisplay | jsonparser.py:83-98 | running the four extractors one after another on the same log gives each one's own specification, since none modifies the log |
| TelemetryFacts.MapNameIsFirstStart | jsonparser.py:32-36 | get_map is None iff there is no LogMatchStart, and otherwise the mapName of the first one |
| TelemetryFacts.MapNameConcat | jsonparser.py:33-35 | the map name of a + b is a's if a has a LogMatchStart, b's otherwise |
| TelemetryFacts.PlaneStartIsLastStart | jsonparser.py:23-28 | it raises iff some LogMatchStart has no characters; it is None with no LogMatchStart; otherwise it is the first character's location of the last LogMatchStart |
| TelemetryFacts.PlaneStartConcat | jsonparser.py:25-27 | on a + b: a raise in either part wins, then b's location, then a's |
| TelemetryFacts.RankingsOfIsPerCharacter | jsonparser.py:47-49 | one {name, ranking} per character, in the characters' order |
| TelemetryFacts.RankingsConcat | jsonparser.py:45-49 | rankings(a + b) == rankings(a) + rankings(b) |
| TelemetryFacts.RankingsCount | jsonparser.py:43-50 | the length is the total character count of all LogMatchEnd entries; empty without LogMatchEnd |
| TelemetryFacts.RankingsAround | jsonparser.py:45-49 | in log order: an entry's rankings sit between those of the entries before and after it |
| TelemetryFacts.LandingsKeys | jsonparser.py:57-65 | the keys are exactly the names of the characters in LogParachuteLanding entries |
| TelemetryFacts.LandingsLastWins | jsonparser.py:59-64 | each name maps to the [x, y] of its last landing |
| TelemetryFacts.LandingsConcat | jsonparser.py:59-64 | landings(a + b) is landings(a) overridden by landings(b) |
| TelemetryFacts.FlightAbsent | jsonparser.py:68-76 | first is None iff last is None iff no LogVehicleLeave from DummyTransportAircraft_C |
| TelemetryFacts.FlightFirst | jsonparser.py:72-75 | first is the location of the first exit from the aircraft |
| TelemetryFacts.FlightLast | jsonparser.py:72-73 | last is the location of the last exit from the aircraft |
| TelemetryFacts.FlightConcat | jsonparser.py:71-75 | on a + b: the first exit is a's if any, the last exit is b's if any |
| TelemetryFacts.IgnoredEntry | jsonparser.py:26 | inserting or removing an entry whose `_T` an extractor does not test leaves that extractor's answer unchanged (lines 26, 34, 46, 60, 72) |
| TelemetryFacts.ErangelScenario | jsonparser.py:32-50 | a log with one start on Erangel_Main and one end with two ranked players gives that map and those two rankings in order |
| KeyRotation.ApiKey.constructor | data.py:11-16 | a fresh key has limit_max, limit_remaining and limit_reset all -1 and no limit_qty |
| KeyRotation.ApiKey.Refill | data.py:34-35 | the key's state becomes the refilled state; nothing else changes |
| KeyRotation.Refilled | data.py:34-35 | remaining becomes max exactly when reset < now (strict); max, reset and qty are untouched |
| KeyRotation.Charged | data.py:76-78 | remaining and reset come from their headers, the limit header goes to qty, max is never written |
| KeyRotation.SamplesResult | data.py:18-21 | the response code is the status; the match ids are the reply's on a 200 and empty otherwise (lines 79-91) |
| KeyRotation.Visit | data.py:34-38 | a skipped key keeps its refilled state; a called key gets remaining, reset and qty from the headers whatever the status; max never changes |
| KeyRotation.StoppedPersists | data.py:40-41 | after the break, later keys are not looked at |
| KeyRotation.GetSampleMatches | data.py:67-93 | the key's new state is the charged state and the response is the constructed one |
| KeyRotation.VisitKey | data.py:34-38 | one loop body on key i: only key i changes, as one step of the loop specification says |
| KeyRotation.CollectMatchIds | data.py:33-41 | the keys end in the final states of the loop specification; the queue and sample_matches are its final values |
| KeyRotationFacts.RunUntouched | data.py:33-41 | keys the loop has not reached are unchanged |
| KeyRotationFacts.RunNotStopped | data.py:38-41 | before any 200, the loop has not broken out and the queue is empty |
| KeyRotationFacts.RunVisits | data.py:33-38 | before any 200, every key so far is visited in order and later keys are untouched |
| KeyRotationFacts.RunNoCall | data.py:31-38 | sample_matches is None iff every key so far was skipped |
| KeyRotationFacts.RunLastCalled | data.py:38 | otherwise it is the response of the last key called |
| KeyRotationFacts.FinalAtStop | data.py:38-41 | when key s is the first to answer 200: keys up to s are visited, later keys untouched, the queue is exactly s's match ids, sample_matches is s's response |
| KeyRotationFacts.FinalWithoutStop | data.py:33-44 | without a 200: every key is visited, the queue stays empty, sample_matches is None iff every key was skipped |
| KeyRotationFacts.RunKeepsMax | data.py:76-78 | no key's limit_max ever changes |
| KeyRotationFacts.UnsetMaxNeverSkipped | data.py:34-37 | in a pool whose keys have limit_max -1 and a passed reset, the first key is always called and sample_matches is never None |
| MatchStats.FirstAssetId | data.py:119 | the id of the first asset relationship of type "asset"; None iff there is none |
| MatchStats.TelemetryObjects | data.py:121 | only entries carrying the id are selected, never more than the included list has |
| MatchStats.Attribute | data.py:126-129 | the attribute's value when present, the error naming it otherwise |
| MatchStats.GetMatchStats | data.py:117-130 | missing assets fail first, then a missing asset entry; a record carries the given match id |
| MatchStatsFacts.GetMatchStatsOk | data.py:117-130 | it succeeds iff assets, an asset entry, a URL on a telemetry object and all four attributes exist; the record then holds the attributes and the URL column |
| MatchStatsFacts.FirstMissingAttribute | data.py:126-129 | the error names the first missing attribute in reading order |
| MatchStatsFacts.TelemetryObjectsMembers | data.py:121 | the telemetry objects are exactly the included entries carrying the id |
| MatchStatsFacts.TelemetryObjectsConcat | data.py:121 | the selection distributes over concatenation of the included list |
| MatchStatsFacts.NoUrlBeforeAttributes | data.py:121-129 | when no telemetry object has a URL, the lookup fails with NoTelemetryUrl before any attribute is read |
| MatchStatsFacts.NoTelemetryObject | data.py:121-123 | with no included entry carrying the id, the URL lookup fails |
| MatchStatsFacts.SingleObject | data.py:121 | an id carried by exactly one entry selects that entry alone |
| MatchStatsFacts.SingleTelemetryObject | data.py:117-123 | with exactly one telemetry object, the URL column is that object's URL alone |
| GzipExtract.OutputName | data.py:147 | the output name is never longer than the input name |
| GzipExtract.ExtractGzip | data.py:134-157 | a missing input directory is reported first, then a missing output directory; otherwise the file system and failure list are the loop specification's after every listed file |
| GzipExtractFacts.OutputNameKeeps | data.py:147 | a name without ".gz" is unchanged |
| GzipExtractFacts.OutputNameShrinks | data.py:147 | a name containing ".gz" gets shorter |
| GzipExtractFacts.OutputNameIdentity | data.py:147 | the output name equals the input name iff the input has no ".gz" |
| GzipExtractFacts.OutputNameAppendGz | data.py:147 | appending ".gz" to a name does not change its output name |
| GzipExtractFacts.OutputNameKeepsFirst | data.py:147 | a name not starting with ".gz" keeps its first character |
| GzipExtractFacts.OutputNameDropsFirst | data.py:147 | a leading ".gz" is dropped |
| GzipExtractFacts.OutputNameSplit | data.py:147 | for every name, a ".gz" after a part without ".gz" is removed and the part is kept: every occurrence goes, not only a trailing one |
| GzipExtractFacts.OutputNameInner | data.py:147 | "x.gzip" becomes "xip": an inner ".gz" is removed too |
| GzipExtractFacts.OutputNameNotIdempotent | data.py:147 | "..gzgz" becomes ".gz", which a second pass would empty |
| GzipExtractFacts.ExtractedFailures | data.py:146-157 | the reported paths are exactly the input paths of the files that failed, wherever they are in the listing |
| GzipExtractFacts.ExtractedFailureOrder | data.py:146-157 | the failure report has one line per failed file, in listing order, and no other lines |
| GzipExtractFacts.ExtractedPaths | data.py:146-154 | the loop adds exactly the output paths of the files whose output was created |
| GzipExtractFacts.ExtractedUntouched | data.py:146-154 | a path no file wrote to keeps its contents |
| GzipExtractFacts.ExtractedLastWriter | data.py:146-154 | a file's output holds what it wrote unless a later file with the same output name overwrote it |

## Left out

- HTTP requests, JSON decoding and the pandas / `json_normalize` reshaping: replies are parameters, already decoded into records.
- `time.time()`: the loop reads the clock once per key; the model uses one reading `now` for the whole loop.
- File-system and decompression I/O (`os.path.isdir`, `os.listdir`, `gzip.open`, `open`, `shutil.copyfileobj`, `pickle`): directory existence, the listing and each file's outcome are parameters.
- Logging, `print` and `exit()`: a missing directory is an `Err`, and a failed copy is an entry in the failure list.
- `display_drop_locations` plotting, with its float map sizes and float division by `CM_TO_KM`, and both `main` drivers of `jsonparser.py`; `CM_TO_KM` is kept only as a named integer.
- The `search` stub in `jsonparser.py`, which does nothing.
- The `match` module is not part of this model: `MatchRecord` stands for the arguments `get_match_stats` passes to `match.match`.
- The part of `main` after the key loop (the "no match ids" error and the `get_match_stats` calls over `sample_matches.match_ids`), and its TODO steps.
- Malformed telemetry records (a missing `_T`, a missing `characters`, `character`, `vehicle` or location field): every entry has the fields of its kind. The one failure kept is `characters[0]` on an empty list in `get_plane_start`.
- KeyRotation.Charged: header values are modelled as integers, whereas `headers.get` returns strings or None; so the comparisons `limit_reset < time.time()` and `limit_remaining == 0` on later loops are modelled on integers.
- KeyRotation.SamplesResult: a 200 reply is assumed to carry a well-formed match list; the KeyError or IndexError that pandas raises on a malformed body is not modelled.
- MatchStats.GetMatchStats: attributes are strings (the API's `duration` is a number); a missing top-level `data` or `included` and the NaN cells pandas creates for absent keys of other columns are not modelled.
- GzipExtract.ExtractGzip: file contents are opaque byte sequences; the listing order of `os.listdir` is whatever order the parameter gives.
- KeyRotation.CollectMatchIds: the key list is a Dafny `seq` of distinct `ApiKey` objects, as `main` builds one object per line of the key file; a list holding the same key object twice is not modelled.
