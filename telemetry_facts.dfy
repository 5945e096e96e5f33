/**
 * What the extractor specifications of module Telemetry mean, stated
 * independently of how they are computed: which entry each answer comes
 * from, how each answer behaves when two logs are concatenated, and which
 * entries an extractor does not see at all.
 */
module TelemetryFacts {
  import opened Wrappers
  import opened Telemetry

  ghost predicate IsFirstStart(t: seq<Entry>, i: int) {
    0 <= i < |t| && t[i].LogMatchStart? && forall j :: 0 <= j < i ==> !t[j].LogMatchStart?
  }

  ghost predicate IsLastStart(t: seq<Entry>, i: int) {
    0 <= i < |t| && t[i].LogMatchStart? && forall j :: i < j < |t| ==> !t[j].LogMatchStart?
  }

  /** No LogMatchStart in the log has an empty character list. */
  ghost predicate StartsHaveCharacters(t: seq<Entry>) {
    forall i :: 0 <= i < |t| && t[i].LogMatchStart? ==> t[i].characters != []
  }

  // ---------------------------------------------------------------------
  // get_map
  // ---------------------------------------------------------------------

  /** get_map answers the map name of the first LogMatchStart, and None when there is none. */
  lemma {:induction false} MapNameIsFirstStart(t: seq<Entry>)
    ensures MapName(t) == None <==> forall i :: 0 <= i < |t| ==> !t[i].LogMatchStart?
    ensures forall i :: IsFirstStart(t, i) ==> MapName(t) == Some(t[i].mapName)
    decreases |t|
  {
    if t != [] && !t[0].LogMatchStart? {
      var rest := t[1..];
      MapNameIsFirstStart(rest);
      assert forall i :: 1 <= i < |t| ==> t[i] == rest[i - 1];
      forall i | IsFirstStart(t, i)
        ensures MapName(t) == Some(t[i].mapName)
      {
        assert IsFirstStart(rest, i - 1);
      }
    }
  }

  /** The first map name of a + b is a's if a has one, b's otherwise. */
  lemma {:induction false} MapNameConcat(a: seq<Entry>, b: seq<Entry>)
    ensures MapName(a + b) == if MapName(a).Some? then MapName(a) else MapName(b)
    decreases |a|
  {
    if a == [] {
      assert a + b == b;
    } else {
      assert (a + b)[0] == a[0];
      assert (a + b)[1..] == a[1..] + b;
      MapNameConcat(a[1..], b);
    }
  }

  // ---------------------------------------------------------------------
  // get_plane_start
  // ---------------------------------------------------------------------

  /**
   * get_plane_start raises exactly when some LogMatchStart has no
   * characters; otherwise it answers None when there is no LogMatchStart and
   * the first character's location of the LAST LogMatchStart when there is.
   */
  lemma {:induction false} PlaneStartIsLastStart(t: seq<Entry>)
    ensures PlaneStart(t).Err? <==> !StartsHaveCharacters(t)
    ensures (forall i :: 0 <= i < |t| ==> !t[i].LogMatchStart?) ==> PlaneStart(t) == Ok(None)
    ensures forall i :: IsLastStart(t, i) && StartsHaveCharacters(t) ==>
              PlaneStart(t) == Ok(Some(t[i].characters[0].location))
    decreases |t|
  {
    if t != [] {
      var n := |t| - 1;
      var p := t[..n];
      var e := t[n];
      PlaneStartIsLastStart(p);
      assert forall i :: 0 <= i < n ==> t[i] == p[i];
      assert StartsHaveCharacters(t) <==>
             StartsHaveCharacters(p) && (e.LogMatchStart? ==> e.characters != []);
      forall i | IsLastStart(t, i) && StartsHaveCharacters(t)
        ensures PlaneStart(t) == Ok(Some(t[i].characters[0].location))
      {
        if i < n {
          assert IsLastStart(p, i);
        }
      }
    }
  }

  /** How two logs' answers combine: a raise anywhere wins, then b's location, then a's. */
  function CombinePlaneStart(x: Result<Option<Location>, ParseError>, y: Result<Option<Location>, ParseError>)
    : Result<Option<Location>, ParseError>
  {
    if x.Err? then x
    else if y.Err? || y.value.Some? then y
    else x
  }

  lemma {:induction false} PlaneStartConcat(a: seq<Entry>, b: seq<Entry>)
    ensures PlaneStart(a + b) == CombinePlaneStart(PlaneStart(a), PlaneStart(b))
    decreases |b|
  {
    if b == [] {
      assert a + b == a;
    } else {
      var m := |b| - 1;
      assert (a + b)[..|a + b| - 1] == a + b[..m];
      assert (a + b)[|a + b| - 1] == b[m];
      PlaneStartConcat(a, b[..m]);
    }
  }

  // ---------------------------------------------------------------------
  // get_rankings
  // ---------------------------------------------------------------------

  /** The number of characters listed by all LogMatchEnd entries. */
  function EndCharacterCount(t: seq<Entry>): nat
    decreases |t|
  {
    if t == [] then 0
    else (if t[0].LogMatchEnd? then |t[0].characters| else 0) + EndCharacterCount(t[1..])
  }

  /** One ranking per character, in the characters' order. */
  lemma {:induction false} RankingsOfIsPerCharacter(cs: seq<Character>)
    ensures |RankingsOf(cs)| == |cs|
    ensures forall i :: 0 <= i < |cs| ==> RankingsOf(cs)[i] == Ranking(cs[i].name, cs[i].ranking)
    decreases |cs|
  {
    if cs != [] {
      RankingsOfIsPerCharacter(cs[..|cs| - 1]);
    }
  }

  /** get_rankings distributes over concatenation of logs. */
  lemma {:induction false} RankingsConcat(a: seq<Entry>, b: seq<Entry>)
    ensures Rankings(a + b) == Rankings(a) + Rankings(b)
    decreases |b|
  {
    if b == [] {
      assert a + b == a;
    } else {
      var m := |b| - 1;
      assert (a + b)[..|a + b| - 1] == a + b[..m];
      assert (a + b)[|a + b| - 1] == b[m];
      RankingsConcat(a, b[..m]);
    }
  }

  /**
   * get_rankings has one element per character of every LogMatchEnd, and
   * is empty when there is no LogMatchEnd.
   */
  lemma {:induction false} RankingsCount(t: seq<Entry>)
    ensures |Rankings(t)| == EndCharacterCount(t)
    ensures (forall i :: 0 <= i < |t| ==> !t[i].LogMatchEnd?) ==> Rankings(t) == []
    decreases |t|
  {
    if t != [] {
      assert t == [t[0]] + t[1..];
      RankingsConcat([t[0]], t[1..]);
      assert Rankings([t[0]]) == EndRankings(t[0]) by {
        assert [t[0]][..0] == [];
      }
      if t[0].LogMatchEnd? {
        RankingsOfIsPerCharacter(t[0].characters);
      }
      RankingsCount(t[1..]);
      assert forall i :: 1 <= i < |t| ==> t[i] == t[1..][i - 1];
    }
  }

  /**
   * In log order: the rankings of the entry at i sit between those of the
   * entries before it and those of the entries after it.
   */
  lemma {:induction false} RankingsAround(t: seq<Entry>, i: int)
    requires 0 <= i < |t|
    ensures Rankings(t) == Rankings(t[..i]) + EndRankings(t[i]) + Rankings(t[i + 1..])
  {
    var before, after := t[..i], t[i + 1..];
    var upTo := before + [t[i]];
    assert t == upTo + after;
    assert upTo[..|upTo| - 1] == before;
    assert Rankings(upTo) == Rankings(before) + EndRankings(t[i]);
    RankingsConcat(upTo, after);
  }

  // ---------------------------------------------------------------------
  // get_all_landings
  // ---------------------------------------------------------------------

  ghost function LandingNames(t: seq<Entry>): set<string> {
    set i | 0 <= i < |t| && t[i].LogParachuteLanding? :: t[i].character.name
  }

  /** The entry at i is a landing and no later landing is by the same player. */
  ghost predicate IsLastLandingOf(t: seq<Entry>, i: int) {
    0 <= i < |t| && t[i].LogParachuteLanding? &&
    forall j :: i < j < |t| && t[j].LogParachuteLanding? ==> t[j].character.name != t[i].character.name
  }

  /** The keys of get_all_landings are exactly the names that landed. */
  lemma {:induction false} LandingsKeys(t: seq<Entry>)
    ensures Landings(t).Keys == LandingNames(t)
    decreases |t|
  {
    if t != [] {
      var n := |t| - 1;
      var p := t[..n];
      LandingsKeys(p);
      assert forall i :: 0 <= i < n ==> t[i] == p[i];
      if t[n].LogParachuteLanding? {
        assert LandingNames(t) == LandingNames(p) + {t[n].character.name};
      } else {
        assert LandingNames(t) == LandingNames(p);
      }
    }
  }

  /** Last write wins: a player's point is that of their last landing. */
  lemma {:induction false} LandingsLastWins(t: seq<Entry>, i: int)
    requires IsLastLandingOf(t, i)
    ensures t[i].character.name in Landings(t)
    ensures Landings(t)[t[i].character.name] == LandingPoint(t[i].character)
    decreases |t|
  {
    var n := |t| - 1;
    if i < n {
      var p := t[..n];
      assert p[i] == t[i];
      assert IsLastLandingOf(p, i);
      LandingsLastWins(p, i);
    }
  }

  /** A landing in b overrides one for the same name in a. */
  lemma {:induction false} LandingsConcat(a: seq<Entry>, b: seq<Entry>)
    ensures Landings(a + b) == Landings(a) + Landings(b)
    decreases |b|
  {
    if b == [] {
      assert a + b == a;
    } else {
      var m := |b| - 1;
      assert (a + b)[..|a + b| - 1] == a + b[..m];
      assert (a + b)[|a + b| - 1] == b[m];
      LandingsConcat(a, b[..m]);
    }
  }

  // ---------------------------------------------------------------------
  // get_flight_data
  // ---------------------------------------------------------------------

  ghost predicate IsFirstLeave(t: seq<Entry>, i: int) {
    0 <= i < |t| && IsAircraftLeave(t[i]) && forall j :: 0 <= j < i ==> !IsAircraftLeave(t[j])
  }

  ghost predicate IsLastLeave(t: seq<Entry>, i: int) {
    0 <= i < |t| && IsAircraftLeave(t[i]) && forall j :: i < j < |t| ==> !IsAircraftLeave(t[j])
  }

  /** Both flight bounds are None exactly when nobody leaves the aircraft. */
  lemma {:induction false} FlightAbsent(t: seq<Entry>)
    ensures FlightData(t).first.None? <==> FlightData(t).last.None?
    ensures FlightData(t).last.None? <==> forall i :: 0 <= i < |t| ==> !IsAircraftLeave(t[i])
    decreases |t|
  {
    if t != [] {
      var n := |t| - 1;
      var p := t[..n];
      FlightAbsent(p);
      assert forall i :: 0 <= i < n ==> t[i] == p[i];
    }
  }

  /** The first flight bound is the location of the first exit from the aircraft. */
  lemma {:induction false} FlightFirst(t: seq<Entry>, i: int)
    requires IsFirstLeave(t, i)
    ensures FlightData(t).first == Some(t[i].character.location)
    decreases |t|
  {
    var n := |t| - 1;
    var p := t[..n];
    if i < n {
      assert p[i] == t[i];
      assert IsFirstLeave(p, i);
      FlightFirst(p, i);
    } else {
      assert forall j :: 0 <= j < n ==> p[j] == t[j];
      FlightAbsent(p);
    }
  }

  /** The last flight bound is the location of the last exit from the aircraft. */
  lemma {:induction false} FlightLast(t: seq<Entry>, i: int)
    requires IsLastLeave(t, i)
    ensures FlightData(t).last == Some(t[i].character.location)
    decreases |t|
  {
    var n := |t| - 1;
    var p := t[..n];
    if i < n {
      assert p[i] == t[i];
      assert IsLastLeave(p, i);
      FlightLast(p, i);
    }
  }

  /** The first exit of a + b is a's if any, the last exit b's if any. */
  lemma {:induction false} FlightConcat(a: seq<Entry>, b: seq<Entry>)
    ensures FlightData(a + b) ==
            Flight(if FlightData(a).first.Some? then FlightData(a).first else FlightData(b).first,
                   if FlightData(b).last.Some? then FlightData(b).last else FlightData(a).last)
    decreases |b|
  {
    if b == [] {
      assert a + b == a;
      FlightAbsent(a);
    } else {
      var m := |b| - 1;
      assert (a + b)[..|a + b| - 1] == a + b[..m];
      assert (a + b)[|a + b| - 1] == b[m];
      FlightConcat(a, b[..m]);
      FlightAbsent(b[..m]);
    }
  }

  // ---------------------------------------------------------------------
  // Entries an extractor does not test
  // ---------------------------------------------------------------------

  /**
   * Inserting (or, read right to left, removing) an entry whose kind an
   * extractor does not test leaves that extractor's answer unchanged.
   */
  lemma {:induction false} IgnoredEntry(a: seq<Entry>, e: Entry, b: seq<Entry>)
    ensures !e.LogMatchStart? ==> MapName(a + [e] + b) == MapName(a + b)
    ensures !e.LogMatchStart? ==> PlaneStart(a + [e] + b) == PlaneStart(a + b)
    ensures !e.LogMatchEnd? ==> Rankings(a + [e] + b) == Rankings(a + b)
    ensures !e.LogParachuteLanding? ==> Landings(a + [e] + b) == Landings(a + b)
    ensures !IsAircraftLeave(e) ==> FlightData(a + [e] + b) == FlightData(a + b)
  {
    var ae := a + [e];
    assert ae[..|ae| - 1] == a;
    assert a + [e] + b == a + ([e] + b);
    assert ([e] + b)[1..] == b;
    MapNameConcat(a, [e] + b);
    MapNameConcat(a, b);
    PlaneStartConcat(ae, b);
    PlaneStartConcat(a, b);
    RankingsConcat(ae, b);
    RankingsConcat(a, b);
    LandingsConcat(ae, b);
    LandingsConcat(a, b);
    FlightConcat(ae, b);
    FlightConcat(a, b);
  }

  // ---------------------------------------------------------------------
  // A worked example
  // ---------------------------------------------------------------------

  /** One match start on Erangel and one match end with two ranked players. */
  lemma {:induction false} ErangelScenario(starters: seq<Character>, winner: Character, second: Character)
    requires winner.ranking == 1 && second.ranking == 2
    ensures MapName([LogMatchStart("Erangel_Main", starters), LogMatchEnd([winner, second])]) == Some("Erangel_Main")
    ensures Rankings([LogMatchStart("Erangel_Main", starters), LogMatchEnd([winner, second])]) ==
            [Ranking(winner.name, 1), Ranking(second.name, 2)]
  {
    var t := [LogMatchStart("Erangel_Main", starters), LogMatchEnd([winner, second])];
    assert t[..1] == [t[0]] && t[..1][..0] == [];
    assert Rankings(t[..1]) == [];
    assert [winner, second][..1] == [winner] && [winner][..0] == [];
    assert RankingsOf([winner]) == [Ranking(winner.name, 1)];
    assert RankingsOf([winner, second]) == [Ranking(winner.name, 1), Ranking(second.name, 2)];
  }
}
