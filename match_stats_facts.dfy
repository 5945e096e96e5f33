/**
 * When get_match_stats succeeds, what its record holds, which error it
 * reports first otherwise, and how the telemetry lookup behaves on a reply
 * with exactly one telemetry object.
 */
module MatchStatsFacts {
  import opened Wrappers
  import opened MatchStats

  /** The four attributes get_match_stats reads, in the order it reads them. */
  const ATTRIBUTES := [GAME_MODE, MAP_NAME, CREATED_AT, DURATION]

  /** Everything get_match_stats looks up is in the reply. */
  predicate Complete(reply: MatchReply) {
    && reply.data.assets.Some?
    && FirstAssetId(reply.data.assets.value).Some?
    && HasUrl(TelemetryObjects(reply.included, FirstAssetId(reply.data.assets.value).value))
    && forall name :: name in ATTRIBUTES ==> name in reply.data.attributes
  }

  /**
   * get_match_stats succeeds exactly on a complete reply, and then the record
   * carries the four attributes and the URL column of the telemetry objects.
   */
  lemma GetMatchStatsOk(matchId: string, reply: MatchReply)
    ensures GetMatchStats(matchId, reply).Ok? <==> Complete(reply)
    ensures Complete(reply) ==>
      var attributes := reply.data.attributes;
      var telemetryId := FirstAssetId(reply.data.assets.value).value;
      GetMatchStats(matchId, reply).value ==
        MatchRecord(matchId, attributes[GAME_MODE], attributes[MAP_NAME], attributes[CREATED_AT],
                    attributes[DURATION], UrlColumn(TelemetryObjects(reply.included, telemetryId)))
  {
    if !Complete(reply) && reply.data.assets.Some? && FirstAssetId(reply.data.assets.value).Some?
       && HasUrl(TelemetryObjects(reply.included, FirstAssetId(reply.data.assets.value).value)) {
      var name :| name in ATTRIBUTES && name !in reply.data.attributes;
      assert name == GAME_MODE || name == MAP_NAME || name == CREATED_AT || name == DURATION;
    }
  }

  /**
   * When the telemetry lookup succeeds but an attribute is missing, the
   * error names the first missing one in reading order.
   */
  lemma FirstMissingAttribute(matchId: string, reply: MatchReply, k: nat)
    requires reply.data.assets.Some? && FirstAssetId(reply.data.assets.value).Some?
    requires HasUrl(TelemetryObjects(reply.included, FirstAssetId(reply.data.assets.value).value))
    requires k < |ATTRIBUTES| && ATTRIBUTES[k] !in reply.data.attributes
    requires forall j :: 0 <= j < k ==> ATTRIBUTES[j] in reply.data.attributes
    ensures GetMatchStats(matchId, reply) == Err(MissingAttribute(ATTRIBUTES[k]))
  {
    if k > 0 {
      assert ATTRIBUTES[0] in reply.data.attributes;
    }
    if k > 1 {
      assert ATTRIBUTES[1] in reply.data.attributes;
    }
    if k > 2 {
      assert ATTRIBUTES[2] in reply.data.attributes;
    }
  }

  /** The telemetry objects are exactly the included entries carrying the id. */
  lemma {:induction false} TelemetryObjectsMembers(included: seq<IncludedEntry>, id: string)
    ensures forall e :: e in TelemetryObjects(included, id) <==> e in included && e.id == id
    decreases |included|
  {
    if included != [] {
      var init := included[..|included| - 1];
      TelemetryObjectsMembers(init, id);
      assert included == init + [included[|included| - 1]];
    }
  }

  /** Selecting the telemetry objects distributes over concatenation of the included list. */
  lemma {:induction false} TelemetryObjectsConcat(a: seq<IncludedEntry>, b: seq<IncludedEntry>, id: string)
    ensures TelemetryObjects(a + b, id) == TelemetryObjects(a, id) + TelemetryObjects(b, id)
    decreases |b|
  {
    if b == [] {
      assert a + b == a;
    } else {
      var init := b[..|b| - 1];
      var last := b[|b| - 1];
      TelemetryObjectsConcat(a, init, id);
      assert (a + b)[..|a + b| - 1] == a + init;
      assert (a + b)[|a + b| - 1] == last;
      if last.id == id {
        calc {
          TelemetryObjects(a + b, id);
          TelemetryObjects(a + init, id) + [last];
          TelemetryObjects(a, id) + TelemetryObjects(init, id) + [last];
          TelemetryObjects(a, id) + (TelemetryObjects(init, id) + [last]);
        }
      }
    }
  }

  /** An included list without the id selects nothing. */
  lemma TelemetryObjectsAbsent(included: seq<IncludedEntry>, id: string)
    requires forall i :: 0 <= i < |included| ==> included[i].id != id
    ensures TelemetryObjects(included, id) == []
  {
    TelemetryObjectsMembers(included, id);
  }

  /**
   * When no included entry carries the telemetry id, the URL lookup fails.
   */
  lemma NoTelemetryObject(matchId: string, reply: MatchReply)
    requires reply.data.assets.Some? && FirstAssetId(reply.data.assets.value).Some?
    requires forall i :: 0 <= i < |reply.included| ==> reply.included[i].id != FirstAssetId(reply.data.assets.value).value
    ensures GetMatchStats(matchId, reply) == Err(NoTelemetryUrl)
  {
    TelemetryObjectsAbsent(reply.included, FirstAssetId(reply.data.assets.value).value);
  }

  /**
   * When no telemetry object carries a URL, the lookup fails with
   * NoTelemetryUrl whatever the attributes: no attribute is read before it.
   */
  lemma NoUrlBeforeAttributes(matchId: string, reply: MatchReply)
    requires reply.data.assets.Some? && FirstAssetId(reply.data.assets.value).Some?
    requires !HasUrl(TelemetryObjects(reply.included, FirstAssetId(reply.data.assets.value).value))
    ensures GetMatchStats(matchId, reply) == Err(NoTelemetryUrl)
  {
  }

  /** An id carried by exactly one included entry selects that entry alone, once it is reached. */
  lemma {:induction false} SingleObject(included: seq<IncludedEntry>, k: nat, n: nat)
    requires k < |included| && n <= |included|
    requires forall j :: 0 <= j < |included| && j != k ==> included[j].id != included[k].id
    ensures TelemetryObjects(included[..n], included[k].id) == if k < n then [included[k]] else []
    decreases n
  {
    if n > 0 {
      SingleObject(included, k, n - 1);
      assert included[..n][..n - 1] == included[..n - 1];
    }
  }

  /**
   * When exactly one included entry carries the telemetry id, the URL column
   * is that entry's URL alone.
   */
  lemma SingleTelemetryObject(matchId: string, reply: MatchReply, k: nat)
    requires reply.data.assets.Some? && FirstAssetId(reply.data.assets.value).Some?
    requires k < |reply.included| && reply.included[k].id == FirstAssetId(reply.data.assets.value).value
    requires forall j :: 0 <= j < |reply.included| && j != k ==> reply.included[j].id != reply.included[k].id
    requires URL_KEY in reply.included[k].attributes
    requires forall name :: name in ATTRIBUTES ==> name in reply.data.attributes
    ensures GetMatchStats(matchId, reply).Ok?
    ensures GetMatchStats(matchId, reply).value.telemetryUrl == [Some(reply.included[k].attributes[URL_KEY])]
  {
    var entry := reply.included[k];
    SingleObject(reply.included, k, |reply.included|);
    assert reply.included[..|reply.included|] == reply.included;
    assert entry in TelemetryObjects(reply.included, entry.id);
    assert UrlColumn([entry]) == [Some(entry.attributes[URL_KEY])];
    GetMatchStatsOk(matchId, reply);
  }
}
