/**
 * API keys and their rate limits (data.py): the API_Key record, the limiter
 * update and response construction of get_sample_matches, and the loop of
 * main that tries the keys in order until one call answers 200.
 *
 * The HTTP call is replaced by its answer, which is a parameter; the clock
 * reading `time.time()` is the parameter `now`.
 */
module KeyRotation {
  import opened Wrappers

  /** The value data.py gives every limiter field of a new key. */
  const UNSET: int := -1

  const HTTP_OK: int := 200

  /** The limiter fields of one key, as a value. */
  datatype Limits = Limits(max: int, remaining: int, reset: int, qty: Option<int>)

  /**
   * What the samples endpoint answers: the status code, the headers
   * X-Ratelimit-Remaining, X-Ratelimit-Limit and X-Ratelimit-Reset, and the
   * match ids the body lists (read only on a 200).
   */
  datatype SamplesReply = SamplesReply(status: int, remainingHeader: int, limitHeader: int, resetHeader: int,
                                       matchIds: seq<string>)

  /** Match_Samples_Response. */
  datatype MatchSamplesResponse = MatchSamplesResponse(responseCode: int, matchIds: seq<string>)

  /**
   * API_Key. `limitQty` is the attribute get_sample_matches creates on the
   * key: None until the key's first call.
   */
  class ApiKey {
    const keyString: string
    var limitMax: int
    var limitRemaining: int
    var limitReset: int
    var limitQty: Option<int>

    constructor (keyString: string)
      ensures this.keyString == keyString
      ensures State() == Limits(UNSET, UNSET, UNSET, None)
    {
      this.keyString := keyString;
      limitMax := UNSET;
      limitRemaining := UNSET;
      limitReset := UNSET;
      limitQty := None;
    }

    function State(): Limits
      reads this
    {
      Limits(limitMax, limitRemaining, limitReset, limitQty)
    }

    /** The refill step of main's loop: a key whose reset time has passed gets `limitMax` back. */
    method Refill(now: int)
      modifies this
      ensures State() == Refilled(old(State()), now)
    {
      if limitReset < now {
        limitRemaining := limitMax;
      }
    }
  }

  // ---------------------------------------------------------------------
  // One key, as values
  // ---------------------------------------------------------------------

  /** Before use, a key whose reset time has passed (strictly) gets its remaining quota back. */
  function Refilled(k: Limits, now: int): (r: Limits)
    ensures r.max == k.max && r.reset == k.reset && r.qty == k.qty
    ensures r.remaining == if k.reset < now then k.max else k.remaining
  {
    if k.reset < now then k.(remaining := k.max) else k
  }

  /** The keys main does not call: no quota left after the refill. */
  predicate Skipped(k: Limits, now: int) {
    Refilled(k, now).remaining == 0
  }

  /**
   * The limiter update after a call: remaining and reset come from their
   * headers, the limit header goes to `qty`, and `max` is never written.
   */
  function Charged(k: Limits, reply: SamplesReply): (r: Limits)
    ensures r.max == k.max
    ensures r.remaining == reply.remainingHeader && r.reset == reply.resetHeader
    ensures r.qty == Some(reply.limitHeader)
  {
    k.(remaining := reply.remainingHeader, qty := Some(reply.limitHeader), reset := reply.resetHeader)
  }

  /** The response get_sample_matches builds: ids only on a 200. */
  function SamplesResult(reply: SamplesReply): (r: MatchSamplesResponse)
    ensures r.responseCode == reply.status
    ensures r.matchIds == if reply.status == HTTP_OK then reply.matchIds else []
  {
    var sampleMatches := MatchSamplesResponse(reply.status, []);
    if reply.status == HTTP_OK then sampleMatches.(matchIds := reply.matchIds) else sampleMatches
  }

  /**
   * What one pass of main's loop does to a key it reaches: a skipped key
   * keeps its fields apart from the refill, a called key has remaining, reset
   * and qty overwritten from the headers whatever the status, and `max` is
   * never written.
   */
  function Visit(k: Limits, now: int, reply: SamplesReply): (r: Limits)
    ensures r.max == k.max
    ensures Skipped(k, now) ==> r == Refilled(k, now)
    ensures !Skipped(k, now) ==>
      r.remaining == reply.remainingHeader && r.reset == reply.resetHeader && r.qty == Some(reply.limitHeader)
  {
    var r := Refilled(k, now);
    if r.remaining == 0 then r else Charged(r, reply)
  }

  /** The key at which main's loop breaks: it is called and answers 200. */
  predicate StopsAt(k: Limits, now: int, reply: SamplesReply) {
    !Skipped(k, now) && reply.status == HTTP_OK
  }

  // ---------------------------------------------------------------------
  // The whole pool, as values
  // ---------------------------------------------------------------------

  /**
   * The state of main's key loop after the first n keys: the limiter states,
   * the match-id queue, the variable `sample_matches`, and whether the loop
   * has broken out.
   */
  datatype LoopState = LoopState(keys: seq<Limits>, queue: seq<string>, sampleMatches: Option<MatchSamplesResponse>, stopped: bool)

  /** One run of the loop body on key i. */
  function Step(p: LoopState, i: nat, now: int, reply: SamplesReply): LoopState
    requires i < |p.keys|
  {
    var k := Refilled(p.keys[i], now);
    if k.remaining == 0 then p.(keys := p.keys[i := k])
    else
      var response := SamplesResult(reply);
      var called := p.(keys := p.keys[i := Charged(k, reply)], sampleMatches := Some(response));
      if response.responseCode == HTTP_OK then called.(queue := p.queue + response.matchIds, stopped := true)
      else called
  }

  /** The loop body visits key i and leaves every other key as it was. */
  lemma StepVisits(p: LoopState, i: nat, now: int, reply: SamplesReply)
    requires i < |p.keys|
    ensures Step(p, i, now, reply).keys == p.keys[i := Visit(p.keys[i], now, reply)]
  {
  }

  /** The loop body records the response of a call, and only of a call. */
  lemma StepResponse(p: LoopState, i: nat, now: int, reply: SamplesReply)
    requires i < |p.keys|
    ensures Step(p, i, now, reply).sampleMatches ==
      if Skipped(p.keys[i], now) then p.sampleMatches else Some(SamplesResult(reply))
  {
  }

  /** The loop after it has considered the first n keys. */
  function Run(ks: seq<Limits>, now: int, replies: seq<SamplesReply>, n: nat): (p: LoopState)
    requires |replies| == |ks| && n <= |ks|
    ensures |p.keys| == |ks|
    decreases n
  {
    if n == 0 then LoopState(ks, [], None, false)
    else
      var before := Run(ks, now, replies, n - 1);
      if before.stopped then before else Step(before, n - 1, now, replies[n - 1])
  }

  /** The loop once it is over. */
  function Final(ks: seq<Limits>, now: int, replies: seq<SamplesReply>): LoopState
    requires |replies| == |ks|
  {
    Run(ks, now, replies, |ks|)
  }

  /** A loop that has not broken out goes on with the next key. */
  lemma RunNext(ks: seq<Limits>, now: int, replies: seq<SamplesReply>, n: nat)
    requires |replies| == |ks| && n < |ks|
    requires !Run(ks, now, replies, n).stopped
    ensures Run(ks, now, replies, n + 1) == Step(Run(ks, now, replies, n), n, now, replies[n])
  {
  }

  /** After the break, the remaining keys are not looked at. */
  lemma {:induction false} StoppedPersists(ks: seq<Limits>, now: int, replies: seq<SamplesReply>, k: nat, n: nat)
    requires |replies| == |ks| && k <= n <= |ks|
    requires Run(ks, now, replies, k).stopped
    ensures Run(ks, now, replies, n) == Run(ks, now, replies, k)
    decreases n - k
  {
    if k < n {
      StoppedPersists(ks, now, replies, k, n - 1);
    }
  }

  // ---------------------------------------------------------------------
  // The imperative code
  // ---------------------------------------------------------------------

  /** get_sample_matches with the HTTP call replaced by its reply. */
  method GetSampleMatches(apiKey: ApiKey, reply: SamplesReply) returns (sampleMatches: MatchSamplesResponse)
    modifies apiKey
    ensures apiKey.State() == Charged(old(apiKey.State()), reply)
    ensures sampleMatches == SamplesResult(reply)
  {
    apiKey.limitRemaining := reply.remainingHeader;
    apiKey.limitQty := Some(reply.limitHeader);
    apiKey.limitReset := reply.resetHeader;
    sampleMatches := MatchSamplesResponse(reply.status, []);
    if reply.status == HTTP_OK {
      sampleMatches := sampleMatches.(matchIds := reply.matchIds);
    }
  }

  /**
   * One pass of main's loop body on key i: refill it, skip it when it has
   * no quota left, otherwise call the samples endpoint with it.
   */
  method VisitKey(apiKeys: seq<ApiKey>, i: nat, now: int, reply: SamplesReply, ghost p: LoopState)
    returns (response: Option<MatchSamplesResponse>, ghost next: LoopState)
    requires i < |apiKeys| == |p.keys| && !p.stopped
    requires forall a, b :: 0 <= a < b < |apiKeys| ==> apiKeys[a] != apiKeys[b]
    requires forall j :: 0 <= j < |apiKeys| ==> apiKeys[j].State() == p.keys[j]
    modifies apiKeys[i]
    ensures next == Step(p, i, now, reply)
    ensures forall j :: 0 <= j < |apiKeys| ==> apiKeys[j].State() == next.keys[j]
    ensures response == next.sampleMatches || response.None?
    ensures response.None? ==> next.sampleMatches == p.sampleMatches && next.queue == p.queue && !next.stopped
    ensures response.Some? ==> (next.stopped <==> response.value.responseCode == HTTP_OK)
    ensures response.Some? && response.value.responseCode == HTTP_OK ==> next.queue == p.queue + response.value.matchIds
    ensures response.Some? && response.value.responseCode != HTTP_OK ==> next.queue == p.queue
  {
    var key := apiKeys[i];
    key.Refill(now);
    if key.limitRemaining == 0 {
      next := p.(keys := p.keys[i := key.State()]);
      return None, next;
    }
    var sampleMatches := GetSampleMatches(key, reply);
    response := Some(sampleMatches);
    next := Step(p, i, now, reply);
  }

  /**
   * The key loop of main: `replies[i]` is what the samples endpoint would
   * answer to key i, and `ks` are the keys' limiter states on entry. The keys
   * are distinct objects, as main builds one per line of the key file.
   */
  method CollectMatchIds(apiKeys: seq<ApiKey>, now: int, replies: seq<SamplesReply>, ghost ks: seq<Limits>)
    returns (matchIdQueue: seq<string>, sampleMatches: Option<MatchSamplesResponse>)
    requires |replies| == |apiKeys| == |ks|
    requires forall a, b :: 0 <= a < b < |apiKeys| ==> apiKeys[a] != apiKeys[b]
    requires forall j :: 0 <= j < |apiKeys| ==> apiKeys[j].State() == ks[j]
    modifies set k | k in apiKeys
    ensures forall j :: 0 <= j < |apiKeys| ==> apiKeys[j].State() == Final(ks, now, replies).keys[j]
    ensures matchIdQueue == Final(ks, now, replies).queue
    ensures sampleMatches == Final(ks, now, replies).sampleMatches
  {
    ghost var p := Run(ks, now, replies, 0);
    sampleMatches := None;
    matchIdQueue := [];
    var i := 0;
    while i < |apiKeys|
      invariant i <= |apiKeys| && p == Run(ks, now, replies, i)
      invariant p == LoopState(p.keys, matchIdQueue, sampleMatches, false)
      invariant forall j :: 0 <= j < |apiKeys| ==> apiKeys[j].State() == p.keys[j]
    {
      var response;
      RunNext(ks, now, replies, i);
      response, p := VisitKey(apiKeys, i, now, replies[i], p);
      if response.None? {
        i := i + 1;
        continue;
      }
      sampleMatches := response;
      if response.value.responseCode == HTTP_OK {
        matchIdQueue := matchIdQueue + response.value.matchIds;
        StoppedPersists(ks, now, replies, i + 1, |apiKeys|);
        return;
      }
      i := i + 1;
    }
  }
}
