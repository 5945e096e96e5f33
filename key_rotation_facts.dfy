/**
 * What main's key loop does to the pool, stated key by key: which keys are
 * refilled, skipped or called, where the loop breaks, what the match-id
 * queue and `sample_matches` hold afterwards, and the consequence of
 * `limit_max` never being written.
 */
module KeyRotationFacts {
  import opened Wrappers
  import opened KeyRotation

  /** No key before index n answers 200 to a call. */
  predicate NoStopBefore(ks: seq<Limits>, now: int, replies: seq<SamplesReply>, n: nat)
    requires |replies| == |ks| && n <= |ks|
  {
    forall j :: 0 <= j < n ==> !StopsAt(ks[j], now, replies[j])
  }

  /** Key j is the last key before index n that the loop calls. */
  predicate IsLastCalled(ks: seq<Limits>, now: int, j: nat, n: nat)
    requires j < n <= |ks|
  {
    !Skipped(ks[j], now) && forall l :: j < l < n ==> Skipped(ks[l], now)
  }

  /** Keys the loop has not reached yet are as they were. */
  lemma {:induction false} RunUntouched(ks: seq<Limits>, now: int, replies: seq<SamplesReply>, n: nat)
    requires |replies| == |ks| && n <= |ks|
    ensures forall j :: n <= j < |ks| ==> Run(ks, now, replies, n).keys[j] == ks[j]
    decreases n
  {
    if n > 0 {
      RunUntouched(ks, now, replies, n - 1);
      var before := Run(ks, now, replies, n - 1);
      if !before.stopped {
        StepVisits(before, n - 1, now, replies[n - 1]);
      }
    }
  }

  /** Until the first 200, the loop does not break and the queue stays empty. */
  lemma {:induction false} RunNotStopped(ks: seq<Limits>, now: int, replies: seq<SamplesReply>, n: nat)
    requires |replies| == |ks| && n <= |ks|
    requires NoStopBefore(ks, now, replies, n)
    ensures !Run(ks, now, replies, n).stopped && Run(ks, now, replies, n).queue == []
    decreases n
  {
    if n > 0 {
      RunNotStopped(ks, now, replies, n - 1);
      RunUntouched(ks, now, replies, n - 1);
      RunNext(ks, now, replies, n - 1);
    }
  }

  /** Until the first 200, the loop visits every key in order and touches no later key. */
  lemma {:induction false} RunVisits(ks: seq<Limits>, now: int, replies: seq<SamplesReply>, n: nat)
    requires |replies| == |ks| && n <= |ks|
    requires NoStopBefore(ks, now, replies, n)
    ensures forall j :: 0 <= j < |ks| ==>
      Run(ks, now, replies, n).keys[j] == if j < n then Visit(ks[j], now, replies[j]) else ks[j]
    decreases n
  {
    if n > 0 {
      RunVisits(ks, now, replies, n - 1);
      RunNotStopped(ks, now, replies, n - 1);
      RunNext(ks, now, replies, n - 1);
      StepVisits(Run(ks, now, replies, n - 1), n - 1, now, replies[n - 1]);
    }
  }

  /** Until the first 200, `sample_matches` is None exactly when every key so far was skipped. */
  lemma {:induction false} RunNoCall(ks: seq<Limits>, now: int, replies: seq<SamplesReply>, n: nat)
    requires |replies| == |ks| && n <= |ks|
    requires NoStopBefore(ks, now, replies, n)
    ensures Run(ks, now, replies, n).sampleMatches.None? <==> forall j :: 0 <= j < n ==> Skipped(ks[j], now)
    decreases n
  {
    if n > 0 {
      RunNoCall(ks, now, replies, n - 1);
      RunNotStopped(ks, now, replies, n - 1);
      RunUntouched(ks, now, replies, n - 1);
      RunNext(ks, now, replies, n - 1);
      StepResponse(Run(ks, now, replies, n - 1), n - 1, now, replies[n - 1]);
      if Skipped(ks[n - 1], now) {
        assert Run(ks, now, replies, n).sampleMatches == Run(ks, now, replies, n - 1).sampleMatches;
      } else {
        assert Run(ks, now, replies, n).sampleMatches.Some?;
      }
    }
  }

  /** Until the first 200, `sample_matches` is the response to the last key called. */
  lemma {:induction false} RunLastCalled(ks: seq<Limits>, now: int, replies: seq<SamplesReply>, n: nat)
    requires |replies| == |ks| && n <= |ks|
    requires NoStopBefore(ks, now, replies, n)
    ensures forall j :: 0 <= j < n && IsLastCalled(ks, now, j, n) ==>
      Run(ks, now, replies, n).sampleMatches == Some(SamplesResult(replies[j]))
    decreases n
  {
    if n > 0 {
      RunLastCalled(ks, now, replies, n - 1);
      RunNotStopped(ks, now, replies, n - 1);
      RunUntouched(ks, now, replies, n - 1);
      RunNext(ks, now, replies, n - 1);
      StepResponse(Run(ks, now, replies, n - 1), n - 1, now, replies[n - 1]);
      var after := Run(ks, now, replies, n);
      forall j | 0 <= j < n && IsLastCalled(ks, now, j, n)
        ensures after.sampleMatches == Some(SamplesResult(replies[j]))
      {
        if j < n - 1 {
          assert IsLastCalled(ks, now, j, n - 1);
        }
      }
    }
  }

  /**
   * When key s is the first to answer 200, the loop breaks there: keys up to
   * s are visited, later keys are untouched, the queue holds exactly key s's
   * match ids and `sample_matches` is its response.
   */
  lemma FinalAtStop(ks: seq<Limits>, now: int, replies: seq<SamplesReply>, s: nat)
    requires |replies| == |ks| && s < |ks|
    requires NoStopBefore(ks, now, replies, s) && StopsAt(ks[s], now, replies[s])
    ensures Final(ks, now, replies).stopped
    ensures Final(ks, now, replies).queue == replies[s].matchIds
    ensures Final(ks, now, replies).sampleMatches == Some(SamplesResult(replies[s]))
    ensures forall j :: 0 <= j < |ks| ==>
      Final(ks, now, replies).keys[j] == if j <= s then Visit(ks[j], now, replies[j]) else ks[j]
  {
    RunNotStopped(ks, now, replies, s);
    RunVisits(ks, now, replies, s);
    RunNext(ks, now, replies, s);
    StoppedPersists(ks, now, replies, s + 1, |ks|);
  }

  /**
   * When no key answers 200, every key is visited, the queue stays empty
   * (main then logs that it could not get any match ids), and
   * `sample_matches` is None exactly when every key was skipped.
   */
  lemma FinalWithoutStop(ks: seq<Limits>, now: int, replies: seq<SamplesReply>)
    requires |replies| == |ks|
    requires NoStopBefore(ks, now, replies, |ks|)
    ensures !Final(ks, now, replies).stopped && Final(ks, now, replies).queue == []
    ensures forall j :: 0 <= j < |ks| ==> Final(ks, now, replies).keys[j] == Visit(ks[j], now, replies[j])
    ensures Final(ks, now, replies).sampleMatches.None? <==> forall j :: 0 <= j < |ks| ==> Skipped(ks[j], now)
  {
    RunNotStopped(ks, now, replies, |ks|);
    RunVisits(ks, now, replies, |ks|);
    RunNoCall(ks, now, replies, |ks|);
  }

  /** Whatever the replies, no key's `limit_max` changes. */
  lemma {:induction false} RunKeepsMax(ks: seq<Limits>, now: int, replies: seq<SamplesReply>, n: nat)
    requires |replies| == |ks| && n <= |ks|
    ensures forall j :: 0 <= j < |ks| ==> Run(ks, now, replies, n).keys[j].max == ks[j].max
    decreases n
  {
    if n > 0 {
      RunKeepsMax(ks, now, replies, n - 1);
    }
  }

  /**
   * A key whose `limit_max` is still unset and whose reset time has passed is
   * refilled to -1, not 0, so it is never skipped: in a pool of such keys
   * (a fresh pool, for any positive clock reading) the first key is always
   * called and `sample_matches` is never None.
   */
  lemma {:induction false} UnsetMaxNeverSkipped(ks: seq<Limits>, now: int, replies: seq<SamplesReply>, n: nat)
    requires |replies| == |ks| && 0 < n <= |ks|
    requires forall j :: 0 <= j < |ks| ==> ks[j].max == UNSET && ks[j].reset < now
    ensures Run(ks, now, replies, n).sampleMatches.Some?
    ensures Run(ks, now, replies, n).keys[0] == Charged(ks[0].(remaining := UNSET), replies[0])
    decreases n
  {
    if n == 1 {
      assert Run(ks, now, replies, 0).keys[0] == ks[0];
    } else {
      UnsetMaxNeverSkipped(ks, now, replies, n - 1);
    }
  }
}
