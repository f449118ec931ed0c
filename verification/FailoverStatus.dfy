/** The failover loop in statuses and milliseconds: what is retried, what is final, what is returned. */
module FailoverStatus {
  import opened Basics
  import opened Failover

  /** The attempts made on behalf of one request. */
  function Tried(u: Upstreams): seq<Attempt> {
    WholeTrail(u).0
  }

  /** Nothing to return to the caller yet: a transport error, too many requests, or a failing server. */
  predicate Unserved(o: Outcome) {
    o.Failed? || o.status == 429 || 500 <= o.status <= 599
  }

  /** Told to come back later than the gateway is willing to wait. */
  predicate Postponed(o: Outcome) {
    o.Response? && o.status == 429 && o.retryAfter.Some? && o.retryAfter.value > 2000
  }

  ghost predicate AllAddressable(u: Upstreams) {
    forall i | 0 <= i < u.candidates :: u.outbound(i).None?
  }

  /** The first candidate is asked whenever the request can be put to it. */
  lemma FirstIsTried(u: Upstreams)
    ensures Attempt(0, 0) in Tried(u) <==> u.candidates > 0 && u.outbound(0).None?
  {
    AttemptsAreExact(u);
  }

  /** A candidate is asked again, twice at most, exactly when the attempt before served nobody and was not postponed. */
  lemma RetriesAreExact(u: Upstreams, i: nat, k: nat)
    ensures Attempt(i, k + 1) in Tried(u) <==>
            && Attempt(i, k) in Tried(u) && k < 2
            && Unserved(u.outcome(Attempt(i, k))) && !Postponed(u.outcome(Attempt(i, k)))
  {
    AttemptsAreExact(u);
    var before := Attempt(i, k);
    if Made(u, before) && k < 2 && Unserved(u.outcome(before)) && !Postponed(u.outcome(before)) {
      OneMore(u, i, k);
    }
    if Made(u, Attempt(i, k + 1)) {
      assert !StopsBefore(u, i, k + 1);
    }
  }

  /** No attempt at candidate `i` served anybody. */
  ghost predicate NeverServed(u: Upstreams, i: nat) {
    forall k :: Attempt(i, k) in Tried(u) ==> Unserved(u.outcome(Attempt(i, k)))
  }

  /** The next candidate is asked exactly when the one before was asked and served nobody. */
  lemma NextIsTried(u: Upstreams, i: nat)
    ensures Attempt(i + 1, 0) in Tried(u) <==>
            i + 1 < u.candidates && u.outbound(i + 1).None? && Attempt(i, 0) in Tried(u) && NeverServed(u, i)
  {
    AttemptsAreExact(u);
    if Made(u, Attempt(i + 1, 0)) {
      assert !Answers(u, i);
      assert u.outbound(i).None?;
      forall k | Attempt(i, k) in Tried(u)
        ensures Unserved(u.outcome(Attempt(i, k)))
      {
      }
    }
    if i + 1 < u.candidates && u.outbound(i + 1).None? && Made(u, Attempt(i, 0)) && NeverServed(u, i) {
      forall k: nat | k < MAX_ATTEMPTS && Good(u.outcome(Attempt(i, k)))
        ensures StopsBefore(u, i, k)
      {
        assert Made(u, Attempt(i, k)) || StopsBefore(u, i, k);
      }
      NextTurn(u, i);
    }
  }

  /** An answer of any other status is the last one asked for, and the one returned. */
  lemma OtherStatusIsReturned(u: Upstreams, a: Attempt)
    requires a in Tried(u) && !Unserved(u.outcome(a))
    ensures Tried(u)[|Tried(u)| - 1] == a
    ensures Verdict(u, WholeTrail(u)) == Ok(a)
  {
    AttemptsAreExact(u);
    GoodIsLast(u, 0, 0);
    FailoverReturnsFirstGoodAnswer(u);
    assert GoodAnswer(u, a);
    var n :| 0 <= n < |Tried(u)| && Tried(u)[n] == a;
  }

  lemma {:induction false} EveryCandidateIsTried(u: Upstreams, i: nat)
    requires AllAddressable(u) && i < u.candidates && forall a | a in Tried(u) :: Unserved(u.outcome(a))
    ensures Attempt(i, 0) in Tried(u)
  {
    if i == 0 {
      FirstIsTried(u);
    } else {
      EveryCandidateIsTried(u, i - 1);
      NextIsTried(u, i - 1);
    }
  }

  /**
   When every candidate can be addressed, a failing status is returned only if there was nothing
   better: every candidate was asked, and every attempt brought such a status or a transport error.
   */
  lemma FailureIsReturnedLast(u: Upstreams)
    requires AllAddressable(u)
    ensures var r := Verdict(u, WholeTrail(u));
            && (r.Ok? ==> r.value in Tried(u) && u.outcome(r.value).Response?)
            && (r.Err? || Unserved(u.outcome(r.value)) ==>
                  && (forall a | a in Tried(u) :: Unserved(u.outcome(a)))
                  && forall i: nat | i < u.candidates :: Attempt(i, 0) in Tried(u))
  {
    AttemptsAreExact(u);
    FailoverReturnsFirstGoodAnswer(u);
    var r := Verdict(u, WholeTrail(u));
    if r.Err? || Unserved(u.outcome(r.value)) {
      forall a | a in Tried(u)
        ensures Unserved(u.outcome(a))
      {
        if !Unserved(u.outcome(a)) {
          OtherStatusIsReturned(u, a);
        }
      }
      forall i: nat | i < u.candidates
        ensures Attempt(i, 0) in Tried(u)
      {
        EveryCandidateIsTried(u, i);
      }
    }
  }

  /** A retry waits for what the attempt before it was told under status 429, or else 100 and then 200 milliseconds. */
  lemma WaitsAre(u: Upstreams, i: nat, k: nat)
    requires k < 3
    ensures Delay(u, Attempt(i, 0)) == 0
    ensures k > 0 ==>
              var o := u.outcome(Attempt(i, k - 1));
              Delay(u, Attempt(i, k)) == if o.Response? && o.status == 429 && o.retryAfter.Some? then o.retryAfter.value
                                         else if k == 1 then 100 else 200
  {
    assert Power2(0) == 1 && Power2(1) == 2;
  }
}
