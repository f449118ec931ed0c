/** Trying providers in turn until one gives an answer worth returning. */
module Failover {
  import opened Basics

  const MAX_ATTEMPTS := 3
  /** Milliseconds. */
  const RETRY_BASE_DELAY := 100
  const MAX_RETRY_AFTER := 2000
  const TOO_MANY_REQUESTS := 429

  /** What one request to a provider comes to; `retryAfter` is the parsed header, in milliseconds. */
  datatype Outcome = Response(status: nat, retryAfter: Option<nat>) | Failed(reason: string)

  /** The `number`-th request, from 0, to the candidate at an index. */
  datatype Attempt = Attempt(candidate: nat, number: nat)

  datatype GatewayError = NoProvider | Upstream(reason: string) | Untranslatable(reason: string)

  /**
   * The world of one request: `outcome` answers every attempt that could be made, and
   * `outbound` says why the request cannot be put in a candidate's dialect, if it cannot.
   */
  datatype Upstreams = Upstreams(candidates: nat, outbound: nat -> Option<string>, outcome: Attempt -> Outcome)

  predicate IsRetryable(status: nat) {
    status == TOO_MANY_REQUESTS || 500 <= status < 600
  }

  /** A response to return as it is. */
  predicate Good(o: Outcome) {
    o.Response? && !IsRetryable(o.status)
  }

  function RetryAfterOf(o: Outcome): Option<nat> {
    if o.Response? && o.status == TOO_MANY_REQUESTS then o.retryAfter else None
  }

  /** Told to wait too long: the candidate's remaining attempts are dropped. */
  predicate GivesUp(o: Outcome) {
    RetryAfterOf(o).Some? && RetryAfterOf(o).value > MAX_RETRY_AFTER
  }

  // ---- The attempts that are made ----

  /** The attempts made, and the reason the loop was abandoned, if it was. */
  type Trail = (seq<Attempt>, Option<string>)

  function After(a: seq<Attempt>, t: Trail): Trail {
    (a + t.0, t.1)
  }

  /** What is still tried when attempt `k` at candidate `i` comes next. */
  function TrailFrom(u: Upstreams, i: nat, k: nat): Trail
    requires k <= MAX_ATTEMPTS
    decreases u.candidates - i, MAX_ATTEMPTS - k
  {
    if i >= u.candidates then ([], None)
    else if k == 0 && u.outbound(i).Some? then ([], u.outbound(i))
    else if k == MAX_ATTEMPTS then TrailFrom(u, i + 1, 0)
    else
      var a := Attempt(i, k);
      if Good(u.outcome(a)) then ([a], None)
      else if GivesUp(u.outcome(a)) then After([a], TrailFrom(u, i + 1, 0))
      else After([a], TrailFrom(u, i, k + 1))
  }

  /** The last attempt a predicate holds of. */
  function LastWhere(tried: seq<Attempt>, p: Attempt -> bool): Option<Attempt> {
    if tried == [] then None
    else if p(tried[|tried| - 1]) then Some(tried[|tried| - 1])
    else LastWhere(tried[..|tried| - 1], p)
  }

  function Answered(u: Upstreams): Attempt -> bool {
    a => u.outcome(a).Response?
  }

  function Errored(u: Upstreams): Attempt -> bool {
    a => u.outcome(a).Failed?
  }

  /** The last response there was; without any, the last transport error; without any, no provider. */
  function Verdict(u: Upstreams, t: Trail): Result<Attempt, GatewayError> {
    if t.1.Some? then Err(Untranslatable(t.1.value))
    else
      match LastWhere(t.0, Answered(u))
      case Some(a) => Ok(a)
      case None =>
        match LastWhere(t.0, Errored(u))
        case Some(a) => (match u.outcome(a) case Failed(reason) => Err(Upstream(reason)) case _ => Err(NoProvider))
        case None => Err(NoProvider)
  }

  // ---- Which attempts those are ----

  /** The candidate gives a good answer before it is given up on. */
  ghost predicate Answers(u: Upstreams, i: nat) {
    exists k :: 0 <= k < MAX_ATTEMPTS && Good(u.outcome(Attempt(i, k))) && !StopsBefore(u, i, k)
  }

  /** Some attempt before `k` already ended the candidate's turn. */
  ghost predicate StopsBefore(u: Upstreams, i: nat, k: nat) {
    exists j :: 0 <= j < k && (Good(u.outcome(Attempt(i, j))) || GivesUp(u.outcome(Attempt(i, j))))
  }

  /** No candidate before `i` answers, and the request can be put to every candidate up to `i`. */
  ghost predicate TurnComes(u: Upstreams, i: nat) {
    && (forall j | 0 <= j < i :: !Answers(u, j))
    && forall j | 0 <= j <= i :: u.outbound(j).None?
  }

  ghost predicate Made(u: Upstreams, a: Attempt) {
    && a.candidate < u.candidates && a.number < MAX_ATTEMPTS
    && TurnComes(u, a.candidate) && !StopsBefore(u, a.candidate, a.number)
  }

  predicate Before(a: Attempt, b: Attempt) {
    a.candidate < b.candidate || (a.candidate == b.candidate && a.number < b.number)
  }

  ghost predicate InOrder(tried: seq<Attempt>) {
    forall m, n | 0 <= m < n < |tried| :: Before(tried[m], tried[n])
  }

  /** `a` is not earlier than attempt `k` at candidate `i`. */
  predicate NotBefore(a: Attempt, i: nat, k: nat) {
    a.candidate > i || (a.candidate == i && a.number >= k)
  }

  lemma OneMore(u: Upstreams, i: nat, k: nat)
    requires !StopsBefore(u, i, k) && !Good(u.outcome(Attempt(i, k))) && !GivesUp(u.outcome(Attempt(i, k)))
    ensures !StopsBefore(u, i, k + 1)
  {
  }

  lemma NextTurn(u: Upstreams, i: nat)
    requires TurnComes(u, i) && !Answers(u, i) && u.outbound(i + 1).None?
    ensures TurnComes(u, i + 1)
  {
  }

  /** A turn that ended without a good answer. */
  lemma TurnEnds(u: Upstreams, i: nat, k: nat)
    requires k <= MAX_ATTEMPTS && !StopsBefore(u, i, k)
    requires k == MAX_ATTEMPTS || (!Good(u.outcome(Attempt(i, k))) && GivesUp(u.outcome(Attempt(i, k))))
    ensures !Answers(u, i)
    ensures forall m | k < m :: StopsBefore(u, i, m) || k == MAX_ATTEMPTS
  {
  }

  /** Everything from here on that can be made is made, in order, and nothing else. */
  ghost predicate Exact(u: Upstreams, tried: seq<Attempt>, i: nat, k: nat) {
    && InOrder(tried)
    && forall a :: a in tried <==> Made(u, a) && NotBefore(a, i, k)
  }

  lemma {:induction false} TrailIsExact(u: Upstreams, i: nat, k: nat)
    requires k <= MAX_ATTEMPTS
    requires i < u.candidates ==> (k == 0 && u.outbound(i).Some?) || (TurnComes(u, i) && !StopsBefore(u, i, k))
    ensures Exact(u, TrailFrom(u, i, k).0, i, k)
    decreases u.candidates - i, MAX_ATTEMPTS - k + 1
  {
    if i >= u.candidates || (k == 0 && u.outbound(i).Some?) {
      forall a | NotBefore(a, i, k)
        ensures !Made(u, a)
      {
      }
    } else if k == MAX_ATTEMPTS {
      TurnEnds(u, i, k);
      TurnOver(u, i);
      assert forall a :: Made(u, a) && NotBefore(a, i, k) <==> Made(u, a) && NotBefore(a, i + 1, 0);
    } else {
      var here := Attempt(i, k);
      assert Made(u, here);
      if Good(u.outcome(here)) {
        GoodEndsAll(u, i, k);
      } else if GivesUp(u.outcome(here)) {
        TurnEnds(u, i, k);
        TurnOver(u, i);
        ExtendExact(u, TrailFrom(u, i + 1, 0).0, i, k, i + 1, 0);
      } else {
        OneMore(u, i, k);
        TrailIsExact(u, i, k + 1);
        ExtendExact(u, TrailFrom(u, i, k + 1).0, i, k, i, k + 1);
      }
    }
  }

  lemma TurnOver(u: Upstreams, i: nat)
    requires i < u.candidates && TurnComes(u, i) && !Answers(u, i)
    ensures Exact(u, TrailFrom(u, i + 1, 0).0, i + 1, 0)
    decreases u.candidates - i, 0
  {
    if i + 1 < u.candidates && u.outbound(i + 1).None? {
      NextTurn(u, i);
    }
    TrailIsExact(u, i + 1, 0);
  }

  lemma GoodEndsAll(u: Upstreams, i: nat, k: nat)
    requires k < MAX_ATTEMPTS && Made(u, Attempt(i, k)) && Good(u.outcome(Attempt(i, k)))
    ensures Exact(u, [Attempt(i, k)], i, k)
  {
    assert Answers(u, i);
    forall a | Made(u, a) && NotBefore(a, i, k)
      ensures a == Attempt(i, k)
    {
      if a.candidate > i {
        assert false;
      }
    }
  }

  lemma ExtendExact(u: Upstreams, rest: seq<Attempt>, i: nat, k: nat, i1: nat, k1: nat)
    requires Exact(u, rest, i1, k1) && Made(u, Attempt(i, k))
    requires (i1, k1) == (i, k + 1) || ((i1, k1) == (i + 1, 0) && GivesUp(u.outcome(Attempt(i, k))))
    ensures Exact(u, [Attempt(i, k)] + rest, i, k)
  {
    var here := Attempt(i, k);
    forall a | Made(u, a) && NotBefore(a, i, k) && a != here
      ensures a in rest
    {
      assert NotBefore(a, i1, k1);
    }
    forall n | 0 <= n < |rest|
      ensures Before(here, rest[n])
    {
      assert rest[n] in rest;
    }
  }

  function WholeTrail(u: Upstreams): Trail {
    TrailFrom(u, 0, 0)
  }

  /** The attempts made are exactly those whose turn comes, candidate by candidate, three at most each. */
  lemma AttemptsAreExact(u: Upstreams)
    ensures InOrder(WholeTrail(u).0)
    ensures forall a :: a in WholeTrail(u).0 <==> Made(u, a)
  {
    if u.candidates > 0 && u.outbound(0).None? {
      assert TurnComes(u, 0);
    }
    TrailIsExact(u, 0, 0);
  }

  // ---- What is returned ----

  /** Only the very last attempt can be good, and a loop that was abandoned brought nothing good. */
  ghost predicate EndsWell(u: Upstreams, t: Trail) {
    forall n | 0 <= n < |t.0| && Good(u.outcome(t.0[n])) :: n == |t.0| - 1 && t.1.None?
  }

  lemma EndsWellAfter(u: Upstreams, a: Attempt, t: Trail)
    requires EndsWell(u, t) && !Good(u.outcome(a))
    ensures EndsWell(u, After([a], t))
  {
    assert forall n | 0 <= n < |t.0| :: ([a] + t.0)[n + 1] == t.0[n];
  }

  lemma {:induction false} GoodIsLast(u: Upstreams, i: nat, k: nat)
    requires k <= MAX_ATTEMPTS
    ensures EndsWell(u, TrailFrom(u, i, k))
    decreases u.candidates - i, MAX_ATTEMPTS - k
  {
    if i >= u.candidates || (k == 0 && u.outbound(i).Some?) {
    } else if k == MAX_ATTEMPTS {
      GoodIsLast(u, i + 1, 0);
    } else if !Good(u.outcome(Attempt(i, k))) {
      var (i1, k1) := if GivesUp(u.outcome(Attempt(i, k))) then (i + 1, 0) else (i, k + 1);
      GoodIsLast(u, i1, k1);
      EndsWellAfter(u, Attempt(i, k), TrailFrom(u, i1, k1));
    }
  }

  /** The last in order among the attempts of a kind. */
  ghost predicate IsLast(tried: seq<Attempt>, p: Attempt -> bool, a: Attempt) {
    a in tried && p(a) && forall b | b in tried && p(b) && b != a :: Before(b, a)
  }

  lemma {:induction false} LastWhereIsLast(tried: seq<Attempt>, p: Attempt -> bool)
    requires InOrder(tried)
    ensures LastWhere(tried, p).None? <==> forall a | a in tried :: !p(a)
    ensures LastWhere(tried, p).Some? ==> IsLast(tried, p, LastWhere(tried, p).value)
  {
    if tried != [] {
      var front, last := tried[..|tried| - 1], tried[|tried| - 1];
      assert tried == front + [last];
      LastWhereIsLast(front, p);
      if p(last) {
        forall b | b in tried && b != last
          ensures Before(b, last)
        {
          var n :| 0 <= n < |tried| && tried[n] == b;
        }
      }
    }
  }

  /** The outcome of an attempt that is made is good. */
  ghost predicate GoodAnswer(u: Upstreams, a: Attempt) {
    Made(u, a) && Good(u.outcome(a))
  }

  // ---- Candidates the request cannot be put to ----

  /** The request cannot be put to candidate `n`, and no candidate before it is in the way. */
  ghost predicate Unaddressable(u: Upstreams, n: nat) {
    && n < u.candidates && u.outbound(n).Some?
    && forall j | 0 <= j < n :: u.outbound(j).None? && !Answers(u, j)
  }

  lemma {:induction false} UnaddressableEnds(u: Upstreams, i: nat, k: nat, n: nat)
    requires k <= MAX_ATTEMPTS && Unaddressable(u, n) && i <= n
    requires if i == n then k == 0 else !StopsBefore(u, i, k)
    ensures TrailFrom(u, i, k).1 == u.outbound(n)
    decreases u.candidates - i, MAX_ATTEMPTS - k
  {
    if i < n {
      if k == MAX_ATTEMPTS {
        UnaddressableEnds(u, i + 1, 0, n);
      } else if GivesUp(u.outcome(Attempt(i, k))) {
        NotGoodBefore(u, i, k);
        UnaddressableEnds(u, i + 1, 0, n);
      } else {
        NotGoodBefore(u, i, k);
        OneMore(u, i, k);
        UnaddressableEnds(u, i, k + 1, n);
      }
    }
  }

  /** A candidate that does not answer has no good outcome before its turn stops. */
  lemma NotGoodBefore(u: Upstreams, i: nat, k: nat)
    requires k < MAX_ATTEMPTS && !Answers(u, i) && !StopsBefore(u, i, k)
    ensures !Good(u.outcome(Attempt(i, k)))
  {
  }

  lemma {:induction false} EndedByUnaddressable(u: Upstreams, i: nat, k: nat) returns (n: nat)
    requires k <= MAX_ATTEMPTS && TrailFrom(u, i, k).1.Some?
    requires forall j | 0 <= j < i :: u.outbound(j).None? && !Answers(u, j)
    requires k > 0 ==> u.outbound(i).None?
    requires !StopsBefore(u, i, k)
    ensures Unaddressable(u, n) && TrailFrom(u, i, k).1 == u.outbound(n)
    decreases u.candidates - i, MAX_ATTEMPTS - k
  {
    if k == 0 && u.outbound(i).Some? {
      n := i;
    } else if k == MAX_ATTEMPTS {
      TurnEnds(u, i, k);
      n := EndedByUnaddressable(u, i + 1, 0);
    } else if GivesUp(u.outcome(Attempt(i, k))) {
      TurnEnds(u, i, k);
      n := EndedByUnaddressable(u, i + 1, 0);
    } else {
      OneMore(u, i, k);
      n := EndedByUnaddressable(u, i, k + 1);
    }
  }

  /** The loop is abandoned exactly when its turn comes to a candidate the request cannot be put to. */
  lemma AbandonedIffUnaddressable(u: Upstreams)
    ensures WholeTrail(u).1.Some? <==> exists n :: Unaddressable(u, n)
    ensures forall n | Unaddressable(u, n) :: WholeTrail(u).1 == u.outbound(n)
  {
    forall n | Unaddressable(u, n)
      ensures WholeTrail(u).1 == u.outbound(n)
    {
      UnaddressableEnds(u, 0, 0, n);
    }
    if WholeTrail(u).1.Some? {
      var n := EndedByUnaddressable(u, 0, 0);
    }
  }

  /** Among the attempts made there is a response, good or not. */
  ghost predicate SomeResponse(u: Upstreams) {
    exists a :: Made(u, a) && u.outcome(a).Response?
  }

  /**
   A good answer, if an attempt brings one, is the one returned, and nothing is tried after it. Otherwise
   it is the last retryable response, and one is returned exactly when there is one and the turn never
   comes to a candidate the request cannot be put to: such a candidate makes its error the answer.
   */
  lemma FailoverReturnsFirstGoodAnswer(u: Upstreams)
    ensures
      var r := Verdict(u, WholeTrail(u));
      && (forall a | GoodAnswer(u, a) :: r == Ok(a) && forall b | Made(u, b) && b != a :: Before(b, a))
      && (r.Ok? <==> SomeResponse(u) && !exists n :: Unaddressable(u, n))
      && (r.Ok? ==> IsLast(WholeTrail(u).0, Answered(u), r.value))
      && (forall n | Unaddressable(u, n) :: r == Err(Untranslatable(u.outbound(n).value)))
  {
    AttemptsAreExact(u);
    AbandonedIffUnaddressable(u);
    GoodIsLast(u, 0, 0);
    var (tried, abandoned) := WholeTrail(u);
    LastWhereIsLast(tried, Answered(u));
    forall a | GoodAnswer(u, a)
      ensures Verdict(u, WholeTrail(u)) == Ok(a) && forall b | Made(u, b) && b != a :: Before(b, a)
    {
      var n :| 0 <= n < |tried| && tried[n] == a;
      assert n == |tried| - 1;
    }
  }

  /** Two candidates: the first is down, and the request cannot be put in the second one's dialect. */
  function DownThenUnaddressable(): Upstreams {
    Upstreams(2, i => if i == 1 then Some("x") else None, _ => Response(503, None))
  }

  /** Here a retryable response was left by the first candidate, and is lost to the second one's error. */
  lemma RetryableResponseIsLost()
    ensures
      var u := DownThenUnaddressable();
      && Made(u, Attempt(0, 2)) && u.outcome(Attempt(0, 2)) == Response(503, None)
      && Verdict(u, WholeTrail(u)) == Err(Untranslatable("x"))
  {
    var u := DownThenUnaddressable();
    forall k | 0 <= k < MAX_ATTEMPTS
      ensures !Good(u.outcome(Attempt(0, k))) && !GivesUp(u.outcome(Attempt(0, k)))
    {
    }
    assert TurnComes(u, 0) && !StopsBefore(u, 0, 2);
    assert Unaddressable(u, 1);
    FailoverReturnsFirstGoodAnswer(u);
  }

  /**
   Without a response at all, the last transport error is returned; without any attempt, that there is no
   provider.
   */
  lemma FailoverReturnsLastError(u: Upstreams)
    requires (forall n :: !Unaddressable(u, n)) && forall a | Made(u, a) :: u.outcome(a).Failed?
    ensures u.candidates == 0 ==> Verdict(u, WholeTrail(u)) == Err(NoProvider)
    ensures u.candidates > 0 ==>
      exists a ::
          IsLast(WholeTrail(u).0, Errored(u), a) && Verdict(u, WholeTrail(u)) == Err(Upstream(u.outcome(a).reason))
  {
    AttemptsAreExact(u);
    AbandonedIffUnaddressable(u);
    var (tried, abandoned) := WholeTrail(u);
    LastWhereIsLast(tried, Answered(u));
    LastWhereIsLast(tried, Errored(u));
    if u.candidates > 0 {
      assert !Unaddressable(u, 0);
      assert TurnComes(u, 0);
      assert Made(u, Attempt(0, 0));
      assert Errored(u)(Attempt(0, 0));
    }
  }

  // ---- How long it waits ----

  /** The wait before an attempt: what the one before was told, or the growing base delay. */
  function Delay(u: Upstreams, a: Attempt): nat {
    if a.number == 0 then 0
    else
      match RetryAfterOf(u.outcome(Attempt(a.candidate, a.number - 1)))
      case Some(d) => d
      case None => RETRY_BASE_DELAY * Power2(a.number - 1)
  }

  function Power2(n: nat): nat {
    if n == 0 then 1 else 2 * Power2(n - 1)
  }

  function Slept(u: Upstreams, tried: seq<Attempt>): nat {
    if tried == [] then 0 else Slept(u, tried[..|tried| - 1]) + Delay(u, tried[|tried| - 1])
  }

  lemma SleptStep(u: Upstreams, tried: seq<Attempt>, a: Attempt)
    ensures Slept(u, tried + [a]) == Slept(u, tried) + Delay(u, a)
  {
    assert (tried + [a])[..|tried|] == tried;
  }

  /** How many attempts went to candidate `i`. */
  function CountAt(tried: seq<Attempt>, i: nat): nat {
    if tried == [] then 0 else CountAt(tried[..|tried| - 1], i) + if tried[|tried| - 1].candidate == i then 1 else 0
  }

  /** How long candidate `i` was waited for. */
  function SleptAt(u: Upstreams, tried: seq<Attempt>, i: nat): nat {
    if tried == [] then 0
    else
      var last := tried[|tried| - 1];
      SleptAt(u, tried[..|tried| - 1], i) + if last.candidate == i then Delay(u, last) else 0
  }

  lemma OneMoreAt(u: Upstreams, front: seq<Attempt>, last: Attempt, i: nat)
    ensures CountAt(front + [last], i) == CountAt(front, i) + if last.candidate == i then 1 else 0
    ensures SleptAt(u, front + [last], i) == SleptAt(u, front, i) + if last.candidate == i then Delay(u, last) else 0
  {
    assert (front + [last])[..|front|] == front;
  }

  lemma WaitsAreShort(u: Upstreams, a: Attempt)
    requires Made(u, a)
    ensures ShortWait(u, a)
  {
    if a.number > 0 {
      assert a.number == 1 || a.number == 2;
      assert Power2(0) == 1 && Power2(1) == 2;
      assert !GivesUp(u.outcome(Attempt(a.candidate, a.number - 1)));
    }
  }

  /** What candidate `i` may cost when its attempts up to number `k` are behind. */
  function Allowance(k: nat): nat {
    if k == 0 then 0 else (k - 1) * MAX_RETRY_AFTER
  }

  predicate ShortWait(u: Upstreams, a: Attempt) {
    a.number < MAX_ATTEMPTS && Delay(u, a) <= if a.number == 0 then 0 else MAX_RETRY_AFTER
  }

  /** The first `k` numbers bound the candidate's attempts, and what they waited. */
  ghost predicate Waited(u: Upstreams, tried: seq<Attempt>, i: nat, k: nat) {
    && CountAt(tried, i) <= k <= MAX_ATTEMPTS && SleptAt(u, tried, i) <= Allowance(k)
    && (k > 0 ==> Attempt(i, k - 1) in tried)
  }

  lemma {:induction false} CandidateWaits(u: Upstreams, tried: seq<Attempt>, n: nat, i: nat) returns (k: nat)
    requires n <= |tried| && InOrder(tried) && forall m | 0 <= m < |tried| :: ShortWait(u, tried[m])
    ensures Waited(u, tried[..n], i, k)
  {
    if n == 0 {
      k := 0;
    } else {
      var before := CandidateWaits(u, tried, n - 1, i);
      var front, last := tried[..n - 1], tried[n - 1];
      assert tried[..n] == front + [last];
      assert forall m | 0 <= m < |front| :: front[m] == tried[m];
      k := WaitedStep(u, front, last, i, before);
    }
  }

  lemma WaitedStep(u: Upstreams, front: seq<Attempt>, last: Attempt, i: nat, before: nat) returns (k: nat)
    requires ShortWait(u, last) && Waited(u, front, i, before)
    requires forall m | 0 <= m < |front| :: Before(front[m], last)
    ensures Waited(u, front + [last], i, k)
  {
    OneMoreAt(u, front, last, i);
    k := before;
    if last.candidate == i {
      LastComesAfter(front, last, before);
      AllowanceGrows(before, last.number);
      k := last.number + 1;
    }
  }

  lemma LastComesAfter(front: seq<Attempt>, last: Attempt, k: nat)
    requires forall m | 0 <= m < |front| :: Before(front[m], last)
    requires k > 0 ==> Attempt(last.candidate, k - 1) in front
    ensures k <= last.number
  {
    if k > 0 {
      var m :| 0 <= m < |front| && front[m] == Attempt(last.candidate, k - 1);
    }
  }

  lemma AllowanceGrows(k: nat, n: nat)
    requires k <= n
    ensures Allowance(k) + (if n == 0 then 0 else MAX_RETRY_AFTER) <= Allowance(n + 1)
  {
  }

  /** No candidate is asked more than three times, nor waited for more than four seconds in all. */
  lemma FourSecondsPerCandidate(u: Upstreams, i: nat)
    ensures CountAt(WholeTrail(u).0, i) <= 3
    ensures SleptAt(u, WholeTrail(u).0, i) <= 4000
  {
    AttemptsAreExact(u);
    var tried := WholeTrail(u).0;
    forall m | 0 <= m < |tried| ensures ShortWait(u, tried[m]) { WaitsAreShort(u, tried[m]); }
    var k := CandidateWaits(u, tried, |tried|, i);
    assert tried[..|tried|] == tried;
    assert Allowance(k) <= Allowance(3);
  }

  /** The bound is met by a provider that asks for two seconds each time. */
  lemma FourSecondsCanBeNeeded(u: Upstreams)
    requires u.candidates == 1 && u.outbound(0).None?
    requires forall a :: u.outcome(a) == Response(TOO_MANY_REQUESTS, Some(2000))
    ensures WholeTrail(u).0 == [Attempt(0, 0), Attempt(0, 1), Attempt(0, 2)]
    ensures Slept(u, WholeTrail(u).0) == 4000
  {
    var first, second, third := Attempt(0, 0), Attempt(0, 1), Attempt(0, 2);
    TrailAdvances(u, [], 0, 0);
    TrailAdvances(u, [first], 0, 1);
    TrailAdvances(u, [first, second], 0, 2);
    assert TrailFrom(u, 0, 3) == TrailFrom(u, 1, 0) == ([], None);
    assert [] + WholeTrail(u).0 == WholeTrail(u).0;
    assert [] + [first] == [first] && [first] + [second] == [first, second];
    assert [first, second] + [third] == [first, second, third];
    ThreeWaits(u, first, second, third);
  }

  lemma ThreeWaits(u: Upstreams, first: Attempt, second: Attempt, third: Attempt)
    ensures Slept(u, [first, second, third]) == Delay(u, first) + Delay(u, second) + Delay(u, third)
  {
    SleptStep(u, [], first);
    SleptStep(u, [first], second);
    SleptStep(u, [first, second], third);
    assert [] + [first] == [first] && [first] + [second] == [first, second];
    assert [first, second] + [third] == [first, second, third];
  }

  lemma TrailAdvances(u: Upstreams, tried: seq<Attempt>, i: nat, k: nat)
    requires i < u.candidates && k < MAX_ATTEMPTS && (k == 0 ==> u.outbound(i).None?)
    ensures
      var (a, o) := (Attempt(i, k), u.outcome(Attempt(i, k)));
      After(tried, TrailFrom(u, i, k)) ==
        if Good(o) then (tried + [a], None)
        else if GivesUp(o) then After(tried + [a], TrailFrom(u, i + 1, 0))
        else After(tried + [a], TrailFrom(u, i, k + 1))
  {
    var a := Attempt(i, k);
    var rest := if GivesUp(u.outcome(a)) then TrailFrom(u, i + 1, 0).0 else TrailFrom(u, i, k + 1).0;
    assert tried + ([a] + rest) == tried + [a] + rest;
  }

  // ---- The loop as it runs ----

  /** What has been tried so far, and what the loop keeps of it. */
  ghost predicate Kept(
    u: Upstreams, tried: seq<Attempt>, fallback: Option<Attempt>, lastErr: Option<string>, slept: nat)
  {
    && fallback == LastWhere(tried, Answered(u))
    && lastErr == (match LastWhere(tried, Errored(u)) case None => None case Some(a) => ReasonOf(u.outcome(a)))
    && slept == Slept(u, tried)
  }

  function ReasonOf(o: Outcome): Option<string> {
    match o
    case Failed(reason) => Some(reason)
    case Response(_, _) => None
  }

  lemma KeepsOne(
    u: Upstreams, tried: seq<Attempt>, fallback: Option<Attempt>, lastErr: Option<string>, slept: nat, a: Attempt)
    requires Kept(u, tried, fallback, lastErr, slept)
    ensures u.outcome(a).Response? ==> Kept(u, tried + [a], Some(a), lastErr, slept + Delay(u, a))
    ensures u.outcome(a).Failed? ==> Kept(u, tried + [a], fallback, ReasonOf(u.outcome(a)), slept + Delay(u, a))
  {
    assert (tried + [a])[..|tried|] == tried;
    SleptStep(u, tried, a);
  }

  function ResultOf(reply: Option<Attempt>, lastErr: Option<string>): Result<Attempt, GatewayError> {
    match reply
    case Some(a) => Ok(a)
    case None => Err(if lastErr.Some? then Upstream(lastErr.value) else NoProvider)
  }

  lemma ServedVerdict(u: Upstreams, tried: seq<Attempt>, a: Attempt)
    ensures u.outcome(a).Response? ==> Verdict(u, (tried + [a], None)) == Ok(a)
  {
  }

  lemma KeptVerdict(
    u: Upstreams, tried: seq<Attempt>, fallback: Option<Attempt>, lastErr: Option<string>, slept: nat)
    requires Kept(u, tried, fallback, lastErr, slept)
    ensures Verdict(u, (tried, None)) == ResultOf(fallback, lastErr)
  {
    LastHolds(tried, Errored(u));
  }

  lemma {:induction false} LastHolds(tried: seq<Attempt>, p: Attempt -> bool)
    ensures LastWhere(tried, p).Some? ==> p(LastWhere(tried, p).value)
  {
    if tried != [] {
      LastHolds(tried[..|tried| - 1], p);
    }
  }

  /** What the loop carries from attempt to attempt. */
  datatype Progress = Progress(tried: seq<Attempt>, fallback: Option<Attempt>, lastErr: Option<string>, slept: nat)

  /** The loop has come to attempt `k` at candidate `i` without a good answer. */
  ghost predicate Underway(u: Upstreams, p: Progress, i: nat, k: nat)
    requires k <= MAX_ATTEMPTS
  {
    Kept(u, p.tried, p.fallback, p.lastErr, p.slept) && WholeTrail(u) == After(p.tried, TrailFrom(u, i, k))
  }

  /** The loop is over, with this result. */
  ghost predicate Over(u: Upstreams, p: Progress, r: Result<Attempt, GatewayError>) {
    p.tried == WholeTrail(u).0 && p.slept == Slept(u, p.tried) && r == Verdict(u, WholeTrail(u))
  }

  /** One more attempt, with what is kept of its outcome. */
  function Recorded(p: Progress, a: Attempt, o: Outcome, delay: nat): Progress {
    var (tried, slept) := (p.tried + [a], p.slept + delay);
    match o
    case Failed(reason) => Progress(tried, p.fallback, Some(reason), slept)
    case Response(status, _) => Progress(tried, if IsRetryable(status) then Some(a) else p.fallback, p.lastErr, slept)
  }

  lemma Advances(u: Upstreams, p: Progress, i: nat, k: nat)
    requires i < u.candidates && k < MAX_ATTEMPTS && (k == 0 ==> u.outbound(i).None?) && Underway(u, p, i, k)
    ensures
      var (a, o) := (Attempt(i, k), u.outcome(Attempt(i, k)));
      var after := Recorded(p, a, o, Delay(u, a));
      if Good(o) then Over(u, after, Ok(a))
      else if GivesUp(o) then Underway(u, after, i + 1, 0)
      else Underway(u, after, i, k + 1)
  {
    var a := Attempt(i, k);
    KeepsOne(u, p.tried, p.fallback, p.lastErr, p.slept, a);
    TrailAdvances(u, p.tried, i, k);
    ServedVerdict(u, p.tried, a);
  }

  /** The wait before attempt `k`, given what the attempt before it was told. */
  function WaitBefore(k: nat, retryAfter: Option<nat>): nat {
    if k == 0 then 0
    else if retryAfter.Some? then retryAfter.value
    else RETRY_BASE_DELAY * Power2(k - 1)
  }

  function ToldBefore(u: Upstreams, i: nat, k: nat): Option<nat> {
    if k == 0 then None else RetryAfterOf(u.outcome(Attempt(i, k - 1)))
  }

  lemma WaitIsDelay(u: Upstreams, i: nat, k: nat)
    ensures WaitBefore(k, ToldBefore(u, i, k)) == Delay(u, Attempt(i, k))
  {
  }

  /** One candidate's turn: a good answer, or the next candidate. */
  method TryCandidate(u: Upstreams, i: nat, before: Progress) returns (served: Option<Attempt>, p: Progress)
    requires i < u.candidates && u.outbound(i).None? && Underway(u, before, i, 0)
    ensures served.Some? ==> Over(u, p, Ok(served.value))
    ensures served.None? ==> Underway(u, p, i + 1, 0)
  {
    p := before;
    var retryAfter: Option<nat> := None;
    for k := 0 to MAX_ATTEMPTS
      invariant Underway(u, p, i, k) && retryAfter == ToldBefore(u, i, k)
    {
      var a := Attempt(i, k);
      Advances(u, p, i, k);
      WaitIsDelay(u, i, k);
      var o := u.outcome(a);
      p := Recorded(p, a, o, WaitBefore(k, retryAfter));
      if Good(o) {
        return Some(a), p;
      }
      if GivesUp(o) {
        return None, p;
      }
      retryAfter := RetryAfterOf(o);
    }
    served := None;
  }

  method Failover(u: Upstreams) returns (r: Result<Attempt, GatewayError>, p: Progress)
    ensures Over(u, p, r)
  {
    p := Progress([], None, None, 0);
    assert [] + WholeTrail(u).0 == WholeTrail(u).0;
    for i := 0 to u.candidates
      invariant Underway(u, p, i, 0)
    {
      if u.outbound(i).Some? {
        assert p.tried + [] == p.tried;
        return Err(Untranslatable(u.outbound(i).value)), p;
      }
      var served;
      served, p := TryCandidate(u, i, p);
      if served.Some? {
        return Ok(served.value), p;
      }
    }
    assert p.tried + [] == p.tried;
    KeptVerdict(u, p.tried, p.fallback, p.lastErr, p.slept);
    r := ResultOf(p.fallback, p.lastErr);
  }
}
