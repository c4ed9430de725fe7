/**
 The retry and degrade control flow of the LLM analysis task.

 A worker runs it; it returns a value, raises, or asks to be run again later with other keyword
 arguments.  What the outside world does in one execution (clock, cache, limiter, breaker, API, jitter)
 is an arbitrary `World`, so the theorems hold whatever it does.
 */
module LlmTask {
  import opened Options

  const MAX_FAILURE_RETRIES := 3

  /** Carried from one execution to the next. */
  datatype Kwargs = Kwargs(failureRetries: nat, deadline: Option<real>)

  const FIRST := Kwargs(0, None)

  datatype Limiter = Allowed | Wait(seconds: real)

  /** The API answered, or it or the recording of its success failed, which left the breaker open or not. */
  datatype Api = Answer | Error(breakerOpens: bool)

  /** Where Redis raises, if anywhere; a cache that cannot be read counts as a miss. */
  datatype Redis = Works | LimiterRaises | BreakerRaises | RecordRaises

  datatype World = World(
    now: real,
    cached: bool,
    limiter: Limiter,
    jitter: real,
    noQuota: bool,        // the configured rate is zero or less
    breakerAllows: bool,
    api: Api,
    injected: bool,       // the failure was injected by a test setting
    quickRetries: bool,   // retry delays scaled down by a test setting
    direct: bool,         // called directly, not from the queue
    redis: Redis)

  datatype Value = FromCache | Analyzed | DegradedWait | DegradedBreaker | DegradedApi

  datatype Outcome = Return(value: Value) | Retry(delay: real, next: Kwargs) | Raise

  function MaxReal(a: real, b: real): real {
    if a >= b then a else b
  }

  /** To two decimals. */
  function Round2(x: real): real {
    (x * 100.0 + 0.5).Floor as real / 100.0
  }

  function Backoff(retries: nat, quick: bool): real {
    if quick then 1.0 else if retries == 0 then 2.0 else if retries == 1 then 6.0 else 18.0
  }

  function RetryDelay(w: World): real
    requires w.limiter.Wait?
  {
    Round2(MaxReal(1.0, w.limiter.seconds + w.jitter))
  }

  function Deadline(timeout: real, k: Kwargs, now: real): real {
    if k.deadline.Some? then k.deadline.value else now + timeout
  }

  predicate CallsApi(w: World) {
    !w.cached && !w.redis.LimiterRaises? && w.limiter.Allowed? && !w.redis.BreakerRaises? && w.breakerAllows
  }

  /** An exception from Redis reaches the queue. */
  predicate RedisFails(w: World) {
    || (!w.cached && w.redis.LimiterRaises?)
    || (!w.cached && w.limiter.Allowed? && w.redis.BreakerRaises?)
    || (CallsApi(w) && w.api.Error? && w.redis.RecordRaises?)
  }

  // ----- What one execution answers -----

  predicate LimiterAnswers(w: World) {
    !w.cached && !w.redis.LimiterRaises?
  }

  /** The limiter asks to wait, and then the wait fits before the deadline or not. */
  ghost predicate MustWait(w: World) {
    LimiterAnswers(w) && w.limiter.Wait?
  }

  predicate BreakerAnswers(w: World) {
    LimiterAnswers(w) && w.limiter.Allowed? && !w.redis.BreakerRaises?
  }

  /** The API was called and failed, and the breaker took note. */
  predicate FailureRecorded(w: World) {
    BreakerAnswers(w) && w.breakerAllows && w.api.Error? && !w.redis.RecordRaises?
  }

  /** A failed call may be made again: the third attempt after it is the last, and none follows while the
      breaker is open, for an injected failure or in a direct call. */
  predicate MayTryAgain(k: Kwargs, w: World)
    requires w.api.Error?
  {
    k.failureRetries <= 2 && !w.api.breakerOpens && !w.injected && !w.direct
  }

  /** `d` is `x` to two decimals. */
  ghost predicate IsRounded(d: real, x: real) {
    (d * 100.0).Floor as real == d * 100.0 && x - 0.005 < d <= x + 0.005
  }

  ghost predicate WaitOf(w: World, d: real)
    requires w.limiter.Wait?
  {
    IsRounded(d, if w.limiter.seconds + w.jitter >= 1.0 then w.limiter.seconds + w.jitter else 1.0)
  }

  /** When this wait has to be over: at the deadline carried along, else a timeout from now. */
  ghost predicate Fits(timeout: real, k: Kwargs, w: World, d: real) {
    !w.noQuota && w.now + d <= if k.deadline.Some? then k.deadline.value else w.now + timeout
  }

  /** Which answer an execution gives, case by case. */
  ghost predicate Answers(timeout: real, k: Kwargs, w: World, o: Outcome) {
    && (o == Return(FromCache) <==> w.cached)
    && (o == Return(DegradedWait) <==> MustWait(w) && forall d | WaitOf(w, d) :: !Fits(timeout, k, w, d))
    && (o == Return(DegradedBreaker) <==> BreakerAnswers(w) && !w.breakerAllows)
    && (o == Return(Analyzed) <==> BreakerAnswers(w) && w.breakerAllows && w.api.Answer?)
    && (o == Return(DegradedApi) <==> FailureRecorded(w) && !MayTryAgain(k, w))
    && (o.Retry? ==>
          if MustWait(w) then
            && WaitOf(w, o.delay) && Fits(timeout, k, w, o.delay)
            && o.next == Kwargs(k.failureRetries, Some(if k.deadline.Some? then k.deadline.value else w.now + timeout))
          else
            && FailureRecorded(w) && MayTryAgain(k, w)
            && o.delay == (if w.quickRetries then 1.0 else [2.0, 6.0, 18.0][k.failureRetries])
            && o.next == Kwargs(k.failureRetries + 1, None))
    && (o.Raise? ==>
          || (!w.cached && w.redis.LimiterRaises?)
          || (LimiterAnswers(w) && w.limiter.Allowed? && w.redis.BreakerRaises?)
          || (BreakerAnswers(w) && w.breakerAllows && w.api.Error? && w.redis.RecordRaises?))
  }

  lemma OneRounding(a: real, b: real, x: real)
    requires IsRounded(a, x) && IsRounded(b, x)
    ensures a == b
  {
    var m, n := (a * 100.0).Floor, (b * 100.0).Floor;
    assert a * 100.0 == m as real && b * 100.0 == n as real;
    Hundredths(a, x);
    Hundredths(b, x);
    assert (m - n) as real == m as real - n as real;
  }

  lemma Hundredths(d: real, x: real)
    requires x - 0.005 < d <= x + 0.005
    ensures x * 100.0 - 0.5 < d * 100.0 <= x * 100.0 + 0.5
  {
  }

  lemma RoundIsClose(x: real)
    ensures IsRounded(Round2(x), x)
  {
    var n := (x * 100.0 + 0.5).Floor;
    assert Round2(x) * 100.0 == n as real;
  }

  /** The wait the limiter asks for, as one number. */
  lemma WaitIsDelay(w: World)
    requires w.limiter.Wait?
    ensures forall d :: WaitOf(w, d) <==> d == RetryDelay(w)
  {
    hide Round2, IsRounded;
    var x := MaxReal(1.0, w.limiter.seconds + w.jitter);
    RoundIsClose(x);
    forall d | WaitOf(w, d) ensures d == RetryDelay(w) {
      OneRounding(d, Round2(x), x);
    }
  }

  lemma ExecutionAnswers(timeout: real, k: Kwargs, w: World)
    ensures Answers(timeout, k, w, OutcomeOf(timeout, k, w))
  {
    if w.limiter.Wait? {
      WaitIsDelay(w);
      assert WaitOf(w, RetryDelay(w));
    }
    hide WaitOf, RetryDelay;
  }

  /** Those cases leave exactly one answer, the one the execution gives. */
  lemma AnswerExactlyWhen(timeout: real, k: Kwargs, w: World, o: Outcome)
    ensures Answers(timeout, k, w, o) <==> o == OutcomeOf(timeout, k, w)
  {
    ExecutionAnswers(timeout, k, w);
    if Answers(timeout, k, w, o) {
      if w.limiter.Wait? {
        WaitIsDelay(w);
        assert WaitOf(w, RetryDelay(w));
      }
      hide WaitOf, RetryDelay;
      if o.Return? {
        assert o == Return(o.value);
        match o.value {
          case FromCache =>
          case Analyzed =>
          case DegradedWait =>
          case DegradedBreaker =>
          case DegradedApi =>
        }
      }
    }
  }

  /** One execution of `analyze_llm`.  A retry is asked for at least a second later, uses up budget, and
      either counts a failure of the API or still starts before the deadline it carries on. */
  method Execute(timeout: real, k: Kwargs, w: World) returns (o: Outcome)
    ensures o == OutcomeOf(timeout, k, w) && Answers(timeout, k, w, o)
    ensures o.Raise? <==> RedisFails(w)
    ensures o.Retry? ==> o.delay >= 1.0
    ensures o.Retry? && k.failureRetries <= MAX_FAILURE_RETRIES ==>
              && o.next.failureRetries <= MAX_FAILURE_RETRIES
              && ExecutionsLeft(timeout, o.next, w.now + o.delay) < ExecutionsLeft(timeout, k, w.now)
  {
    hide Answers;
    ExecutionAnswers(timeout, k, w);
    if w.cached {
      return Return(FromCache);
    }
    if w.redis.LimiterRaises? {
      return Raise;
    }
    if w.limiter.Wait? {
      var effectiveDeadline := if k.deadline.Some? then k.deadline.value else w.now + timeout;
      var retryDelay := Round2(MaxReal(1.0, w.limiter.seconds + w.jitter));
      if w.noQuota || w.now + retryDelay > effectiveDeadline {
        return Return(DegradedWait);
      }
      RoundKeepsOneSecond(MaxReal(1.0, w.limiter.seconds + w.jitter));
      if k.failureRetries <= MAX_FAILURE_RETRIES {
        RetryUsesBudget(timeout, k, w, w.now + retryDelay);
      }
      return Retry(retryDelay, Kwargs(k.failureRetries, Some(effectiveDeadline)));
    }
    if w.redis.BreakerRaises? {
      return Raise;
    }
    if !w.breakerAllows {
      return Return(DegradedBreaker);
    }
    if w.api.Error? {
      if w.redis.RecordRaises? {
        return Raise;
      }
      if k.failureRetries < MAX_FAILURE_RETRIES && !w.api.breakerOpens && !w.injected && !w.direct {
        var delay := Backoff(k.failureRetries, w.quickRetries);
        RetryUsesBudget(timeout, k, w, w.now + delay);
        return Retry(delay, Kwargs(k.failureRetries + 1, None));
      }
      return Return(DegradedApi);
    }
    return Return(Analyzed);
  }

  function OutcomeOf(timeout: real, k: Kwargs, w: World): Outcome {
    if w.cached then Return(FromCache)
    else if w.redis.LimiterRaises? then Raise
    else match w.limiter
      case Wait(_) =>
        if w.noQuota || w.now + RetryDelay(w) > Deadline(timeout, k, w.now) then Return(DegradedWait)
        else Retry(RetryDelay(w), Kwargs(k.failureRetries, Some(Deadline(timeout, k, w.now))))
      case Allowed =>
        if w.redis.BreakerRaises? then Raise
        else if !w.breakerAllows then Return(DegradedBreaker)
        else match w.api
          case Answer => Return(Analyzed)
          case Error(opens) =>
            if w.redis.RecordRaises? then Raise
            else if k.failureRetries < MAX_FAILURE_RETRIES && !opens && !w.injected && !w.direct
            then Retry(Backoff(k.failureRetries, w.quickRetries), Kwargs(k.failureRetries + 1, None))
            else Return(DegradedApi)
  }

  // ----- Chains of executions -----

  datatype Execution = Execution(k: Kwargs, w: World)

  /** Each execution but the last asked for the next one, which started no sooner than asked. */
  ghost predicate Chain(timeout: real, xs: seq<Execution>, k: Kwargs, notBefore: real) {
    xs != [] ==>
      && xs[0].k == k
      && xs[0].w.now >= notBefore
      && (|xs| > 1 ==>
            var o := OutcomeOf(timeout, k, xs[0].w);
            o.Retry? && Chain(timeout, xs[1..], o.next, xs[0].w.now + o.delay))
  }

  function ClampedFloor(x: real): nat {
    if x < 0.0 then 0 else x.Floor
  }

  /** Rate-limit retries that still fit before the deadline, at one second each. */
  function WaitsLeft(timeout: real, k: Kwargs, now: real): nat {
    ClampedFloor(Deadline(timeout, k, now) - now)
  }

  /** Executions that may still happen, the one starting at `now` included. */
  function ExecutionsLeft(timeout: real, k: Kwargs, now: real): nat
    requires k.failureRetries <= MAX_FAILURE_RETRIES
  {
    (MAX_FAILURE_RETRIES - k.failureRetries) * (ClampedFloor(timeout) + 1) + WaitsLeft(timeout, k, now) + 1
  }

  lemma RoundKeepsOneSecond(x: real)
    requires x >= 1.0
    ensures Round2(x) >= 1.0
  {
    assert (x * 100.0 + 0.5).Floor >= 100;
  }

  lemma FloorDrops(x: real, y: real)
    requires x <= y - 1.0
    ensures y >= 1.0 ==> ClampedFloor(x) + 1 <= ClampedFloor(y)
    ensures ClampedFloor(x) <= ClampedFloor(y)
  {
  }

  /** A retry uses up a failure, which resets the deadline, or at least a second of the wait. */
  lemma RetryUsesBudget(timeout: real, k: Kwargs, w: World, later: real)
    requires k.failureRetries <= MAX_FAILURE_RETRIES
    requires OutcomeOf(timeout, k, w).Retry? && later >= w.now + OutcomeOf(timeout, k, w).delay
    ensures var next := OutcomeOf(timeout, k, w).next;
            && next.failureRetries <= MAX_FAILURE_RETRIES
            && OutcomeOf(timeout, k, w).delay >= 1.0
            && ExecutionsLeft(timeout, next, later) < ExecutionsLeft(timeout, k, w.now)
            && (CallsApi(w) ==> next.failureRetries == k.failureRetries + 1)
            && (!CallsApi(w) ==> next.failureRetries == k.failureRetries)
  {
    var next, full := OutcomeOf(timeout, k, w).next, ClampedFloor(timeout) + 1;
    if w.limiter.Wait? {
      hide Round2;
      RoundKeepsOneSecond(MaxReal(1.0, w.limiter.seconds + w.jitter));
      var deadline := Deadline(timeout, k, w.now);
      FloorDrops(deadline - later, deadline - w.now);
      assert Deadline(timeout, next, later) == deadline;
    } else {
      assert WaitsLeft(timeout, next, later) == ClampedFloor(timeout);
      assert (MAX_FAILURE_RETRIES - k.failureRetries) * full
          == (MAX_FAILURE_RETRIES - next.failureRetries) * full + full;
    }
  }

  lemma LaterHasLessLeft(timeout: real, k: Kwargs, sooner: real, later: real)
    requires k.failureRetries <= MAX_FAILURE_RETRIES && sooner <= later
    ensures ExecutionsLeft(timeout, k, later) <= ExecutionsLeft(timeout, k, sooner)
  {
    if k.deadline.Some? {
      var d := k.deadline.value;
      assert ClampedFloor(d - later) <= ClampedFloor(d - sooner);
    }
  }

  /** A chain is never longer than the budget it starts with. */
  lemma {:induction false} ChainIsBounded(timeout: real, xs: seq<Execution>, k: Kwargs, start: real)
    requires k.failureRetries <= MAX_FAILURE_RETRIES && Chain(timeout, xs, k, start)
    ensures |xs| <= ExecutionsLeft(timeout, k, start)
    decreases |xs|
  {
    hide OutcomeOf, ExecutionsLeft;
    if xs != [] {
      var w := xs[0].w;
      LaterHasLessLeft(timeout, k, start, w.now);
      if |xs| > 1 {
        var o := OutcomeOf(timeout, k, w);
        RetryUsesBudget(timeout, k, w, w.now + o.delay);
        ChainIsBounded(timeout, xs[1..], o.next, w.now + o.delay);
      }
      assert ExecutionsLeft(timeout, k, w.now) >= 1 by { AtLeastOne(timeout, k, w.now); }
    }
  }

  lemma AtLeastOne(timeout: real, k: Kwargs, now: real)
    requires k.failureRetries <= MAX_FAILURE_RETRIES
    ensures ExecutionsLeft(timeout, k, now) >= 1
  {
  }

  function ApiCalls(xs: seq<Execution>): nat {
    if xs == [] then 0 else (if CallsApi(xs[0].w) then 1 else 0) + ApiCalls(xs[1..])
  }

  lemma {:induction false} ApiCallsAreBounded(timeout: real, xs: seq<Execution>, k: Kwargs, start: real)
    requires k.failureRetries <= MAX_FAILURE_RETRIES && Chain(timeout, xs, k, start)
    ensures ApiCalls(xs) <= MAX_FAILURE_RETRIES - k.failureRetries + 1
    decreases |xs|
  {
    hide OutcomeOf, ExecutionsLeft;
    if |xs| > 1 {
      var o := OutcomeOf(timeout, k, xs[0].w);
      RetryUsesBudget(timeout, k, xs[0].w, xs[0].w.now + o.delay);
      ApiCallsAreBounded(timeout, xs[1..], o.next, xs[0].w.now + o.delay);
    } else if |xs| == 1 {
      assert ApiCalls(xs[1..]) == 0;
    }
  }

  /** From its first execution `analyze_llm` runs at most 4 * (floor(timeout) + 1) times and calls the API at
      most four times, whatever the world does. */
  lemma TaskIsBounded(timeout: real, xs: seq<Execution>, start: real)
    requires Chain(timeout, xs, FIRST, start)
    ensures |xs| <= 4 * (ClampedFloor(timeout) + 1)
    ensures ApiCalls(xs) <= 4
  {
    ChainIsBounded(timeout, xs, FIRST, start);
    ApiCallsAreBounded(timeout, xs, FIRST, start);
  }

  // ----- The bound is reached -----

  const REFUSED := World(0.0, false, Wait(0.5), 0.5, false, true, Answer, false, false, false, Works)
  const FAILING := World(0.0, false, Allowed, 0.5, false, true, Error(false), false, false, false, Works)

  /** Some world makes `analyze_llm` use its whole budget: it waits one second at a time as long as the
      deadline allows, then fails, and starts again. */
  lemma {:induction false} BudgetIsReached(timeout: real, k: Kwargs, now: real) returns (xs: seq<Execution>)
    requires k.failureRetries <= MAX_FAILURE_RETRIES
    ensures Chain(timeout, xs, k, now) && |xs| == ExecutionsLeft(timeout, k, now)
    decreases ExecutionsLeft(timeout, k, now)
  {
    var refused, failing := REFUSED.(now := now), FAILING.(now := now);
    if WaitsLeft(timeout, k, now) >= 1 {
      assert RetryDelay(refused) == 1.0;
      var o := OutcomeOf(timeout, k, refused);
      assert o == Retry(1.0, Kwargs(k.failureRetries, Some(Deadline(timeout, k, now))));
      OneSecondLess(timeout, k, now);
      var rest := BudgetIsReached(timeout, o.next, now + 1.0);
      xs := [Execution(k, refused)] + rest;
      assert xs[1..] == rest;
    } else if k.failureRetries < MAX_FAILURE_RETRIES {
      var o := OutcomeOf(timeout, k, failing);
      RetryUsesBudget(timeout, k, failing, now + o.delay);
      FailureStartsOver(timeout, k, now, now + o.delay);
      var rest := BudgetIsReached(timeout, o.next, now + o.delay);
      xs := [Execution(k, failing)] + rest;
      assert xs[1..] == rest;
    } else {
      xs := [Execution(k, failing)];
    }
  }

  lemma OneSecondLess(timeout: real, k: Kwargs, now: real)
    requires k.failureRetries <= MAX_FAILURE_RETRIES && WaitsLeft(timeout, k, now) >= 1
    ensures ExecutionsLeft(timeout, Kwargs(k.failureRetries, Some(Deadline(timeout, k, now))), now + 1.0) + 1
         == ExecutionsLeft(timeout, k, now)
  {
    var left := Deadline(timeout, k, now) - now;
    assert (left - 1.0).Floor == left.Floor - 1;
  }

  lemma FailureStartsOver(timeout: real, k: Kwargs, now: real, later: real)
    requires k.failureRetries < MAX_FAILURE_RETRIES && WaitsLeft(timeout, k, now) == 0
    ensures ExecutionsLeft(timeout, Kwargs(k.failureRetries + 1, None), later) + 1 == ExecutionsLeft(timeout, k, now)
  {
    var full := ClampedFloor(timeout) + 1;
    var left := MAX_FAILURE_RETRIES - k.failureRetries;
    assert left * full == (left - 1) * full + full;
  }

  lemma TaskBoundIsTight(timeout: real)
    ensures exists xs :: Chain(timeout, xs, FIRST, 0.0) && |xs| == 4 * (ClampedFloor(timeout) + 1)
  {
    var xs := BudgetIsReached(timeout, FIRST, 0.0);
  }

  // ----- Running it to its end -----

  /** The earliest start this execution asked for. */
  function AskedBy(timeout: real, x: Execution): real {
    var o := OutcomeOf(timeout, x.k, x.w);
    x.w.now + if o.Retry? then o.delay else 0.0
  }

  /** When the i-th execution was asked to start. */
  function StartOf(timeout: real, xs: seq<Execution>, i: nat): real
    requires i <= |xs|
  {
    if i == 0 then 0.0 else AskedBy(timeout, xs[i - 1])
  }

  /** Each execution met the world that was there when it was asked to start. */
  ghost predicate Meets(timeout: real, xs: seq<Execution>, world: (nat, real) -> World) {
    forall i :: 0 <= i < |xs| ==> xs[i].w == world(i, StartOf(timeout, xs, i))
  }

  lemma {:induction false} ChainExtends(timeout: real, xs: seq<Execution>, k: Kwargs, start: real, x: Execution)
    requires Chain(timeout, xs, k, start) && xs != []
    requires var last := xs[|xs| - 1];
             var o := OutcomeOf(timeout, last.k, last.w);
             o.Retry? && x.k == o.next && x.w.now >= last.w.now + o.delay
    ensures Chain(timeout, xs + [x], k, start)
    decreases |xs|
  {
    hide OutcomeOf;
    var all := xs + [x];
    if |xs| == 1 {
      assert all[1..] == [x];
      assert [x][1..] == [];
    } else {
      var o := OutcomeOf(timeout, k, xs[0].w);
      ChainExtends(timeout, xs[1..], o.next, xs[0].w.now + o.delay, x);
      assert all[1..] == xs[1..] + [x];
    }
  }

  lemma StartIsEarlier(timeout: real, xs: seq<Execution>, x: Execution, i: nat)
    requires i <= |xs|
    ensures StartOf(timeout, xs + [x], i) == StartOf(timeout, xs, i)
  {
    hide AskedBy;
  }

  lemma {:induction false} MeetsExtends(timeout: real, xs: seq<Execution>, world: (nat, real) -> World, x: Execution)
    requires Meets(timeout, xs, world)
    requires x.w == world(|xs|, StartOf(timeout, xs, |xs|))
    ensures Meets(timeout, xs + [x], world)
  {
    var all := xs + [x];
    forall i | 0 <= i < |all| ensures all[i].w == world(i, StartOf(timeout, all, i)) {
      StartIsEarlier(timeout, xs, x, i);
      hide StartOf;
      assert i < |xs| ==> all[i] == xs[i];
    }
  }

  /** What the queue does: run `analyze_llm` again after each retry.  `world(i, t)` is the world of the i-th
      execution when it is asked to start no sooner than `t`.  The executions form a chain through those
      worlds that ends within the bound, with the value that the last of them returned, or with an exception
      exactly if Redis failed it. */
  method RunToTheEnd(timeout: real, world: (nat, real) -> World)
    returns (o: Outcome, executions: nat, ghost xs: seq<Execution>)
    requires forall i: nat, t :: world(i, t).now >= t
    ensures executions == |xs| && 0 < executions <= 4 * (ClampedFloor(timeout) + 1)
    ensures Chain(timeout, xs, FIRST, 0.0) && Meets(timeout, xs, world)
    ensures o == OutcomeOf(timeout, xs[|xs| - 1].k, xs[|xs| - 1].w)
    ensures Answers(timeout, xs[|xs| - 1].k, xs[|xs| - 1].w, o)
    ensures if RedisFails(xs[|xs| - 1].w) then o.Raise? else o.Return?
  {
    hide OutcomeOf, ExecutionsLeft, Answers;
    var k := FIRST;
    executions, xs := 0, [];
    var start := 0.0;
    while true
      invariant executions == |xs| && k.failureRetries <= MAX_FAILURE_RETRIES
      invariant Chain(timeout, xs, FIRST, 0.0) && Meets(timeout, xs, world)
      invariant xs == [] ==> k == FIRST && start == 0.0
      invariant xs != [] ==>
                  var last := xs[|xs| - 1];
                  OutcomeOf(timeout, last.k, last.w) == Retry(start - last.w.now, k)
      decreases ExecutionsLeft(timeout, k, start)
    {
      var w := world(executions, start);
      LaterHasLessLeft(timeout, k, start, w.now);
      MeetsExtends(timeout, xs, world, Execution(k, w));
      if xs != [] {
        ChainExtends(timeout, xs, FIRST, 0.0, Execution(k, w));
      }
      xs := xs + [Execution(k, w)];
      executions := executions + 1;
      TaskIsBounded(timeout, xs, 0.0);
      o := Execute(timeout, k, w);
      if !o.Retry? {
        return;
      }
      start := w.now + o.delay;
      k := o.next;
    }
  }
}
