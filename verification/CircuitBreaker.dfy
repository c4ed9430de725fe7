/**
 The distributed circuit breaker: three atomic scripts over four Redis keys.

 Each script call of each worker is one event.  A run is any sequence of events whose clock does not
 go back, so the theorems hold for every interleaving of any number of workers.
 */
module CircuitBreaker {
  import opened Options

  const FAILURE_THRESHOLD := 5
  const FAILURE_WINDOW := 60.0
  const RECOVERY_TIMEOUT := 30.0

  /** Lifetime of the probe slot, in seconds. */
  const PROBE_TTL := 60.0

  datatype Config = Config(threshold: int, window: real, recovery: real)

  datatype Mode = Closed | Open | HalfOpen

  datatype Counter = Counter(count: int, expiresAt: real)

  /** `probe` holds the instant the probe key disappears. */
  datatype Keys = Keys(state: Option<Mode>, openedAt: Option<real>, failures: Option<Counter>, probe: Option<real>)

  datatype Op = CanExecute | Success | Failure | Reset

  datatype Event = Event(op: Op, now: real)

  const EMPTY := Keys(None, None, None, None)

  /** An absent state key reads as CLOSED in every script. */
  function ModeOf(k: Keys): Mode {
    if k.state.Some? then k.state.value else Closed
  }

  function Ceil(x: real): int {
    -(-x).Floor
  }

  function LiveCount(k: Keys, now: real): int {
    if k.failures.Some? && now < k.failures.value.expiresAt then k.failures.value.count else 0
  }

  predicate ProbeTaken(k: Keys, now: real) {
    k.probe.Some? && now < k.probe.value
  }

  /** How long the breaker has been open; a missing key counts from the epoch. */
  function OpenFor(k: Keys, now: real): real {
    now - if k.openedAt.Some? then k.openedAt.value else 0.0
  }

  /** Does `can_execute` let the caller through? */
  predicate Grants(cfg: Config, k: Keys, now: real) {
    match ModeOf(k)
    case Closed => true
    case Open => OpenFor(k, now) >= cfg.recovery
    case HalfOpen => !ProbeTaken(k, now)
  }

  /** `get` on a missing key gives Lua's false, not nil: the script then reaches its last line and
      stores nothing. */
  function AfterCanExecute(cfg: Config, k: Keys, now: real): Keys {
    if ModeOf(k).Closed? || !Grants(cfg, k, now) then k
    else k.(state := Some(HalfOpen), probe := Some(now + PROBE_TTL))
  }

  function AfterSuccess(k: Keys): Keys {
    if ModeOf(k).HalfOpen? then Keys(Some(Closed), None, None, None) else k.(failures := None)
  }

  /** The failure counter after INCR, and EXPIRE when this is the first of a window. */
  function Counted(cfg: Config, k: Keys, now: real): Counter {
    var count := LiveCount(k, now) + 1;
    if count == 1 then Counter(1, now + Ceil(cfg.window) as real)
    else Counter(count, k.failures.value.expiresAt)
  }

  /** This failure opens the breaker, or opens it afresh. */
  predicate Trips(cfg: Config, k: Keys, now: real) {
    ModeOf(k).HalfOpen? || LiveCount(k, now) + 1 >= cfg.threshold
  }

  function AfterFailure(cfg: Config, k: Keys, now: real): Keys {
    if Trips(cfg, k, now) then Keys(Some(Open), Some(now), None, None)
    else k.(failures := Some(Counted(cfg, k, now)))
  }

  function Step(cfg: Config, k: Keys, e: Event): Keys {
    match e.op
    case CanExecute => AfterCanExecute(cfg, k, e.now)
    case Success => AfterSuccess(k)
    case Failure => AfterFailure(cfg, k, e.now)
    case Reset => EMPTY
  }

  class CircuitBreaker {
    const cfg: Config
    var state: Option<Mode>
    var openedAt: Option<real>
    var failures: Option<Counter>
    var probe: Option<real>

    /** Attaches to the shared keys as they stand, and changes none of them. */
    constructor (threshold: int, window: real, recovery: real, shared: Keys)
      ensures cfg == Config(threshold, window, recovery) && Stored() == shared
    {
      cfg := Config(threshold, window, recovery);
      state, openedAt, failures, probe := shared.state, shared.openedAt, shared.failures, shared.probe;
    }

    function Stored(): Keys
      reads this
    {
      Keys(state, openedAt, failures, probe)
    }

    /** A closed breaker lets everyone through, an open one the first caller after the recovery time, and a
        half-open one a caller that finds the probe slot free; the last two take the slot. */
    method TryExecute(now: real) returns (allowed: bool, mode: Mode)
      modifies this
      ensures Stored() == Step(cfg, old(Stored()), Event(CanExecute, now))
      ensures allowed <==> Grants(cfg, old(Stored()), now)
      ensures mode == ModeOf(Stored())
      ensures old(state) == Some(Open) ==>
                (allowed <==> now - (if old(openedAt).Some? then old(openedAt).value else 0.0) >= cfg.recovery)
      ensures old(state) == Some(HalfOpen) ==>
                (allowed <==> old(probe).None? || old(probe).value <= now)
      ensures old(state) !in {Some(Open), Some(HalfOpen)} ==> allowed && mode == Closed
      ensures !allowed || mode == Closed ==> Stored() == old(Stored())
      ensures allowed && mode != Closed ==>
                Stored() == Keys(Some(HalfOpen), old(openedAt), old(failures), Some(now + PROBE_TTL))
    {
      if state == Some(Closed) {
        return true, Closed;
      } else if state == Some(Open) {
        var since := if openedAt.Some? then openedAt.value else 0.0;
        if now - since >= cfg.recovery {
          state := Some(HalfOpen);
          probe := Some(now + PROBE_TTL);
          return true, HalfOpen;
        } else {
          return false, Open;
        }
      } else if state == Some(HalfOpen) {
        var claimed := probe.None? || probe.value <= now;
        if claimed {
          probe := Some(now + PROBE_TTL);
          return true, HalfOpen;
        } else {
          return false, HalfOpen;
        }
      }
      return true, Closed;
    }

    /** The reply is always CLOSED, which is the stored mode exactly when the breaker was not OPEN. */
    method RecordSuccess(now: real) returns (reply: Mode)
      modifies this
      ensures Stored() == Step(cfg, old(Stored()), Event(Success, now))
      ensures reply == Closed
      ensures ModeOf(Stored()) == Closed <==> old(ModeOf(Stored())) != Open
      ensures old(state) == Some(HalfOpen) ==> Stored() == Keys(Some(Closed), None, None, None)
      ensures old(state) != Some(HalfOpen) ==> Stored() == Keys(old(state), old(openedAt), None, old(probe))
    {
      if state == Some(HalfOpen) {
        state := Some(Closed);
        openedAt, failures, probe := None, None, None;
      } else {
        failures := None;
      }
      return Closed;
    }

    /** A failed probe opens the breaker at once; otherwise the failure joins the running count, or starts one,
        and opens the breaker when the count is full. */
    method RecordFailure(now: real) returns (reply: Mode)
      modifies this
      ensures Stored() == Step(cfg, old(Stored()), Event(Failure, now))
      ensures reply == ModeOf(Stored())
      ensures var running := old(failures).Some? && now < old(failures).value.expiresAt;
              var count := 1 + if running then old(failures).value.count else 0;
              if old(state) == Some(HalfOpen) || count >= cfg.threshold
              then reply == Open && Stored() == Keys(Some(Open), Some(now), None, None)
              else
                var end := if running && count != 1 then old(failures).value.expiresAt
                           else now + Ceil(cfg.window) as real;
                Stored() == Keys(old(state), old(openedAt), Some(Counter(count, end)), old(probe))
    {
      var mode := if state.Some? then state.value else Closed;
      if mode == HalfOpen {
        state, openedAt := Some(Open), Some(now);
        probe, failures := None, None;
        return Open;
      }
      if failures.Some? && now < failures.value.expiresAt {
        failures := Some(Counter(failures.value.count + 1, failures.value.expiresAt));
      } else {
        failures := Some(Counter(1, now));
      }
      var count := failures.value.count;
      if count == 1 {
        failures := Some(Counter(1, now + Ceil(cfg.window) as real));
      }
      if count >= cfg.threshold {
        state, openedAt := Some(Open), Some(now);
        failures, probe := None, None;
        return Open;
      }
      return mode;
    }

    method Clear(now: real)
      modifies this
      ensures Stored() == Step(cfg, old(Stored()), Event(Reset, now))
      ensures state == None && openedAt == None && failures == None && probe == None
    {
      state, openedAt, failures, probe := None, None, None, None;
    }
  }

  // ----- Runs -----

  function After(cfg: Config, es: seq<Event>): Keys {
    if es == [] then EMPTY else Step(cfg, After(cfg, es[..|es| - 1]), es[|es| - 1])
  }

  function ModeAt(cfg: Config, es: seq<Event>, i: nat): Mode
    requires i <= |es|
  {
    ModeOf(After(cfg, es[..i]))
  }

  /** The i-th event is a `can_execute` that let its caller through. */
  predicate GrantAt(cfg: Config, es: seq<Event>, i: nat)
    requires i < |es|
  {
    es[i].op.CanExecute? && Grants(cfg, After(cfg, es[..i]), es[i].now)
  }

  ghost predicate Monotone(es: seq<Event>) {
    forall i, j :: 0 <= i <= j < |es| ==> es[i].now <= es[j].now
  }

  ghost predicate NotBefore(es: seq<Event>, now: real) {
    Monotone(es) && (es != [] ==> es[|es| - 1].now <= now)
  }

  function FailuresFrom(es: seq<Event>, j: nat): nat
    decreases |es| - j
  {
    if j >= |es| then 0 else (if es[j].op.Failure? then 1 else 0) + FailuresFrom(es, j + 1)
  }

  /** The run's keys are explained by its events: the counter counts the failures of one streak and
      expires `ceil(window)` after the first of them. */
  ghost predicate CounterExplained(cfg: Config, es: seq<Event>, j: nat) {
    var k := After(cfg, es);
    && k.failures.Some?
    && j < |es|
    && es[j].op.Failure?
    && k.failures.value.count == FailuresFrom(es, j)
    && k.failures.value.expiresAt == es[j].now + Ceil(cfg.window) as real
    && (forall i :: j <= i < |es| ==> !es[i].op.Success? && !es[i].op.Reset?)
    && (ModeOf(k) != HalfOpen ==> forall i :: j <= i <= |es| ==> ModeAt(cfg, es, i) == ModeOf(k))
    && (ModeOf(k) == HalfOpen ==> forall i :: j <= i <= |es| ==> ModeAt(cfg, es, i) != Closed)
  }

  lemma {:induction false} FailuresExtend(es: seq<Event>, e: Event, j: nat)
    requires j <= |es|
    ensures FailuresFrom(es + [e], j) == FailuresFrom(es, j) + if e.op.Failure? then 1 else 0
    decreases |es| - j
  {
    if j < |es| {
      FailuresExtend(es, e, j + 1);
    } else {
      assert FailuresFrom(es + [e], j + 1) == 0;
    }
  }

  lemma ModesExtend(cfg: Config, es: seq<Event>, e: Event)
    ensures forall i :: 0 <= i <= |es| ==> ModeAt(cfg, es + [e], i) == ModeAt(cfg, es, i)
    ensures After(cfg, es + [e]) == Step(cfg, After(cfg, es), e)
    ensures ModeAt(cfg, es + [e], |es| + 1) == ModeOf(Step(cfg, After(cfg, es), e))
  {
    var all := es + [e];
    assert all[..|es| + 1] == all && all[..|es|] == es;
    forall i | 0 <= i <= |es| ensures ModeAt(cfg, all, i) == ModeAt(cfg, es, i) {
      assert all[..i] == es[..i];
    }
  }

  // ----- Trip soundness and completeness -----

  lemma {:induction false} CounterIsExplained(cfg: Config, es: seq<Event>)
    ensures After(cfg, es).failures.Some? ==> exists j :: CounterExplained(cfg, es, j)
    decreases |es|
  {
    if es != [] {
      var n := |es| - 1;
      var before, e := es[..n], es[n];
      assert es == before + [e];
      CounterIsExplained(cfg, before);
      if After(cfg, es).failures.Some? {
        CounterStep(cfg, before, e);
      }
    }
  }

  lemma CounterStep(cfg: Config, es: seq<Event>, e: Event)
    requires After(cfg, es).failures.Some? ==> exists j :: CounterExplained(cfg, es, j)
    requires After(cfg, es + [e]).failures.Some?
    ensures exists j :: CounterExplained(cfg, es + [e], j)
  {
    var k, all := After(cfg, es), es + [e];
    ModesExtend(cfg, es, e);
    if e.op.Failure? && Counted(cfg, k, e.now).count == 1 {
      FreshCounter(cfg, es, e);
      assert CounterExplained(cfg, all, |es|);
    } else {
      var j :| CounterExplained(cfg, es, j);
      FailuresExtend(es, e, j);
      assert CounterExplained(cfg, all, j);
    }
  }

  lemma FreshCounter(cfg: Config, es: seq<Event>, e: Event)
    requires e.op.Failure? && Counted(cfg, After(cfg, es), e.now).count == 1
    requires After(cfg, es + [e]).failures.Some?
    ensures CounterExplained(cfg, es + [e], |es|)
  {
    var all := es + [e];
    ModesExtend(cfg, es, e);
    FailuresExtend(es, e, |es|);
    assert FailuresFrom(es, |es|) == 0;
    assert all[..|all|] == all;
  }

  /** The last event of `es` tripped a closed breaker because of the failures from the j-th event on. */
  ghost predicate TrippedBy(cfg: Config, es: seq<Event>, j: nat) {
    && j < |es|
    && es[j].op.Failure?
    && (forall i :: j <= i < |es| ==> !es[i].op.Success? && !es[i].op.Reset? && ModeAt(cfg, es, i) == Closed)
    && FailuresFrom(es, j) >= cfg.threshold
    && (j == |es| - 1 || es[|es| - 1].now < es[j].now + Ceil(cfg.window) as real)
  }

  /** A closed breaker opens only after `threshold` failures with no success between them, all within
      `ceil(window)` seconds of the first, and all of them counted while it was closed. */
  lemma TripSoundness(cfg: Config, es: seq<Event>, e: Event)
    requires Monotone(es + [e])
    requires ModeOf(After(cfg, es)) == Closed && ModeOf(After(cfg, es + [e])) == Open
    ensures e.op.Failure? && exists j :: TrippedBy(cfg, es + [e], j)
  {
    var k, all := After(cfg, es), es + [e];
    ModesExtend(cfg, es, e);
    assert ModeAt(cfg, es, |es|) == Closed by { assert es[..|es|] == es; }
    if LiveCount(k, e.now) == 0 {
      FailuresExtend(es, e, |es|);
      assert TrippedBy(cfg, all, |es|);
    } else {
      CounterIsExplained(cfg, es);
      var j :| CounterExplained(cfg, es, j);
      FailuresExtend(es, e, j);
      assert TrippedBy(cfg, all, j);
    }
  }

  /** The counter is clear and the breaker closed after the first `j` events. */
  ghost predicate FreshlyClosed(cfg: Config, es: seq<Event>, j: nat)
    requires j < |es|
  {
    ModeAt(cfg, es, j) == Closed && LiveCount(After(cfg, es[..j]), es[j].now) == 0
  }

  /** From the j-th event on there are only failures and permission checks, all in less than the window
      of the first, which is a failure. */
  ghost predicate FailureBurst(cfg: Config, es: seq<Event>, j: nat) {
    && j < |es|
    && es[j].op.Failure?
    && (forall i :: j <= i < |es| ==> es[i].op.Failure? || es[i].op.CanExecute?)
    && (forall i :: j <= i < |es| ==> es[i].now < es[j].now + Ceil(cfg.window) as real)
  }

  lemma {:induction false} BurstCounts(cfg: Config, es: seq<Event>, j: nat)
    requires FailureBurst(cfg, es, j) && FreshlyClosed(cfg, es, j)
    requires FailuresFrom(es, j) < cfg.threshold
    ensures ModeOf(After(cfg, es)) == Closed
    ensures After(cfg, es).failures == Some(Counter(FailuresFrom(es, j), es[j].now + Ceil(cfg.window) as real))
    decreases |es|
  {
    var n := |es| - 1;
    var before, e := es[..n], es[n];
    assert es == before + [e];
    FailuresExtend(before, e, j);
    if j == n {
      assert FailuresFrom(before, j) == 0;
    } else {
      assert before[..j] == es[..j];
      BurstCounts(cfg, before, j);
      assert FailuresFrom(before, j) >= 1;
    }
  }

  /** `threshold` failures in a row within the window of the first do open a closed breaker whose counter
      was clear: the last of them is the one that trips it. */
  lemma TripCompleteness(cfg: Config, es: seq<Event>, j: nat)
    requires FailureBurst(cfg, es, j) && FreshlyClosed(cfg, es, j)
    requires es[|es| - 1].op.Failure? && FailuresFrom(es, j) >= cfg.threshold
    requires j < |es| - 1 ==> FailuresFrom(es[..|es| - 1], j) < cfg.threshold
    ensures After(cfg, es) == Keys(Some(Open), Some(es[|es| - 1].now), None, None)
  {
    var n := |es| - 1;
    var before, e := es[..n], es[n];
    assert es == before + [e];
    FailuresExtend(before, e, j);
    if j == n {
      assert FailuresFrom(before, j) == 0;
    } else {
      assert before[..j] == es[..j];
      BurstCounts(cfg, before, j);
      assert FailuresFrom(before, j) >= 1;
    }
  }

  /** The window is fixed, not rolling: it starts at the first failure and is forgotten when it ends.
      Here five failures in two seconds, with no success, leave the breaker closed. */
  lemma WindowDoesNotRoll()
    ensures var cfg := Config(FAILURE_THRESHOLD, FAILURE_WINDOW, RECOVERY_TIMEOUT);
            var times := [0.0, 59.0, 59.0, 59.0, 61.0, 61.0];
            var es := seq(6, i requires 0 <= i < 6 => Event(Failure, times[i]));
            && ModeOf(After(cfg, es)) == Closed
            && FailuresFrom(es, 1) == cfg.threshold
            && es[5].now - es[1].now == 2.0
  {
    var cfg := Config(FAILURE_THRESHOLD, FAILURE_WINDOW, RECOVERY_TIMEOUT);
    var times := [0.0, 59.0, 59.0, 59.0, 61.0, 61.0];
    var es := seq(6, i requires 0 <= i < 6 => Event(Failure, times[i]));
    assert Ceil(60.0) == 60;
    assert es[..6] == es;
    forall i | 0 <= i < 6 ensures After(cfg, es[..i + 1]) == Step(cfg, After(cfg, es[..i]), es[i]) {
      assert es[..i + 1][..i] == es[..i];
    }
    assert After(cfg, es[..0]) == EMPTY;
    assert After(cfg, es[..1]).failures == Some(Counter(1, 60.0));
    assert After(cfg, es[..2]).failures == Some(Counter(2, 60.0));
    assert After(cfg, es[..3]).failures == Some(Counter(3, 60.0));
    assert After(cfg, es[..4]).failures == Some(Counter(4, 60.0));
    assert After(cfg, es[..5]).failures == Some(Counter(1, 121.0));
    assert After(cfg, es[..6]).failures == Some(Counter(2, 121.0));
    assert FailuresFrom(es, 6) == 0;
    assert FailuresFrom(es, 5) == 1 && FailuresFrom(es, 4) == 2 && FailuresFrom(es, 3) == 3 && FailuresFrom(es, 2) == 4;
  }

  // ----- Exactly which bursts trip -----

  /** Failures from the j-th event on that happen before `x`. */
  function FailuresBefore(es: seq<Event>, j: nat, x: real): nat
    decreases |es| - j
  {
    if j >= |es| then 0
    else (if es[j].op.Failure? && es[j].now < x then 1 else 0) + FailuresBefore(es, j + 1, x)
  }

  lemma {:induction false} BeforeExtends(es: seq<Event>, e: Event, j: nat, x: real)
    requires j <= |es|
    ensures FailuresBefore(es + [e], j, x) == FailuresBefore(es, j, x) + if e.op.Failure? && e.now < x then 1 else 0
    ensures FailuresBefore(es, j, x) <= FailuresFrom(es, j)
    decreases |es| - j
  {
    if j < |es| {
      BeforeExtends(es, e, j + 1, x);
    } else {
      assert FailuresBefore(es + [e], j + 1, x) == 0;
    }
  }

  /** Failures already counted when the j-th event happens. */
  function CountedBefore(cfg: Config, es: seq<Event>, j: nat): int
    requires j < |es|
  {
    LiveCount(After(cfg, es[..j]), es[j].now)
  }

  /** Failures of the burst that still join that count, because they come before its window ends. */
  function Early(cfg: Config, es: seq<Event>, j: nat): nat
    requires j < |es|
  {
    if CountedBefore(cfg, es, j) <= 0 then 0
    else FailuresBefore(es, j, After(cfg, es[..j]).failures.value.expiresAt)
  }

  /** The failures of the burst that start a window of their own. */
  function Late(cfg: Config, es: seq<Event>, j: nat): int
    requires j < |es|
  {
    FailuresFrom(es, j) - Early(cfg, es, j)
  }

  /** The breaker opens at some event from the j-th on. */
  ghost predicate OpensAfter(cfg: Config, es: seq<Event>, j: nat) {
    exists i :: j < i <= |es| && ModeAt(cfg, es, i) == Open
  }

  /** Either window fills up. */
  predicate FillsAWindow(cfg: Config, es: seq<Event>, j: nat)
    requires j < |es|
  {
    CountedBefore(cfg, es, j) + Early(cfg, es, j) >= cfg.threshold || Late(cfg, es, j) >= cfg.threshold
  }

  /** The counter while the burst has not tripped the breaker. */
  ghost predicate CountsTheBurst(cfg: Config, es: seq<Event>, j: nat)
    requires j < |es|
  {
    var k := After(cfg, es);
    && ModeOf(k) == Closed
    && k.failures.Some?
    && (if Late(cfg, es, j) == 0 then
          && CountedBefore(cfg, es, j) > 0
          && k.failures == Some(Counter(CountedBefore(cfg, es, j) + Early(cfg, es, j),
                                        After(cfg, es[..j]).failures.value.expiresAt))
        else
          && Late(cfg, es, j) > 0
          && k.failures.value.count == Late(cfg, es, j)
          && k.failures.value.expiresAt >= es[j].now + Ceil(cfg.window) as real
          && (CountedBefore(cfg, es, j) > 0 ==> After(cfg, es[..j]).failures.value.expiresAt <= es[|es| - 1].now))
  }

  lemma OneFailure(cfg: Config, es: seq<Event>, j: nat)
    requires j == |es| - 1 && es[j].op.Failure?
    ensures CountedBefore(cfg, es, j) > 0 ==> Early(cfg, es, j) == 1 && Late(cfg, es, j) == 0
    ensures CountedBefore(cfg, es, j) <= 0 ==> Early(cfg, es, j) == 0 && Late(cfg, es, j) == 1
  {
    assert FailuresFrom(es, j + 1) == 0;
    if CountedBefore(cfg, es, j) > 0 {
      assert FailuresBefore(es, j + 1, After(cfg, es[..j]).failures.value.expiresAt) == 0;
    }
  }

  lemma BurstStarts(cfg: Config, es: seq<Event>, j: nat)
    requires j == |es| - 1 && es[j].op.Failure? && ModeAt(cfg, es, j) == Closed
    requires CountedBefore(cfg, es, j) >= 0
    ensures FillsAWindow(cfg, es, j) <==> ModeOf(After(cfg, es)) == Open
    ensures !FillsAWindow(cfg, es, j) ==> CountsTheBurst(cfg, es, j)
  {
    hide Early, Late;
    OneFailure(cfg, es, j);
    assert es == es[..j] + [es[j]];
  }

  lemma CountsExtend(cfg: Config, es: seq<Event>, e: Event, j: nat)
    requires j < |es|
    ensures var all := es + [e];
            && CountedBefore(cfg, all, j) == CountedBefore(cfg, es, j)
            && all[..j] == es[..j]
            && (e.op.CanExecute? ==> Early(cfg, all, j) == Early(cfg, es, j) && Late(cfg, all, j) == Late(cfg, es, j))
            && (e.op.Failure? ==>
                  if CountedBefore(cfg, es, j) > 0 && e.now < After(cfg, es[..j]).failures.value.expiresAt
                  then Early(cfg, all, j) == Early(cfg, es, j) + 1 && Late(cfg, all, j) == Late(cfg, es, j)
                  else Early(cfg, all, j) == Early(cfg, es, j) && Late(cfg, all, j) == Late(cfg, es, j) + 1)
  {
    hide After;
    assert (es + [e])[..j] == es[..j];
    FailuresExtend(es, e, j);
    if CountedBefore(cfg, es, j) > 0 {
      BeforeExtends(es, e, j, After(cfg, es[..j]).failures.value.expiresAt);
    }
  }

  lemma BurstGoesOn(cfg: Config, es: seq<Event>, e: Event, j: nat)
    requires j < |es| && CountsTheBurst(cfg, es, j) && !FillsAWindow(cfg, es, j)
    requires es[j].now <= es[|es| - 1].now <= e.now < es[j].now + Ceil(cfg.window) as real
    requires e.op.Failure? || e.op.CanExecute?
    ensures FillsAWindow(cfg, es + [e], j) <==> ModeOf(After(cfg, es + [e])) == Open
    ensures !FillsAWindow(cfg, es + [e], j) ==> CountsTheBurst(cfg, es + [e], j)
  {
    hide Early, Late, CountedBefore, FailuresFrom, Ceil;
    CountsExtend(cfg, es, e, j);
    assert (es + [e])[..|es|] == es;
  }

  /** A count that exists is not zero. */
  lemma CountIsPositive(cfg: Config, es: seq<Event>, now: real)
    ensures LiveCount(After(cfg, es), now) >= 0
  {
    CounterIsExplained(cfg, es);
  }

  lemma {:induction false} BurstIsTracked(cfg: Config, es: seq<Event>, j: nat)
    requires Monotone(es) && FailureBurst(cfg, es, j) && ModeAt(cfg, es, j) == Closed
    ensures OpensAfter(cfg, es, j) <==> FillsAWindow(cfg, es, j)
    ensures !OpensAfter(cfg, es, j) ==> CountsTheBurst(cfg, es, j)
    decreases |es|
  {
    hide FillsAWindow, CountsTheBurst, After, OpensAfter, ModeAt, FailureBurst, Monotone;
    LastOfBurst(cfg, es, j);
    var n := |es| - 1;
    var before, e := es[..n], es[n];
    if j == n {
      CountIsPositive(cfg, es[..j], es[j].now);
      BurstStarts(cfg, es, j);
      OpensAtOnce(cfg, es, j);
    } else {
      BurstIsTracked(cfg, before, j);
      OpensExtend(cfg, before, e, j);
      if OpensAfter(cfg, before, j) {
        FillsExtend(cfg, before, e, j);
      } else {
        BurstGoesOn(cfg, before, e, j);
      }
    }
  }

  lemma LastOfBurst(cfg: Config, es: seq<Event>, j: nat)
    requires Monotone(es) && FailureBurst(cfg, es, j)
    ensures var n := |es| - 1;
            && j <= n && es == es[..n] + [es[n]]
            && es[j].op.Failure? && (es[n].op.Failure? || es[n].op.CanExecute?)
            && (j < n ==>
                  && Monotone(es[..n]) && FailureBurst(cfg, es[..n], j)
                  && ModeAt(cfg, es[..n], j) == ModeAt(cfg, es, j)
                  && es[..n][j].now <= es[..n][n - 1].now <= es[n].now < es[..n][j].now + Ceil(cfg.window) as real)
  {
    hide After;
    var n := |es| - 1;
    assert j < n ==> es[..n][..j] == es[..j];
  }

  lemma OpensAtOnce(cfg: Config, es: seq<Event>, j: nat)
    requires j == |es| - 1
    ensures OpensAfter(cfg, es, j) <==> ModeOf(After(cfg, es)) == Open
  {
    hide After;
    assert es[..|es|] == es;
    assert ModeAt(cfg, es, |es|) == ModeOf(After(cfg, es));
  }

  lemma OpensExtend(cfg: Config, es: seq<Event>, e: Event, j: nat)
    requires j < |es|
    ensures OpensAfter(cfg, es + [e], j) <==> OpensAfter(cfg, es, j) || ModeOf(After(cfg, es + [e])) == Open
  {
    hide After;
    var all := es + [e];
    assert all[..|all|] == all;
    forall i | 0 <= i <= |es| ensures ModeAt(cfg, all, i) == ModeAt(cfg, es, i) {
      assert all[..i] == es[..i];
    }
    assert ModeAt(cfg, all, |all|) == ModeOf(After(cfg, all));
  }

  lemma FillsExtend(cfg: Config, es: seq<Event>, e: Event, j: nat)
    requires j < |es| && FillsAWindow(cfg, es, j) && (e.op.Failure? || e.op.CanExecute?)
    ensures FillsAWindow(cfg, es + [e], j)
  {
    hide Early, Late, CountedBefore;
    CountsExtend(cfg, es, e, j);
  }

  /** From any state of a closed breaker: failures within the window of the first of them trip it if and
      only if those before the end of the running count's window fill that count, or those after it fill
      a count of their own. */
  lemma BurstTripsExactlyWhen(cfg: Config, es: seq<Event>, j: nat)
    requires Monotone(es) && FailureBurst(cfg, es, j) && ModeAt(cfg, es, j) == Closed
    ensures OpensAfter(cfg, es, j) <==> FillsAWindow(cfg, es, j)
  {
    BurstIsTracked(cfg, es, j);
  }

  // ----- Which thresholds make the window roll -----

  /** As documented: whenever `threshold` failures fall within the window of the first of them, with no
      success between them, a closed breaker opens. */
  ghost predicate WindowRolls(cfg: Config) {
    forall es, j | BurstOfFailures(cfg, es, j) :: OpensAfter(cfg, es, j)
  }

  ghost predicate BurstOfFailures(cfg: Config, es: seq<Event>, j: nat) {
    && Monotone(es) && FailureBurst(cfg, es, j)
    && ModeAt(cfg, es, j) == Closed
    && FailuresFrom(es, j) >= cfg.threshold
  }

  function Failures(n: nat, now: real): (es: seq<Event>)
    ensures |es| == n && forall i :: 0 <= i < n ==> es[i] == Event(Failure, now)
  {
    seq(n, i => Event(Failure, now))
  }

  lemma {:induction false} OnlyFailures(es: seq<Event>, j: nat, m: nat, x: real)
    requires j <= m <= |es| && forall i :: j <= i < |es| ==> es[i].op.Failure?
    requires forall i :: j <= i < m ==> es[i].now < x
    requires forall i :: m <= i < |es| ==> es[i].now >= x
    ensures FailuresFrom(es, j) == |es| - j && FailuresBefore(es, j, x) == m - j
    decreases |es| - j
  {
    if j < |es| {
      OnlyFailures(es, j + 1, if j < m then m else j + 1, x);
    }
  }

  /** One failure, then all but two of the threshold shortly before its window ends, and two after. */
  lemma StraddlingBurst(cfg: Config) returns (es: seq<Event>)
    requires cfg.window > 0.0 && cfg.threshold >= 3
    ensures BurstOfFailures(cfg, es, 1) && !OpensAfter(cfg, es, 1)
  {
    var w := Ceil(cfg.window) as real;
    assert w >= 1.0;
    var first := Event(Failure, 0.0);
    var n := cfg.threshold - 2;
    es := [first] + Failures(n, w - 0.5) + Failures(2, w + 0.25);
    assert es[..1] == [first] && es[..0] == [] && [first][..0] == [];
    assert After(cfg, [first]) == Step(cfg, EMPTY, first);
    assert After(cfg, es[..1]) == Keys(None, None, Some(Counter(1, w)), None);
    OnlyFailures(es, 1, 1 + n, w);
    assert CountedBefore(cfg, es, 1) == 1 && Early(cfg, es, 1) == n;
    BurstTripsExactlyWhen(cfg, es, 1);
  }

  /** The failure window is the documented rolling one if and only if at most two failures are asked for. */
  lemma WindowRollsExactlyWhen(cfg: Config)
    requires cfg.window > 0.0
    ensures WindowRolls(cfg) <==> cfg.threshold <= 2
  {
    hide OpensAfter, FailureBurst;
    if cfg.threshold <= 2 {
      forall es, j | BurstOfFailures(cfg, es, j) ensures OpensAfter(cfg, es, j) {
        BurstTripsExactlyWhen(cfg, es, j);
        FirstIsEarly(cfg, es, j);
      }
    } else {
      var es := StraddlingBurst(cfg);
    }
  }

  lemma FirstIsEarly(cfg: Config, es: seq<Event>, j: nat)
    requires FailureBurst(cfg, es, j)
    ensures CountedBefore(cfg, es, j) > 0 ==> Early(cfg, es, j) >= 1
  {
    hide After;
  }

  lemma ClearedCount(cfg: Config, es: seq<Event>, now: real)
    requires es == [] || es[|es| - 1].op.Success? || es[|es| - 1].op.Reset?
    ensures LiveCount(After(cfg, es), now) == 0
  {
  }

  /** As documented for consecutive failures: after a success, a reset or at the start, a closed breaker
      trips on the failure that makes `threshold` of them within the window of the first, and the
      failures before that success do not help. */
  lemma ConsecutiveFailuresTrip(cfg: Config, es: seq<Event>, j: nat)
    requires FailureBurst(cfg, es, j) && ModeAt(cfg, es, j) == Closed
    requires j == 0 || es[j - 1].op.Success? || es[j - 1].op.Reset?
    requires es[|es| - 1].op.Failure?
    requires j < |es| - 1 ==> FailuresFrom(es[..|es| - 1], j) < cfg.threshold
    ensures ModeOf(After(cfg, es)) == Open <==> FailuresFrom(es, j) >= cfg.threshold
  {
    ClearedCount(cfg, es[..j], es[j].now);
    if FailuresFrom(es, j) >= cfg.threshold {
      TripCompleteness(cfg, es, j);
    } else {
      BurstCounts(cfg, es, j);
    }
  }

  // ----- Quiet period -----

  /** The k-th event is a failure at whose instant the breaker stands opened afterwards. */
  ghost predicate OpenedAt(cfg: Config, es: seq<Event>, k: nat) {
    && k < |es| && es[k].op.Failure?
    && ModeAt(cfg, es, k + 1) == Open
    && After(cfg, es[..k + 1]).openedAt == Some(es[k].now)
  }

  /** Until the recovery time after a trip has passed, the breaker stays open whatever is recorded, and
      no caller is let through. */
  lemma {:induction false} QuietPeriod(cfg: Config, es: seq<Event>, k: nat, now: real)
    requires NotBefore(es, now) && OpenedAt(cfg, es, k)
    requires forall i :: k < i < |es| ==> !es[i].op.Reset?
    requires now < es[k].now + cfg.recovery
    ensures ModeOf(After(cfg, es)) == Open
    ensures After(cfg, es).openedAt.Some? && After(cfg, es).openedAt.value >= es[k].now
    ensures !Grants(cfg, After(cfg, es), now)
    decreases |es|
  {
    var n := |es| - 1;
    if k == n {
      assert es[..k + 1] == es;
    } else {
      var before := es[..n];
      assert before[..k + 1] == es[..k + 1];
      QuietPeriod(cfg, before, k, es[n].now);
    }
  }

  // ----- What a probe decides -----

  lemma AfterNext(cfg: Config, es: seq<Event>, i: nat)
    requires i < |es|
    ensures After(cfg, es[..i + 1]) == Step(cfg, After(cfg, es[..i]), es[i])
  {
    assert es[..i + 1][..i] == es[..i];
  }

  /** A HALF_OPEN period goes on for as long as callers only ask, and ends with the first result: a failure
      opens the breaker afresh at that instant, and a success closes it, with no key left of the period. */
  lemma FirstResultDecides(cfg: Config, es: seq<Event>, i: nat)
    requires i < |es| && ModeAt(cfg, es, i) == HalfOpen
    ensures ModeAt(cfg, es, i + 1) == HalfOpen <==> es[i].op.CanExecute?
    ensures es[i].op.Failure? ==>
              OpenedAt(cfg, es, i) && After(cfg, es[..i + 1]) == Keys(Some(Open), Some(es[i].now), None, None)
    ensures es[i].op.Success? ==> After(cfg, es[..i + 1]) == Keys(Some(Closed), None, None, None)
  {
    AfterNext(cfg, es, i);
  }

  /** So nobody is let through for the recovery time after a failed probe, and the first caller after it is. */
  lemma FailedProbeWaitsAgain(cfg: Config, es: seq<Event>, now: real)
    requires NotBefore(es, now) && es != [] && es[|es| - 1].op.Failure?
    requires ModeAt(cfg, es, |es| - 1) == HalfOpen
    ensures Grants(cfg, After(cfg, es), now) <==> now >= es[|es| - 1].now + cfg.recovery
  {
    FirstResultDecides(cfg, es, |es| - 1);
    assert es[..|es| - 1 + 1] == es;
  }

  /** The breaker opens, or its opening time moves, only with a failure, and to that failure's instant. */
  lemma OpenedOnlyByFailures(cfg: Config, es: seq<Event>, i: nat)
    requires i < |es| && ModeAt(cfg, es, i + 1) == Open
    requires ModeAt(cfg, es, i) != Open || After(cfg, es[..i + 1]).openedAt != After(cfg, es[..i]).openedAt
    ensures OpenedAt(cfg, es, i)
  {
    AfterNext(cfg, es, i);
  }

  // ----- One probe at a time -----

  lemma {:induction false} ProbeHeld(cfg: Config, es: seq<Event>, a: nat)
    requires a < |es| && GrantAt(cfg, es, a)
    requires forall i :: a < i <= |es| ==> ModeAt(cfg, es, i) == HalfOpen
    requires forall i :: a < i < |es| ==> !GrantAt(cfg, es, i)
    ensures After(cfg, es).probe == Some(es[a].now + PROBE_TTL)
    decreases |es|
  {
    var n := |es| - 1;
    assert es[..|es|] == es;
    assert ModeAt(cfg, es, |es|) == HalfOpen;
    if a < n {
      var before := es[..n];
      assert before[..n] == before && before[..a] == es[..a];
      assert forall i :: 0 <= i <= n ==> before[..i] == es[..i];
      forall i | a < i <= n ensures ModeAt(cfg, before, i) == HalfOpen {
        assert ModeAt(cfg, es, i) == HalfOpen;
      }
      forall i | a < i < n ensures !GrantAt(cfg, before, i) {
        assert !GrantAt(cfg, es, i);
      }
      ProbeHeld(cfg, before, a);
      assert !GrantAt(cfg, es, n) && ModeAt(cfg, es, n) == HalfOpen;
    }
  }

  /** Two callers let through in one HALF_OPEN period are at least a probe lifetime apart. */
  lemma SingleProbe(cfg: Config, es: seq<Event>, a: nat, b: nat)
    requires Monotone(es) && a < b < |es|
    requires GrantAt(cfg, es, a) && GrantAt(cfg, es, b)
    requires forall i :: a < i <= b ==> ModeAt(cfg, es, i) == HalfOpen
    ensures es[b].now >= es[a].now + PROBE_TTL
  {
    var c := LastGrant(cfg, es, a, b);
    var upTo := es[..b];
    assert forall i :: 0 <= i <= b ==> upTo[..i] == es[..i];
    forall i | c < i <= b ensures ModeAt(cfg, upTo, i) == HalfOpen {
      assert ModeAt(cfg, es, i) == HalfOpen;
    }
    forall i | c < i < b ensures !GrantAt(cfg, upTo, i) {
      assert !GrantAt(cfg, es, i);
    }
    assert GrantAt(cfg, upTo, c);
    ProbeHeld(cfg, upTo, c);
    assert ModeAt(cfg, es, b) == HalfOpen;
  }

  /** The last grant before the b-th event. */
  lemma LastGrant(cfg: Config, es: seq<Event>, a: nat, b: nat) returns (c: nat)
    requires a < b < |es| && GrantAt(cfg, es, a)
    ensures a <= c < b && GrantAt(cfg, es, c)
    ensures forall i :: c < i < b ==> !GrantAt(cfg, es, i)
  {
    c := b - 1;
    while !GrantAt(cfg, es, c)
      invariant a <= c < b
      invariant forall i :: c < i < b ==> !GrantAt(cfg, es, i)
      decreases c
    {
      c := c - 1;
    }
  }

  // ----- No lockout -----

  /** An open breaker knows when it opened, and no probe slot outlives the run by more than its lifetime. */
  lemma {:induction false} KeysAreRecent(cfg: Config, es: seq<Event>, now: real)
    requires NotBefore(es, now)
    ensures var k := After(cfg, es);
            && (ModeOf(k) == Open ==> k.openedAt.Some? && es != [] && k.openedAt.value <= es[|es| - 1].now)
            && (k.probe.Some? ==> es != [] && k.probe.value <= es[|es| - 1].now + PROBE_TTL)
    decreases |es|
  {
    if es != [] {
      var n := |es| - 1;
      KeysAreRecent(cfg, es[..n], es[n].now);
    }
  }

  /** From every reachable state, a caller that waits long enough after the last event is let through. */
  lemma NoLockout(cfg: Config, es: seq<Event>, now: real)
    requires NotBefore(es, now)
    requires es != [] ==> now >= es[|es| - 1].now + cfg.recovery && now >= es[|es| - 1].now + PROBE_TTL
    ensures Grants(cfg, After(cfg, es), now)
  {
    KeysAreRecent(cfg, es, now);
  }

  /** Nobody is refused who waits this long after the last event, in whatever state it left the breaker. */
  ghost predicate LongEnough(cfg: Config, wait: real) {
    forall es: seq<Event>, now | NotBefore(es, now) && (es != [] ==> now >= es[|es| - 1].now + wait) ::
      Grants(cfg, After(cfg, es), now)
  }

  lemma TrippedAtOnce(cfg: Config) returns (es: seq<Event>)
    requires cfg.window > 0.0
    ensures es != [] && Monotone(es) && es[|es| - 1].now == 0.0
    ensures After(cfg, es) == Keys(Some(Open), Some(0.0), None, None)
  {
    var n := if cfg.threshold > 1 then cfg.threshold else 1;
    es := Failures(n, 0.0);
    assert Ceil(cfg.window) >= 1;
    assert es[..0] == [];
    OnlyFailures(es, 0, 0, 0.0);
    OnlyFailures(es[..n - 1], 0, 0, 0.0);
    TripCompleteness(cfg, es, 0);
  }

  /** A probe let through right when the recovery time is over. */
  lemma ProbedAtOnce(cfg: Config) returns (es: seq<Event>)
    requires cfg.window > 0.0
    ensures es != [] && Monotone(es)
    ensures ModeOf(After(cfg, es)) == HalfOpen && After(cfg, es).probe == Some(es[|es| - 1].now + PROBE_TTL)
  {
    var tripped := TrippedAtOnce(cfg);
    var probe := Event(CanExecute, if cfg.recovery > 0.0 then cfg.recovery else 0.0);
    es := tripped + [probe];
    assert es[..|tripped|] == tripped;
    assert forall i :: 0 <= i < |tripped| ==> tripped[i].now <= tripped[|tripped| - 1].now;
  }

  /** That is so if and only if the wait covers both the recovery time and the probe's lifetime. */
  lemma LongEnoughExactlyWhen(cfg: Config, wait: real)
    requires cfg.window > 0.0 && wait >= 0.0
    ensures LongEnough(cfg, wait) <==> wait >= cfg.recovery && wait >= PROBE_TTL
  {
    if wait >= cfg.recovery && wait >= PROBE_TTL {
      forall es: seq<Event>, now | NotBefore(es, now) && (es != [] ==> now >= es[|es| - 1].now + wait)
        ensures Grants(cfg, After(cfg, es), now)
      {
        NoLockout(cfg, es, now);
      }
    } else if wait < cfg.recovery {
      var es := TrippedAtOnce(cfg);
      assert NotBefore(es, wait) && !Grants(cfg, After(cfg, es), wait);
    } else {
      var es := ProbedAtOnce(cfg);
      var now := es[|es| - 1].now + wait;
      assert NotBefore(es, now) && !Grants(cfg, After(cfg, es), now);
    }
  }

  /** As configured, that is a minute. */
  lemma AMinuteIsEnough(wait: real)
    requires wait >= 0.0
    ensures LongEnough(Config(5, 60.0, 30.0), wait) <==> wait >= 60.0
  {
    LongEnoughExactlyWhen(Config(5, 60.0, 30.0), wait);
  }
}
