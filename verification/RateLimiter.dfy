/**
 The Redis token bucket shared by every worker that calls the LLM API.

 `Script` is what one atomic run of the Lua script does to the two keys.  Because the script is
 atomic, any interleaving of any number of workers is one sequence of calls, and the theorems below
 are about every such sequence whose clock does not go back.
 */
module RateLimiter {
  import opened Options

  /** Lifetime the script gives both keys, in seconds. */
  const KEY_TTL := 3600.0

  /** Wait reported when the configured rate forbids every call. */
  const NEVER := 86400.0

  const DEFAULT_RPM := 324.0
  const DEFAULT_BURST := 10

  /** `expires` is true for the real store; false describes a store that never drops a key. */
  datatype Config = Config(burst: int, rate: real, expires: bool)

  datatype Entry = Entry(value: real, expiresAt: real)

  datatype Store = Store(tokens: Option<Entry>, ts: Option<Entry>)

  datatype Reply = Granted | Refused(wait: real) | ScriptError

  datatype Call = Call(now: real, cost: int)

  const EMPTY := Store(None, None)

  function Min(a: real, b: real): real {
    if a <= b then a else b
  }

  function Max(a: real, b: real): real {
    if a >= b then a else b
  }

  function Live(cfg: Config, e: Option<Entry>, now: real): Option<real> {
    if e.Some? && (cfg.expires ==> now < e.value.expiresAt) then Some(e.value.value) else None
  }

  /** Tokens in the bucket at `now`, before anything is spent; `None` when the script would raise. */
  function Refilled(cfg: Config, st: Store, now: real): Option<real> {
    match Live(cfg, st.tokens, now)
    case None => Some(cfg.burst as real)
    case Some(level) =>
      match Live(cfg, st.ts, now)
      case None => None
      case Some(last) => Some(Refill(cfg, level, Max(0.0, now - last)))
  }

  function Refill(cfg: Config, level: real, elapsed: real): real {
    Min(cfg.burst as real, level + Gain(cfg.rate, elapsed))
  }

  /** Tokens earned in `elapsed` seconds. */
  function Gain(rate: real, elapsed: real): real {
    rate * elapsed
  }

  function Script(cfg: Config, st: Store, now: real, cost: int): (Store, Reply)
    requires cfg.rate > 0.0
  {
    match Refilled(cfg, st, now)
    case None => (st, ScriptError)
    case Some(level) =>
      (Store(Some(Entry(Left(level, cost), now + KEY_TTL)), Some(Entry(now, now + KEY_TTL))),
       Verdict(cfg, level, cost))
  }

  function Left(level: real, cost: int): real {
    if level >= cost as real then level - cost as real else level
  }

  function Verdict(cfg: Config, level: real, cost: int): Reply
    requires cfg.rate > 0.0
  {
    if level >= cost as real then Granted else Refused((cost as real - level) / cfg.rate)
  }

  // ----- Runs -----

  /** The store once the calls have been made in order, starting from no keys. */
  function After(cfg: Config, calls: seq<Call>): Store
    requires cfg.rate > 0.0
  {
    if calls == [] then EMPTY
    else
      var n := |calls| - 1;
      Script(cfg, After(cfg, calls[..n]), calls[n].now, calls[n].cost).0
  }

  function ReplyTo(cfg: Config, calls: seq<Call>, c: Call): Reply
    requires cfg.rate > 0.0
  {
    Script(cfg, After(cfg, calls), c.now, c.cost).1
  }

  function ReplyAt(cfg: Config, calls: seq<Call>, i: nat): Reply
    requires cfg.rate > 0.0
    requires i < |calls|
  {
    ReplyTo(cfg, calls[..i], calls[i])
  }

  ghost predicate Monotone(calls: seq<Call>) {
    forall i, j :: 0 <= i <= j < |calls| ==> calls[i].now <= calls[j].now
  }

  /** `now` is no earlier than any call made so far. */
  ghost predicate NotBefore(calls: seq<Call>, now: real) {
    Monotone(calls) && (calls != [] ==> calls[|calls| - 1].now <= now)
  }

  /** Dropping idle keys loses nothing: an hour of refill fills the bucket. */
  ghost predicate TtlHarmless(cfg: Config) {
    cfg.expires ==> cfg.rate * KEY_TTL >= cfg.burst as real
  }

  /** What the bucket holds at `now`, read off the store without looking at expiry. */
  ghost function LevelAt(cfg: Config, calls: seq<Call>, now: real): real
    requires cfg.rate > 0.0
  {
    var st := After(cfg, calls);
    if calls == [] || st.tokens.None? then cfg.burst as real
    else Refill(cfg, st.tokens.value.value, now - calls[|calls| - 1].now)
  }

  lemma PrefixMonotone(calls: seq<Call>, n: nat)
    requires n < |calls| && Monotone(calls)
    ensures NotBefore(calls[..n], calls[n].now)
  {
  }

  // ----- What the store holds after a run -----

  /** Both keys were written at `last`, and the level is not below zero (or a negative capacity). */
  ghost predicate WrittenAt(cfg: Config, st: Store, last: real) {
    && st.tokens.Some?
    && st.tokens.value.expiresAt == last + KEY_TTL
    && st.tokens.value.value >= Min(0.0, cfg.burst as real)
    && st.ts == Some(Entry(last, last + KEY_TTL))
  }

  lemma {:induction false} StoredShape(cfg: Config, calls: seq<Call>)
    requires cfg.rate > 0.0 && Monotone(calls) && TtlHarmless(cfg)
    ensures calls == [] ==> After(cfg, calls) == EMPTY
    ensures calls != [] ==> WrittenAt(cfg, After(cfg, calls), calls[|calls| - 1].now)
    decreases |calls|, 0
  {
    hide Gain;
    if calls != [] {
      var n := |calls| - 1;
      PrefixMonotone(calls, n);
      LevelBetweenCalls(cfg, calls[..n], calls[n].now);
    }
  }

  /** The level at `now` is the stored level plus the refill, clamped: expiry does not show. */
  lemma {:induction false} LevelBetweenCalls(cfg: Config, calls: seq<Call>, now: real)
    requires cfg.rate > 0.0 && NotBefore(calls, now) && TtlHarmless(cfg)
    ensures Refilled(cfg, After(cfg, calls), now) == Some(LevelAt(cfg, calls, now))
    ensures LevelAt(cfg, calls, now) >= Min(0.0, cfg.burst as real)
    ensures calls != [] ==> WrittenAt(cfg, After(cfg, calls), calls[|calls| - 1].now)
    decreases |calls|, 1
  {
    hide Gain;
    StoredShape(cfg, calls);
    if calls != [] {
      RefillHidesExpiry(cfg, After(cfg, calls), calls[|calls| - 1].now, now);
    }
  }

  /** A key that expired would have refilled to the capacity anyway. */
  lemma RefillHidesExpiry(cfg: Config, st: Store, last: real, now: real)
    requires cfg.rate > 0.0 && TtlHarmless(cfg) && last <= now
    requires WrittenAt(cfg, st, last)
    ensures Refilled(cfg, st, now) == Some(Refill(cfg, st.tokens.value.value, now - last))
    ensures Refill(cfg, st.tokens.value.value, now - last) >= Min(0.0, cfg.burst as real)
  {
    var gained := Gain(cfg.rate, now - last);
    GainMonotone(cfg.rate, 0.0, now - last);
    if cfg.expires && now >= last + KEY_TTL {
      GainMonotone(cfg.rate, KEY_TTL, now - last);
      assert st.tokens.value.value + gained >= cfg.burst as real;
    } else {
      assert Max(0.0, now - last) == now - last;
    }
  }

  lemma GainMonotone(r: real, a: real, b: real)
    requires r > 0.0 && a <= b
    ensures Gain(r, a) <= Gain(r, b)
    ensures Gain(r, 0.0) == 0.0
  {
  }

  /** One call: the verdict is about the level before it, and what is left is what refills. */
  lemma LevelStep(cfg: Config, calls: seq<Call>, now: real)
    requires cfg.rate > 0.0 && NotBefore(calls, now) && TtlHarmless(cfg)
    requires calls != []
    ensures var n := |calls| - 1;
            var level := LevelAt(cfg, calls[..n], calls[n].now);
            && ReplyAt(cfg, calls, n) == Verdict(cfg, level, calls[n].cost)
            && LevelAt(cfg, calls, now) == Refill(cfg, Left(level, calls[n].cost), now - calls[n].now)
  {
    hide Gain;
    var n := |calls| - 1;
    PrefixMonotone(calls, n);
    LevelBetweenCalls(cfg, calls[..n], calls[n].now);
  }

  // ----- Exactness -----

  /** A call and whether it was granted. */
  datatype Done = Done(now: real, cost: int, granted: bool)

  ghost function History(cfg: Config, calls: seq<Call>): (h: seq<Done>)
    requires cfg.rate > 0.0
    ensures |h| == |calls|
    ensures forall i :: 0 <= i < |calls| ==> h[i].now == calls[i].now
  {
    seq(|calls|, i requires 0 <= i < |calls| =>
      Done(calls[i].now, calls[i].cost, ReplyAt(cfg, calls, i) == Granted))
  }

  ghost function Taken(d: Done): real {
    if d.granted then d.cost as real else 0.0
  }

  /** Cost of the calls granted from the i-th on. */
  ghost function Spent(h: seq<Done>, i: nat): real
    decreases |h| - i
  {
    if i >= |h| then 0.0 else Taken(h[i]) + Spent(h, i + 1)
  }

  /** What a window opened by the i-th call still allows at `now`. */
  ghost function Credit(cfg: Config, h: seq<Done>, i: nat, now: real): real
    requires i < |h|
  {
    cfg.burst as real + Gain(cfg.rate, now - h[i].now) - Spent(h, i)
  }

  /** `level` is the least of the capacity and what every past window still allows. */
  ghost predicate IsTightestWindow(cfg: Config, h: seq<Done>, now: real, level: real) {
    && level <= cfg.burst as real
    && (forall i :: 0 <= i < |h| ==> level <= Credit(cfg, h, i, now))
    && (level == cfg.burst as real || exists i :: 0 <= i < |h| && level == Credit(cfg, h, i, now))
  }

  lemma {:induction false} SpentExtends(h: seq<Done>, d: Done, i: nat)
    requires i <= |h|
    ensures Spent(h + [d], i) == Spent(h, i) + Taken(d)
    decreases |h| - i
  {
    if i < |h| {
      SpentExtends(h, d, i + 1);
    } else {
      assert Spent(h + [d], i + 1) == 0.0;
    }
  }

  lemma SpentPastTheEnd(h: seq<Done>, i: nat)
    ensures i >= |h| ==> Spent(h, i) == 0.0
  {
  }

  lemma CreditExtends(cfg: Config, h: seq<Done>, d: Done, i: nat, now: real)
    requires i < |h|
    ensures Credit(cfg, h + [d], i, now)
         == Credit(cfg, h, i, d.now) + Gain(cfg.rate, now - d.now) - Taken(d)
  {
    hide Gain;
    SpentExtends(h, d, i);
    GainAdds(cfg.rate, d.now - h[i].now, now - d.now);
  }

  lemma GainAdds(r: real, a: real, b: real)
    ensures Gain(r, a + b) == Gain(r, a) + Gain(r, b)
  {
  }

  /** One more call keeps the level at the tightest window. */
  lemma TightestWindowExtends(cfg: Config, h: seq<Done>, d: Done, now: real, level: real)
    requires cfg.rate > 0.0 && d.now <= now
    requires IsTightestWindow(cfg, h, d.now, level)
    ensures IsTightestWindow(cfg, h + [d], now, Refill(cfg, level - Taken(d), now - d.now))
  {
    hide Gain;
    var h', after := h + [d], Refill(cfg, level - Taken(d), now - d.now);
    var gained := Gain(cfg.rate, now - d.now);
    SpentExtends(h, d, |h|);
    assert Credit(cfg, h', |h|, now) == cfg.burst as real + gained - Taken(d);
    forall i | 0 <= i < |h| ensures after <= Credit(cfg, h', i, now) {
      CreditExtends(cfg, h, d, i, now);
    }
    if level == cfg.burst as real {
      assert after == cfg.burst as real || after == Credit(cfg, h', |h|, now);
    } else {
      var i :| 0 <= i < |h| && level == Credit(cfg, h, i, d.now);
      CreditExtends(cfg, h, d, i, now);
      assert after == cfg.burst as real || after == Credit(cfg, h', i, now);
    }
  }

  lemma HistoryExtends(cfg: Config, calls: seq<Call>)
    requires cfg.rate > 0.0 && calls != []
    ensures var n, c := |calls| - 1, calls[|calls| - 1];
            History(cfg, calls)
              == History(cfg, calls[..n]) + [Done(c.now, c.cost, ReplyAt(cfg, calls, n) == Granted)]
  {
    hide Gain, Script, After;
    var n := |calls| - 1;
    forall i | 0 <= i < n ensures History(cfg, calls)[i] == History(cfg, calls[..n])[i] {
      assert calls[..n][..i] == calls[..i];
    }
  }

  lemma FirstWindow(cfg: Config, now: real)
    requires cfg.rate > 0.0
    ensures IsTightestWindow(cfg, History(cfg, []), now, LevelAt(cfg, [], now))
  {
  }

  lemma WindowStep(cfg: Config, calls: seq<Call>, now: real)
    requires cfg.rate > 0.0 && NotBefore(calls, now) && TtlHarmless(cfg) && calls != []
    requires var n := |calls| - 1;
             IsTightestWindow(cfg, History(cfg, calls[..n]), calls[n].now, LevelAt(cfg, calls[..n], calls[n].now))
    ensures IsTightestWindow(cfg, History(cfg, calls), now, LevelAt(cfg, calls, now))
  {
    hide Gain, LevelAt, History, ReplyAt, IsTightestWindow, Refill;
    var n := |calls| - 1;
    var level, c := LevelAt(cfg, calls[..n], calls[n].now), calls[n];
    var d := Done(c.now, c.cost, ReplyAt(cfg, calls, n) == Granted);
    LevelStep(cfg, calls, now);
    HistoryExtends(cfg, calls);
    assert Left(level, c.cost) == level - Taken(d);
    TightestWindowExtends(cfg, History(cfg, calls[..n]), d, now, level);
  }

  /** The bucket is exactly the sliding-window bound, for every window start the script has seen. */
  lemma {:induction false} BucketIsTightestWindow(cfg: Config, calls: seq<Call>, now: real)
    requires cfg.rate > 0.0 && NotBefore(calls, now) && TtlHarmless(cfg)
    ensures Refilled(cfg, After(cfg, calls), now) == Some(LevelAt(cfg, calls, now))
    ensures IsTightestWindow(cfg, History(cfg, calls), now, LevelAt(cfg, calls, now))
    decreases |calls|
  {
    hide Gain, LevelAt, History, IsTightestWindow, After, Refilled;
    LevelBetweenCalls(cfg, calls, now);
    if calls == [] {
      FirstWindow(cfg, now);
    } else {
      var n := |calls| - 1;
      PrefixMonotone(calls, n);
      BucketIsTightestWindow(cfg, calls[..n], calls[n].now);
      WindowStep(cfg, calls, now);
    }
  }

  /** No window ending with a call of this cost would exceed burst + rate * length. */
  ghost predicate EveryWindowAllows(cfg: Config, h: seq<Done>, now: real, cost: int) {
    && cost <= cfg.burst
    && forall i :: 0 <= i < |h| ==> Spent(h, i) + cost as real <= cfg.burst as real + Gain(cfg.rate, now - h[i].now)
  }

  lemma TightestWindowDecides(cfg: Config, h: seq<Done>, now: real, level: real, cost: int)
    requires IsTightestWindow(cfg, h, now, level)
    ensures level >= cost as real <==> EveryWindowAllows(cfg, h, now, cost)
  {
    hide Gain;
    assert forall i :: 0 <= i < |h| ==>
      Credit(cfg, h, i, now) == cfg.burst as real + Gain(cfg.rate, now - h[i].now) - Spent(h, i);
  }

  lemma LevelDecides(cfg: Config, calls: seq<Call>, c: Call)
    requires cfg.rate > 0.0 && NotBefore(calls, c.now) && TtlHarmless(cfg)
    ensures ReplyTo(cfg, calls, c) == Verdict(cfg, LevelAt(cfg, calls, c.now), c.cost)
  {
    hide Gain;
    LevelBetweenCalls(cfg, calls, c.now);
  }

  /** A call is granted exactly when every window ending with it allows it; the script never raises. */
  lemma GrantedExactlyWhenEveryWindowAllows(cfg: Config, calls: seq<Call>, c: Call)
    requires cfg.rate > 0.0 && NotBefore(calls, c.now) && TtlHarmless(cfg)
    ensures ReplyTo(cfg, calls, c) == Granted <==> EveryWindowAllows(cfg, History(cfg, calls), c.now, c.cost)
    ensures ReplyTo(cfg, calls, c) != ScriptError
  {
    hide Gain;
    BucketIsTightestWindow(cfg, calls, c.now);
    LevelDecides(cfg, calls, c);
    TightestWindowDecides(cfg, History(cfg, calls), c.now, LevelAt(cfg, calls, c.now), c.cost);
  }

  /** Times do not go back, and whatever was granted was allowed by every window. */
  ghost predicate Admitted(cfg: Config, h: seq<Done>) {
    && (forall i, j :: 0 <= i <= j < |h| ==> h[i].now <= h[j].now)
    && (forall k :: 0 <= k < |h| && h[k].granted ==> EveryWindowAllows(cfg, h[..k], h[k].now, h[k].cost))
  }

  lemma HistoryIsAdmitted(cfg: Config, calls: seq<Call>)
    requires cfg.rate > 0.0 && Monotone(calls) && TtlHarmless(cfg)
    ensures Admitted(cfg, History(cfg, calls))
  {
    hide Gain, Script, After, EveryWindowAllows;
    var h := History(cfg, calls);
    forall k | 0 <= k < |h| && h[k].granted ensures EveryWindowAllows(cfg, h[..k], h[k].now, h[k].cost) {
      PrefixMonotone(calls, k);
      GrantedExactlyWhenEveryWindowAllows(cfg, calls[..k], calls[k]);
      HistoryOfPrefix(cfg, calls, k);
    }
  }

  lemma HistoryOfPrefix(cfg: Config, calls: seq<Call>, k: nat)
    requires cfg.rate > 0.0 && k <= |calls|
    ensures History(cfg, calls)[..k] == History(cfg, calls[..k])
  {
    hide Gain, Script, After;
    forall i | 0 <= i < k ensures History(cfg, calls)[i] == History(cfg, calls[..k])[i] {
      assert calls[..k][..i] == calls[..i];
    }
  }

  lemma AdmittedPrefix(cfg: Config, h: seq<Done>)
    requires Admitted(cfg, h) && h != []
    ensures Admitted(cfg, h[..|h| - 1])
  {
    hide Gain, EveryWindowAllows;
    var before := h[..|h| - 1];
    forall k | 0 <= k < |before| && before[k].granted
      ensures EveryWindowAllows(cfg, before[..k], before[k].now, before[k].cost)
    {
      assert before[..k] == h[..k];
      assert h[k].granted;
    }
  }

  lemma {:induction false} AdmittedWindow(cfg: Config, h: seq<Done>, i: nat)
    requires cfg.rate > 0.0 && Admitted(cfg, h) && i < |h|
    ensures Spent(h, i) <= Max(0.0, cfg.burst as real) + Gain(cfg.rate, h[|h| - 1].now - h[i].now)
    decreases |h|
  {
    hide Gain, EveryWindowAllows, Spent;
    var n := |h| - 1;
    var before, d := h[..n], h[n];
    assert h == before + [d];
    GainMonotone(cfg.rate, 0.0, d.now - h[i].now);
    if d.granted {
      LastGrantFits(cfg, h, i);
    } else {
      SpentExtends(before, d, i);
      if i == n {
        SpentPastTheEnd(before, i);
      } else {
        AdmittedPrefix(cfg, h);
        AdmittedWindow(cfg, before, i);
        GainMonotone(cfg.rate, h[n - 1].now - h[i].now, d.now - h[i].now);
      }
    }
  }

  lemma LastGrantFits(cfg: Config, h: seq<Done>, i: nat)
    requires cfg.rate > 0.0 && Admitted(cfg, h) && i < |h| && h[|h| - 1].granted
    ensures Spent(h, i) <= Max(0.0, cfg.burst as real) + Gain(cfg.rate, h[|h| - 1].now - h[i].now)
  {
    hide Gain, EveryWindowAllows, Spent;
    var n := |h| - 1;
    var before, d := h[..n], h[n];
    assert h == before + [d];
    SpentExtends(before, d, i);
    WindowAllows(cfg, before, d.now, d.cost, i);
    GainMonotone(cfg.rate, 0.0, d.now - h[i].now);
  }

  /** The calls from the i-th to the last take at most the burst plus what refills between them. */
  ghost predicate WindowWithinRate(cfg: Config, calls: seq<Call>, i: nat)
    requires cfg.rate > 0.0 && i < |calls|
  {
    Spent(History(cfg, calls), i)
      <= Max(0.0, cfg.burst as real) + Gain(cfg.rate, calls[|calls| - 1].now - calls[i].now)
  }

  /** Whatever the workers do, no window takes more than the burst plus what refills while it lasts. */
  lemma NoWindowExceedsTheRate(cfg: Config, calls: seq<Call>, i: nat)
    requires cfg.rate > 0.0 && Monotone(calls) && TtlHarmless(cfg)
    requires i < |calls|
    ensures WindowWithinRate(cfg, calls, i)
  {
    hide Gain, Script, After, Spent, Admitted;
    HistoryIsAdmitted(cfg, calls);
    AdmittedWindow(cfg, History(cfg, calls), i);
  }

  lemma WindowAllows(cfg: Config, h: seq<Done>, now: real, cost: int, i: nat)
    requires EveryWindowAllows(cfg, h, now, cost)
    requires i <= |h|
    ensures i < |h| ==> Spent(h, i) + cost as real <= cfg.burst as real + Gain(cfg.rate, now - h[i].now)
    ensures i == |h| ==> Spent(h, i) + cost as real <= cfg.burst as real
  {
    hide Gain;
  }

  /** One jump of the clock back and forth doubles what is granted at one instant: the script takes the way
      forward as new time. */
  lemma ClockStepBackBreaksTheBound()
    ensures var cfg := Config(10, 1.0, true);
            var calls := [Call(100.0, 10), Call(0.0, 1), Call(100.0, 10)];
            && History(cfg, calls) == [Done(100.0, 10, true), Done(0.0, 1, false), Done(100.0, 10, true)]
            && Spent(History(cfg, calls), 0) == 20.0
  {
    var cfg := Config(10, 1.0, true);
    var a, b, c := Call(100.0, 10), Call(0.0, 1), Call(100.0, 10);
    var calls := [a, b, c];
    assert calls[..0] == [] && calls[..1] == [a] && calls[..2] == [a, b];
    assert [a][..0] == [] && [a, b][..1] == [a];
    var s1 := Script(cfg, EMPTY, 100.0, 10);
    assert After(cfg, [a]) == s1.0;
    var s2 := Script(cfg, s1.0, 0.0, 1);
    assert After(cfg, [a, b]) == s2.0;
    var s3 := Script(cfg, s2.0, 100.0, 10);
    assert s1.1 == Granted && s2.1 != Granted && s3.1 == Granted;
    var h := History(cfg, calls);
    assert Spent(h, 2) == 10.0 && Spent(h, 1) == 10.0;
  }

  // ----- Any clock -----

  /** The instant in forward time of a call made at `now` after these calls: a step back of the clock takes
      no time, and a step forward takes as long as it is. */
  function ForwardNow(calls: seq<Call>, now: real): real
    decreases |calls|, 1
  {
    if calls == [] then now
    else
      var n := |calls| - 1;
      Forward(calls)[n].now + Max(0.0, now - calls[n].now)
  }

  /** The same calls in forward time. */
  function Forward(calls: seq<Call>): (r: seq<Call>)
    ensures |r| == |calls|
    decreases |calls|, 0
  {
    if calls == [] then []
    else
      var n := |calls| - 1;
      Forward(calls[..n]) + [Call(ForwardNow(calls[..n], calls[n].now), calls[n].cost)]
  }

  lemma {:induction false} ForwardPrefix(calls: seq<Call>, k: nat)
    requires k <= |calls|
    ensures Forward(calls)[..k] == Forward(calls[..k])
    decreases |calls|
  {
    hide ForwardNow;
    if k == |calls| {
      assert calls[..k] == calls;
    } else {
      var n := |calls| - 1;
      ForwardPrefix(calls[..n], k);
      assert calls[..n][..k] == calls[..k];
      assert Forward(calls)[..k] == Forward(calls[..n])[..k];
    }
  }

  /** Forward time never goes back. */
  lemma {:induction false} ForwardIsOrdered(calls: seq<Call>)
    ensures Monotone(Forward(calls))
    decreases |calls|
  {
    hide ForwardNow, Max;
    if calls != [] {
      var n := |calls| - 1;
      var before, c := Forward(calls[..n]), Forward(calls)[n];
      ForwardIsOrdered(calls[..n]);
      assert n > 0 ==> before[n - 1].now <= c.now by { ForwardAdvances(calls[..n], calls[n].now); }
      assert Forward(calls) == before + [c];
    }
  }

  lemma ForwardAdvances(calls: seq<Call>, now: real)
    ensures calls != [] ==> Forward(calls)[|calls| - 1].now <= ForwardNow(calls, now)
  {
  }

  /** It is the clock itself when that does not go back. */
  lemma {:induction false} ForwardOfOrdered(calls: seq<Call>)
    requires Monotone(calls)
    ensures Forward(calls) == calls
    decreases |calls|
  {
    if calls != [] {
      var n := |calls| - 1;
      ForwardOfOrdered(calls[..n]);
      assert calls[..n] + [calls[n]] == calls;
    }
  }

  /** Both keys were written at `last`. */
  ghost predicate Paired(st: Store, last: real) {
    && st.tokens.Some? && st.tokens.value.expiresAt == last + KEY_TTL
    && st.ts == Some(Entry(last, last + KEY_TTL))
  }

  /** Stores written at two instants agree on what is left, so calls equally long after see the same level. */
  lemma SameLevelAfterwards(cfg: Config, a: Store, b: Store, lastA: real, lastB: real, now: real)
    requires Paired(a, lastA) && Paired(b, lastB) && a.tokens.value.value == b.tokens.value.value
    ensures Refilled(cfg, a, now) == Refilled(cfg, b, lastB + Max(0.0, now - lastA))
    ensures Refilled(cfg, a, now).Some?
  {
    hide Refill;
  }

  lemma {:induction false} ForwardStore(cfg: Config, calls: seq<Call>)
    requires cfg.rate > 0.0
    ensures calls == [] ==> After(cfg, calls) == EMPTY && After(cfg, Forward(calls)) == EMPTY
    ensures calls != [] ==>
              var n := |calls| - 1;
              var a, b := After(cfg, calls), After(cfg, Forward(calls));
              && Paired(a, calls[n].now) && Paired(b, Forward(calls)[n].now)
              && a.tokens.value.value == b.tokens.value.value
    decreases |calls|, 0
  {
    hide Refilled, Left;
    if calls != [] {
      var n := |calls| - 1;
      ForwardLevel(cfg, calls[..n], calls[n].now);
      ForwardPrefix(calls, n);
    }
  }

  /** At every instant the bucket holds what it would hold in forward time, and the script never raises. */
  lemma {:induction false} ForwardLevel(cfg: Config, calls: seq<Call>, now: real)
    requires cfg.rate > 0.0
    ensures Refilled(cfg, After(cfg, calls), now) == Refilled(cfg, After(cfg, Forward(calls)), ForwardNow(calls, now))
    ensures Refilled(cfg, After(cfg, calls), now).Some?
    decreases |calls|, 1
  {
    hide Refilled, After;
    ForwardStore(cfg, calls);
    if calls != [] {
      var n := |calls| - 1;
      SameLevelAfterwards(cfg, After(cfg, calls), After(cfg, Forward(calls)), calls[n].now, Forward(calls)[n].now, now);
    } else {
      EmptyIsFull(cfg, now, now);
    }
  }

  lemma EmptyIsFull(cfg: Config, now: real, later: real)
    ensures Refilled(cfg, EMPTY, now) == Refilled(cfg, EMPTY, later) == Some(cfg.burst as real)
  {
  }

  /** Whatever the clock does, every call is answered as it would be in forward time. */
  lemma ForwardAnswersAlike(cfg: Config, calls: seq<Call>, c: Call)
    requires cfg.rate > 0.0
    ensures ReplyTo(cfg, calls, c) == ReplyTo(cfg, Forward(calls), Call(ForwardNow(calls, c.now), c.cost))
    ensures ReplyTo(cfg, calls, c) != ScriptError
  {
    hide Refilled, After, Verdict, Left;
    ForwardLevel(cfg, calls, c.now);
    assert forall level :: Verdict(cfg, level, c.cost) != ScriptError by { VerdictIsAnAnswer(cfg, c.cost); }
  }

  lemma VerdictIsAnAnswer(cfg: Config, cost: int)
    requires cfg.rate > 0.0
    ensures forall level :: Verdict(cfg, level, cost) != ScriptError
  {
  }

  lemma ForwardRepliesAlike(cfg: Config, calls: seq<Call>, i: nat)
    requires cfg.rate > 0.0 && i < |calls|
    ensures ReplyAt(cfg, calls, i) == ReplyAt(cfg, Forward(calls), i)
  {
    hide ReplyTo;
    ForwardAnswersAlike(cfg, calls[..i], calls[i]);
    ForwardPrefix(calls, i);
    ForwardPrefix(calls, i + 1);
    assert calls[..i + 1][..i] == calls[..i];
    assert Forward(calls)[i] == Forward(calls)[..i + 1][i] == Forward(calls[..i + 1])[i];
  }

  /** Whatever the clock does, a call is granted exactly when every window in forward time that ends with it
      allows it. */
  lemma GrantedExactlyInForwardTime(cfg: Config, calls: seq<Call>, c: Call)
    requires cfg.rate > 0.0 && TtlHarmless(cfg)
    ensures ReplyTo(cfg, calls, c) == Granted <==>
            EveryWindowAllows(cfg, History(cfg, Forward(calls)), ForwardNow(calls, c.now), c.cost)
  {
    hide ReplyTo, History, EveryWindowAllows, Max;
    ForwardAnswersAlike(cfg, calls, c);
    ForwardIsOrdered(calls + [c]);
    ForwardPrefix(calls + [c], |calls|);
    assert (calls + [c])[..|calls|] == calls;
    NextIsNotBefore(calls, c.now);
    GrantedExactlyWhenEveryWindowAllows(cfg, Forward(calls), Call(ForwardNow(calls, c.now), c.cost));
  }

  lemma NextIsNotBefore(calls: seq<Call>, now: real)
    ensures NotBefore(Forward(calls), ForwardNow(calls, now))
  {
    ForwardIsOrdered(calls);
  }

  lemma {:induction false} SameGrantsSameSpent(g: seq<Done>, h: seq<Done>, i: nat)
    requires |g| == |h| && forall k :: 0 <= k < |g| ==> Taken(g[k]) == Taken(h[k])
    ensures Spent(g, i) == Spent(h, i)
    decreases |g| - i
  {
    if i < |g| {
      SameGrantsSameSpent(g, h, i + 1);
    }
  }

  /** Whatever the clock does, no window takes more than the burst plus what refills in forward time: every
      step back lets that much more through than the clock shows. */
  lemma NoWindowExceedsForwardTime(cfg: Config, calls: seq<Call>, i: nat)
    requires cfg.rate > 0.0 && TtlHarmless(cfg) && i < |calls|
    ensures Spent(History(cfg, calls), i)
         <= Max(0.0, cfg.burst as real) + Gain(cfg.rate, Forward(calls)[|calls| - 1].now - Forward(calls)[i].now)
  {
    hide Spent, Gain, ReplyAt, Max;
    var g, h := History(cfg, calls), History(cfg, Forward(calls));
    forall k | 0 <= k < |g| ensures Taken(g[k]) == Taken(h[k]) {
      ForwardRepliesAlike(cfg, calls, k);
      SameCost(calls, k);
    }
    SameGrantsSameSpent(g, h, i);
    ForwardIsOrdered(calls);
    NoWindowExceedsTheRate(cfg, Forward(calls), i);
  }

  lemma SameCost(calls: seq<Call>, k: nat)
    requires k < |calls|
    ensures Forward(calls)[k].cost == calls[k].cost
  {
    ForwardPrefix(calls, k + 1);
    assert Forward(calls)[k] == Forward(calls)[..k + 1][k];
  }

  // ----- Exactly which clocks keep the bound -----

  ghost predicate InOrder(times: seq<real>) {
    forall i, j :: 0 <= i <= j < |times| ==> times[i] <= times[j]
  }

  ghost function Timed(times: seq<real>, costs: seq<int>): (calls: seq<Call>)
    requires |times| == |costs|
    ensures |calls| == |times|
  {
    seq(|times|, i requires 0 <= i < |times| => Call(times[i], costs[i]))
  }

  /** Every window of every prefix of the run stays within the rate. */
  ghost predicate WithinRate(cfg: Config, calls: seq<Call>)
    requires cfg.rate > 0.0
  {
    forall i, n :: 0 <= i < n <= |calls| ==> WindowWithinRate(cfg, calls[..n], i)
  }

  /** Calls made at these times stay within the rate whatever they cost. */
  ghost predicate RateIsKept(cfg: Config, times: seq<real>)
    requires cfg.rate > 0.0
  {
    forall costs: seq<int> | |costs| == |times| :: WithinRate(cfg, Timed(times, costs))
  }

  /** Free calls leave the bucket full. */
  lemma {:induction false} StillFull(cfg: Config, calls: seq<Call>, now: real)
    requires cfg.rate > 0.0 && NotBefore(calls, now) && TtlHarmless(cfg)
    requires forall i :: 0 <= i < |calls| ==> calls[i].cost == 0
    ensures LevelAt(cfg, calls, now) == cfg.burst as real
    decreases |calls|
  {
    hide Gain, After, Script;
    if calls != [] {
      var n := |calls| - 1;
      PrefixMonotone(calls, n);
      StillFull(cfg, calls[..n], calls[n].now);
      LevelStep(cfg, calls, now);
      GainMonotone(cfg.rate, 0.0, now - calls[n].now);
    } else {
      assert LevelAt(cfg, calls, now) == cfg.burst as real;
    }
  }

  /** After free calls, a call that steps back in time still finds the whole burst. */
  lemma StepBackFindsTheBurst(cfg: Config, calls: seq<Call>, c: Call)
    requires cfg.rate > 0.0 && Monotone(calls) && TtlHarmless(cfg)
    requires calls != [] && c.now < calls[|calls| - 1].now
    requires forall i :: 0 <= i < |calls| ==> calls[i].cost == 0
    ensures ReplyTo(cfg, calls, c) == Verdict(cfg, cfg.burst as real, c.cost)
  {
    hide Gain;
    var n := |calls| - 1;
    PrefixMonotone(calls, n);
    StillFull(cfg, calls[..n], calls[n].now);
    LevelBetweenCalls(cfg, calls[..n], calls[n].now);
    GainMonotone(cfg.rate, 0.0, 0.0);
  }

  /** Free calls up to the first step back, then the whole burst, overdraw the window of the two calls. */
  lemma StepBackOverdraws(cfg: Config, calls: seq<Call>, c: Call)
    requires cfg.rate > 0.0 && Monotone(calls) && TtlHarmless(cfg)
    requires calls != [] && c.now < calls[|calls| - 1].now
    requires c.cost == if cfg.burst > 0 then cfg.burst else 0
    requires forall i :: 0 <= i < |calls| ==> calls[i].cost == 0
    ensures !WindowWithinRate(cfg, calls + [c], |calls| - 1)
  {
    hide Gain, Script, After;
    var n, all := |calls| - 1, calls + [c];
    var h := History(cfg, all);
    assert all[..|calls|] == calls;
    StepBackFindsTheBurst(cfg, calls, c);
    assert Taken(h[n]) == 0.0 && Taken(h[n + 1]) == Max(0.0, cfg.burst as real);
    assert Spent(h, n + 2) == 0.0;
    assert Spent(h, n) == Taken(h[n]) + (Taken(h[n + 1]) + Spent(h, n + 2));
    GainStrict(cfg.rate, c.now - calls[n].now, 0.0);
    GainMonotone(cfg.rate, 0.0, 0.0);
  }

  lemma {:induction false} FirstStepBack(times: seq<real>) returns (k: nat)
    requires !InOrder(times)
    ensures k + 1 < |times| && times[k + 1] < times[k] && InOrder(times[..k + 1])
    decreases |times|
  {
    var n := |times| - 1;
    if InOrder(times[..n]) {
      assert times[..n - 1 + 1] == times[..n];
      k := n - 1;
    } else {
      k := FirstStepBack(times[..n]);
      assert times[..n][..k + 1] == times[..k + 1];
    }
  }

  /** With the length of a window read off the clock, so that it may be negative, the bound holds for calls
      of every cost if and only if the clock never goes back. */
  lemma RateIsKeptExactlyWhen(cfg: Config, times: seq<real>)
    requires cfg.rate > 0.0 && TtlHarmless(cfg)
    ensures RateIsKept(cfg, times) <==> InOrder(times)
  {
    hide Gain, WindowWithinRate, History;
    if InOrder(times) {
      forall costs: seq<int>, i, n | |costs| == |times| && 0 <= i < n <= |times|
        ensures WindowWithinRate(cfg, Timed(times, costs)[..n], i)
      {
        NoWindowExceedsTheRate(cfg, Timed(times, costs)[..n], i);
      }
    } else {
      var k := FirstStepBack(times);
      var burst := if cfg.burst > 0 then cfg.burst else 0;
      var costs := seq(|times|, i => if i == k + 1 then burst else 0);
      var calls := Timed(times, costs);
      assert calls[..k + 2] == calls[..k + 1] + [calls[k + 1]];
      assert forall i :: 0 <= i <= k ==> times[..k + 1][i] == times[i];
      StepBackOverdraws(cfg, calls[..k + 1], calls[k + 1]);
      assert !WithinRate(cfg, calls);
    }
  }

  // ----- Key expiry -----

  /** The replies of a whole run. */
  ghost function Replies(cfg: Config, calls: seq<Call>): (rs: seq<Reply>)
    requires cfg.rate > 0.0
    ensures |rs| == |calls|
  {
    seq(|calls|, i requires 0 <= i < |calls| => ReplyAt(cfg, calls, i))
  }

  /** Every run gets the replies a store without expiry would give. */
  ghost predicate ExpiryNeverShows(burst: int, rate: real)
    requires rate > 0.0
  {
    forall calls | Monotone(calls) ::
      Replies(Config(burst, rate, true), calls) == Replies(Config(burst, rate, false), calls)
  }

  lemma {:induction false} SameStoreWithoutExpiry(burst: int, rate: real, calls: seq<Call>)
    requires rate > 0.0 && Monotone(calls) && TtlHarmless(Config(burst, rate, true))
    ensures After(Config(burst, rate, true), calls) == After(Config(burst, rate, false), calls)
    decreases |calls|
  {
    hide Gain;
    if calls != [] {
      var n := |calls| - 1;
      PrefixMonotone(calls, n);
      SameStoreWithoutExpiry(burst, rate, calls[..n]);
      SameLevelWithoutExpiry(burst, rate, calls[..n], calls[n].now);
    }
  }

  lemma SameLevelWithoutExpiry(burst: int, rate: real, calls: seq<Call>, now: real)
    requires rate > 0.0 && NotBefore(calls, now) && TtlHarmless(Config(burst, rate, true))
    requires After(Config(burst, rate, true), calls) == After(Config(burst, rate, false), calls)
    ensures var e, f := Config(burst, rate, true), Config(burst, rate, false);
            Refilled(e, After(e, calls), now) == Refilled(f, After(f, calls), now)
  {
    hide Gain;
    var e, f := Config(burst, rate, true), Config(burst, rate, false);
    StoredShape(e, calls);
    StoredShape(f, calls);
    if calls != [] {
      var st, last := After(e, calls), calls[|calls| - 1].now;
      RefillHidesExpiry(e, st, last, now);
      RefillHidesExpiry(f, st, last, now);
    }
  }

  lemma RepliesDoNotSeeExpiry(burst: int, rate: real, calls: seq<Call>)
    requires rate > 0.0 && Monotone(calls) && TtlHarmless(Config(burst, rate, true))
    ensures Replies(Config(burst, rate, true), calls) == Replies(Config(burst, rate, false), calls)
  {
    hide Gain;
    var e, f := Config(burst, rate, true), Config(burst, rate, false);
    forall i | 0 <= i < |calls| ensures ReplyAt(e, calls, i) == ReplyAt(f, calls, i) {
      PrefixMonotone(calls, i);
      SameStoreWithoutExpiry(burst, rate, calls[..i]);
      SameLevelWithoutExpiry(burst, rate, calls[..i], calls[i].now);
    }
  }

  /** The one-hour expiry is invisible in every run if and only if an hour refills the bucket. */
  lemma ExpiryIsInvisibleExactlyWhen(burst: int, rate: real)
    requires rate > 0.0
    ensures ExpiryNeverShows(burst, rate) <==> rate * KEY_TTL >= burst as real
  {
    if rate * KEY_TTL >= burst as real {
      forall calls | Monotone(calls)
        ensures Replies(Config(burst, rate, true), calls) == Replies(Config(burst, rate, false), calls)
      {
        RepliesDoNotSeeExpiry(burst, rate, calls);
      }
    } else {
      DrainThenWaitAnHour(burst, rate);
    }
  }

  lemma DrainThenWaitAnHour(burst: int, rate: real)
    requires rate > 0.0 && rate * KEY_TTL < burst as real
    ensures !ExpiryNeverShows(burst, rate)
  {
    var calls := [Call(0.0, burst), Call(KEY_TTL, burst)];
    assert Monotone(calls);
    assert calls[..1] == [calls[0]] && [calls[0]][..0] == [];
    var e, f := Config(burst, rate, true), Config(burst, rate, false);
    var one := Store(Some(Entry(0.0, KEY_TTL)), Some(Entry(0.0, KEY_TTL)));
    assert Script(e, EMPTY, 0.0, burst) == (one, Granted);
    assert Script(f, EMPTY, 0.0, burst) == (one, Granted);
    assert After(e, calls[..1]) == one && After(f, calls[..1]) == one;
    assert Refilled(e, one, KEY_TTL) == Some(burst as real);
    assert Refilled(f, one, KEY_TTL) == Some(Refill(f, 0.0, KEY_TTL));
    assert ReplyAt(e, calls, 1) == Granted;
    assert ReplyAt(f, calls, 1) != Granted;
    assert Replies(e, calls)[1] != Replies(f, calls)[1];
  }

  // ----- Refused calls leave no trace -----

  lemma LevelAdvances(cfg: Config, calls: seq<Call>, seen: real, now: real)
    requires cfg.rate > 0.0 && NotBefore(calls, seen) && seen <= now
    ensures LevelAt(cfg, calls, now) == Refill(cfg, LevelAt(cfg, calls, seen), now - seen)
  {
    hide Gain;
    GainMonotone(cfg.rate, 0.0, now - seen);
    if calls != [] {
      var last := calls[|calls| - 1].now;
      GainAdds(cfg.rate, seen - last, now - seen);
      assert now - last == (seen - last) + (now - seen);
      GainMonotone(cfg.rate, 0.0, seen - last);
    }
  }

  /** The calls left when those not kept are erased from a run. */
  ghost function Kept(calls: seq<Call>, keep: seq<bool>): seq<Call>
    requires |calls| == |keep|
  {
    if calls == [] then []
    else
      var n := |calls| - 1;
      Kept(calls[..n], keep[..n]) + if keep[n] then [calls[n]] else []
  }

  ghost function KeptReplies(rs: seq<Reply>, keep: seq<bool>): seq<Reply>
    requires |rs| == |keep|
  {
    if rs == [] then []
    else
      var n := |rs| - 1;
      KeptReplies(rs[..n], keep[..n]) + if keep[n] then [rs[n]] else []
  }

  lemma {:induction false} KeptIsOrdered(calls: seq<Call>, keep: seq<bool>, now: real)
    requires |calls| == |keep| && NotBefore(calls, now)
    ensures NotBefore(Kept(calls, keep), now)
  {
    hide Gain;
    if calls != [] {
      var n := |calls| - 1;
      KeptIsOrdered(calls[..n], keep[..n], calls[n].now);
    }
  }

  /** Every erased call was refused. */
  ghost predicate OnlyRefusedErased(cfg: Config, calls: seq<Call>, keep: seq<bool>)
    requires cfg.rate > 0.0
  {
    && |calls| == |keep|
    && forall i :: 0 <= i < |calls| && !keep[i] ==> ReplyAt(cfg, calls, i) != Granted
  }

  lemma ErasedPrefix(cfg: Config, calls: seq<Call>, keep: seq<bool>)
    requires cfg.rate > 0.0 && OnlyRefusedErased(cfg, calls, keep) && calls != []
    ensures OnlyRefusedErased(cfg, calls[..|calls| - 1], keep[..|calls| - 1])
  {
    var n := |calls| - 1;
    forall i | 0 <= i < n && !keep[i] ensures ReplyAt(cfg, calls[..n], i) != Granted {
      assert calls[..n][..i] == calls[..i];
    }
  }

  lemma {:induction false} SameLevelWithoutRefused(cfg: Config, calls: seq<Call>, keep: seq<bool>, now: real)
    requires cfg.rate > 0.0 && NotBefore(calls, now) && TtlHarmless(cfg)
    requires OnlyRefusedErased(cfg, calls, keep)
    ensures LevelAt(cfg, Kept(calls, keep), now) == LevelAt(cfg, calls, now)
    decreases |calls|
  {
    hide Gain, LevelAt, After, Script;
    if calls != [] {
      var n := |calls| - 1;
      var c := calls[n];
      PrefixMonotone(calls, n);
      ErasedPrefix(cfg, calls, keep);
      SameLevelWithoutRefused(cfg, calls[..n], keep[..n], c.now);
      KeptIsOrdered(calls[..n], keep[..n], c.now);
      LevelStep(cfg, calls, now);
      var rest := Kept(calls[..n], keep[..n]);
      if keep[n] {
        KeptStep(cfg, rest, c, now);
      } else {
        assert ReplyAt(cfg, calls, n) != Granted;
        assert Kept(calls, keep) == rest;
        LevelAdvances(cfg, rest, c.now, now);
      }
    }
  }

  lemma KeptStep(cfg: Config, rest: seq<Call>, c: Call, now: real)
    requires cfg.rate > 0.0 && NotBefore(rest, c.now) && c.now <= now && TtlHarmless(cfg)
    ensures LevelAt(cfg, rest + [c], now) == Refill(cfg, Left(LevelAt(cfg, rest, c.now), c.cost), now - c.now)
  {
    hide Gain;
    var calls := rest + [c];
    assert calls[..|rest|] == rest;
    LevelStep(cfg, calls, now);
  }

  /** Erasing any refused calls from a run changes no other reply, waits included. */
  lemma {:induction false} RefusedCallsAreInvisible(cfg: Config, calls: seq<Call>, keep: seq<bool>)
    requires cfg.rate > 0.0 && Monotone(calls) && TtlHarmless(cfg)
    requires OnlyRefusedErased(cfg, calls, keep)
    ensures Replies(cfg, Kept(calls, keep)) == KeptReplies(Replies(cfg, calls), keep)
    decreases |calls|
  {
    hide Gain, LevelAt, After, Script;
    if calls != [] {
      var n := |calls| - 1;
      var c, rest := calls[n], Kept(calls[..n], keep[..n]);
      PrefixMonotone(calls, n);
      ErasedPrefix(cfg, calls, keep);
      RefusedCallsAreInvisible(cfg, calls[..n], keep[..n]);
      RepliesExtend(cfg, calls[..n], c);
      assert calls[..n] + [c] == calls;
      assert Replies(cfg, calls)[..n] == Replies(cfg, calls[..n]);
      if keep[n] {
        KeptIsOrdered(calls[..n], keep[..n], c.now);
        SameLevelWithoutRefused(cfg, calls[..n], keep[..n], c.now);
        LevelDecides(cfg, calls[..n], c);
        LevelDecides(cfg, rest, c);
        RepliesExtend(cfg, rest, c);
      } else {
        assert Kept(calls, keep) == rest;
      }
    }
  }

  lemma RepliesExtend(cfg: Config, calls: seq<Call>, c: Call)
    requires cfg.rate > 0.0
    ensures Replies(cfg, calls + [c]) == Replies(cfg, calls) + [ReplyTo(cfg, calls, c)]
  {
    var all := calls + [c];
    assert all[..|calls|] == calls;
    forall i | 0 <= i < |calls| ensures Replies(cfg, all)[i] == Replies(cfg, calls)[i] {
      assert all[..i] == calls[..i];
    }
  }

  // ----- The reported wait -----

  lemma {:induction false} LevelWithoutGrants(cfg: Config, calls: seq<Call>, k: nat, now: real)
    requires cfg.rate > 0.0 && NotBefore(calls, now) && TtlHarmless(cfg)
    requires k < |calls| && forall j :: k <= j < |calls| ==> ReplyAt(cfg, calls, j) != Granted
    ensures LevelAt(cfg, calls, now)
         == Refill(cfg, LevelAt(cfg, calls[..k], calls[k].now), now - calls[k].now)
    decreases |calls|
  {
    hide Gain;
    var n := |calls| - 1;
    PrefixMonotone(calls, n);
    LevelStep(cfg, calls, now);
    if k < n {
      var before := calls[..n];
      forall j | k <= j < n ensures ReplyAt(cfg, before, j) != Granted {
        assert before[..j] == calls[..j];
        assert ReplyAt(cfg, calls, j) != Granted;
      }
      assert before[..k] == calls[..k];
      LevelWithoutGrants(cfg, before, k, calls[n].now);
      LevelAdvancesFrom(cfg, LevelAt(cfg, calls[..k], calls[k].now), calls[n].now - calls[k].now, now - calls[n].now);
      assert now - calls[k].now == (calls[n].now - calls[k].now) + (now - calls[n].now);
    }
  }

  lemma LevelAdvancesFrom(cfg: Config, level: real, first: real, second: real)
    requires cfg.rate > 0.0 && first >= 0.0 && second >= 0.0
    ensures Refill(cfg, Refill(cfg, level, first), second) == Refill(cfg, level, first + second)
  {
    hide Gain;
    GainAdds(cfg.rate, first, second);
    GainMonotone(cfg.rate, 0.0, second);
  }

  lemma GainInverts(r: real, missing: real, elapsed: real)
    requires r > 0.0
    ensures Gain(r, elapsed) >= missing <==> elapsed >= missing / r
  {
    assert Gain(r, missing / r) == missing;
    if elapsed >= missing / r {
      GainMonotone(r, missing / r, elapsed);
    } else {
      GainStrict(r, elapsed, missing / r);
    }
  }

  lemma GainStrict(r: real, a: real, b: real)
    requires r > 0.0 && a < b
    ensures Gain(r, a) < Gain(r, b)
  {
  }

  /** The wait is exact: with no grant since the refusal, the same call succeeds from that moment on and
      not before. A call that costs more than the burst never succeeds. */
  lemma WaitIsExact(cfg: Config, calls: seq<Call>, k: nat, now: real)
    requires cfg.rate > 0.0 && NotBefore(calls, now) && TtlHarmless(cfg)
    requires k < |calls| && ReplyAt(cfg, calls, k).Refused?
    requires forall j :: k <= j < |calls| ==> ReplyAt(cfg, calls, j) != Granted
    ensures ReplyTo(cfg, calls, Call(now, calls[k].cost)) == Granted <==>
            calls[k].cost <= cfg.burst && now >= calls[k].now + ReplyAt(cfg, calls, k).wait
  {
    hide Gain;
    PrefixMonotone(calls, k);
    LevelDecides(cfg, calls[..k], calls[k]);
    LevelDecides(cfg, calls, Call(now, calls[k].cost));
    LevelWithoutGrants(cfg, calls, k, now);
    var level := LevelAt(cfg, calls[..k], calls[k].now);
    GainInverts(cfg.rate, calls[k].cost as real - level, now - calls[k].now);
  }

  // ----- The limiter object -----

  function Truncate(x: real): int {
    if x >= 0.0 then x.Floor else -(-x).Floor
  }

  function EffectiveRpm(rpm: Option<real>, envRpm: Option<real>): real {
    match rpm
    case Some(r) => r
    case None => if envRpm.Some? then envRpm.value else DEFAULT_RPM
  }

  function EffectiveBurst(rpm: real, burst: int, envBurst: Option<int>): int {
    if burst != DEFAULT_BURST then burst
    else if envBurst.Some? then envBurst.value
    else if rpm < DEFAULT_BURST as real then (if Truncate(rpm) > 1 then Truncate(rpm) else 1)
    else burst
  }

  /** With the default burst the one-hour expiry is safe for every rate of at least one call an hour. */
  lemma DefaultBurstIsRefilledInAnHour(rpm: real)
    requires rpm > 0.0
    ensures TtlHarmless(Config(EffectiveBurst(rpm, DEFAULT_BURST, None), rpm / 60.0, true)) <==> rpm * 60.0 >= 1.0
  {
    assert rpm / 60.0 * KEY_TTL == rpm * 60.0;
  }

  class TokenBucketRateLimiter {
    const rpm: real
    const refillRate: real
    const burst: int
    var tokens: Option<Entry>
    var ts: Option<Entry>

    /** Attaches to the shared keys as they stand, and changes none of them. */
    constructor (rpm: Option<real>, burst: int, envRpm: Option<real>, envBurst: Option<int>, shared: Store)
      ensures this.rpm == EffectiveRpm(rpm, envRpm)
      ensures this.rpm == if rpm.Some? then rpm.value else if envRpm.Some? then envRpm.value else 324.0
      ensures refillRate == this.rpm / 60.0
      ensures this.burst == EffectiveBurst(this.rpm, burst, envBurst)
      ensures burst != 10 ==> this.burst == burst
      ensures burst == 10 && envBurst.Some? ==> this.burst == envBurst.value
      ensures burst == 10 && envBurst.None? && this.rpm >= 10.0 ==> this.burst == 10
      ensures burst == 10 && envBurst.None? && this.rpm < 10.0 ==>
                && 1 <= this.burst < 10 && (this.burst as real <= this.rpm || this.burst == 1)
                && this.rpm < this.burst as real + 1.0
      ensures Keys() == shared
    {
      var r := EffectiveRpm(rpm, envRpm);
      this.rpm := r;
      this.refillRate := r / 60.0;
      this.burst := EffectiveBurst(r, burst, envBurst);
      this.tokens, this.ts := shared.tokens, shared.ts;
    }

    function Keys(): Store
      reads this
    {
      Store(tokens, ts)
    }

    function Settings(): Config {
      Config(burst, refillRate, true)
    }

    /** One call of the script by some worker at `now`. */
    method Acquire(now: real, cost: int) returns (reply: Reply)
      requires refillRate == rpm / 60.0
      modifies this`tokens, this`ts
      ensures rpm <= 0.0 ==> reply == Refused(86400.0) && Keys() == old(Keys())
      ensures rpm > 0.0 ==> (Keys(), reply) == Script(Settings(), old(Keys()), now, cost)
    {
      if rpm <= 0.0 {
        return Refused(NEVER);
      }
      var current := Live(Settings(), tokens, now);
      var last := Live(Settings(), ts, now);
      var level: real;
      if current.None? {
        level := burst as real;
      } else {
        if last.None? {
          return ScriptError;
        }
        var elapsed := Max(0.0, now - last.value);
        level := Min(burst as real, current.value + Gain(refillRate, elapsed));
      }
      if level >= cost as real {
        level := level - cost as real;
        tokens := Some(Entry(level, now + KEY_TTL));
        ts := Some(Entry(now, now + KEY_TTL));
        reply := Granted;
      } else {
        var missing := cost as real - level;
        var wait := missing / refillRate;
        tokens := Some(Entry(level, now + KEY_TTL));
        ts := Some(Entry(now, now + KEY_TTL));
        reply := Refused(wait);
      }
    }

    method Reset()
      modifies this`tokens, this`ts
      ensures Keys() == EMPTY && tokens == None && ts == None
    {
      tokens, ts := None, None;
    }
  }
}
