/**
 The locks of the periodic sweeps: any number of workers, a lock per run taken with SET NX EX and deleted
 unconditionally, and tasks that are killed at a hard time limit.

 Redis stores only a placeholder under the lock key.  `owner` is kept here to say who took it; no step
 looks at it.
 */
module SweepLease {
  import opened Options

  datatype Lock = Lock(expiresAt: real, owner: nat)

  /** A worker is idle, runs a sweep, or is inside the critical section of one run of its sweep. */
  datatype Worker = Idle | Sweeping(started: real) | Inside(started: real, key: string)

  datatype State = State(now: real, locks: map<string, Lock>, workers: map<nat, Worker>)

  datatype Action =
    | Tick(seconds: real)
    | Start(w: nat)
    | TryLock(w: nat, key: string)
    | Leave(w: nat)          // the `finally` clause: delete the lock key
    | Finish(w: nat)
    | Kill(w: nat)

  datatype Limits = Limits(task: real, lock: real)

  const INITIAL := State(0.0, map[], map[])

  function WorkerOf(s: State, w: nat): Worker {
    if w in s.workers then s.workers[w] else Idle
  }

  predicate Locked(s: State, key: string) {
    key in s.locks && s.now < s.locks[key].expiresAt
  }

  /** Time may pass only while no running task is past its limit. */
  ghost predicate MayPass(l: Limits, s: State, seconds: real) {
    seconds >= 0.0 &&
    forall w :: w in s.workers && !s.workers[w].Idle? ==> s.now + seconds <= s.workers[w].started + l.task
  }

  ghost function Step(l: Limits, s: State, a: Action): Option<State> {
    match a
    case Tick(seconds) => if MayPass(l, s, seconds) then Some(s.(now := s.now + seconds)) else None
    case Start(w) =>
      if WorkerOf(s, w).Idle? then Some(s.(workers := s.workers[w := Sweeping(s.now)])) else None
    case TryLock(w, key) =>
      if !WorkerOf(s, w).Sweeping? then None
      else if Locked(s, key) then Some(s)
      else Some(s.(locks := s.locks[key := Lock(s.now + l.lock, w)],
                   workers := s.workers[w := Inside(s.workers[w].started, key)]))
    case Leave(w) =>
      if !WorkerOf(s, w).Inside? then None
      else Some(s.(locks := s.locks - {s.workers[w].key}, workers := s.workers[w := Sweeping(s.workers[w].started)]))
    case Finish(w) =>
      if WorkerOf(s, w).Sweeping? then Some(s.(workers := s.workers[w := Idle])) else None
    case Kill(w) => Some(s.(workers := s.workers[w := Idle]))
  }

  /** The state after a run, or `None` if some action was not possible. */
  ghost function After(l: Limits, run: seq<Action>): Option<State> {
    if run == [] then Some(INITIAL)
    else
      var s :- After(l, run[..|run| - 1]);
      Step(l, s, run[|run| - 1])
  }

  /** No two workers are inside the critical section of the same key. */
  ghost predicate Exclusive(s: State) {
    forall v, w :: WorkerOf(s, v).Inside? && WorkerOf(s, w).Inside? && s.workers[v].key == s.workers[w].key ==> v == w
  }

  /** Every worker inside a critical section still owns a live lock for it. */
  ghost predicate InsideOwnsLock(l: Limits, s: State) {
    forall w :: w in s.workers && !s.workers[w].Idle? ==>
      && s.workers[w].started <= s.now <= s.workers[w].started + l.task
      && (s.workers[w].Inside? ==>
            && s.workers[w].key in s.locks
            && s.locks[s.workers[w].key].owner == w
            && s.workers[w].started + l.lock <= s.locks[s.workers[w].key].expiresAt)
  }

  ghost predicate SafeLimits(l: Limits) {
    0.0 <= l.task < l.lock
  }

  lemma StepKeepsOwnership(l: Limits, s: State, a: Action)
    requires SafeLimits(l) && InsideOwnsLock(l, s) && Step(l, s, a).Some?
    ensures InsideOwnsLock(l, Step(l, s, a).value)
  {
    var r := Step(l, s, a).value;
    forall w | w in r.workers && !r.workers[w].Idle? && r.workers[w].Inside?
      ensures && r.workers[w].key in r.locks
              && r.locks[r.workers[w].key].owner == w
              && r.workers[w].started + l.lock <= r.locks[r.workers[w].key].expiresAt
    {
      if w in s.workers && r.workers[w] == s.workers[w] {
        assert Locked(s, s.workers[w].key);
      }
    }
  }

  lemma {:induction false} OwnershipHolds(l: Limits, run: seq<Action>)
    requires SafeLimits(l) && After(l, run).Some?
    ensures InsideOwnsLock(l, After(l, run).value)
    decreases |run|
  {
    hide Step, InsideOwnsLock;
    if run == [] {
      NobodyInside(l);
    } else {
      var n := |run| - 1;
      OwnershipHolds(l, run[..n]);
      StepKeepsOwnership(l, After(l, run[..n]).value, run[n]);
    }
  }

  lemma NobodyInside(l: Limits)
    ensures InsideOwnsLock(l, INITIAL)
  {
  }

  /** Whatever the workers do, no two are ever inside the same run's critical section, and the
      unconditional delete only ever removes the deleting worker's own live lock. */
  lemma LeasesExclude(l: Limits, run: seq<Action>)
    requires SafeLimits(l) && After(l, run).Some?
    ensures Exclusive(After(l, run).value)
    ensures forall w :: WorkerOf(After(l, run).value, w).Inside? ==>
              var s := After(l, run).value;
              Locked(s, s.workers[w].key) && s.locks[s.workers[w].key].owner == w
  {
    hide Step, After;
    OwnershipHolds(l, run);
  }

  /** Leaving frees the lock, so that another worker can take it at once. */
  lemma LeavingFrees(l: Limits, s: State, v: nat, w: nat)
    requires WorkerOf(s, v).Inside? && WorkerOf(s, w).Sweeping? && l.lock > 0.0
    ensures var key := s.workers[v].key;
            var left := Step(l, s, Leave(v));
            && left.Some? && !Locked(left.value, key)
            && Step(l, left.value, TryLock(w, key)).Some?
            && WorkerOf(Step(l, left.value, TryLock(w, key)).value, w) == Inside(s.workers[w].started, key)
  {
  }

  /** A worker that finds a live lock does not get in. */
  lemma LockKeepsOut(l: Limits, s: State, w: nat, key: string)
    requires WorkerOf(s, w).Sweeping? && Locked(s, key)
    ensures Step(l, s, TryLock(w, key)) == Some(s)
  {
  }

  /** No lock outlives its lifetime, whoever was killed while holding it. */
  lemma {:induction false} LocksExpire(l: Limits, run: seq<Action>, key: string)
    requires l.lock >= 0.0 && After(l, run).Some?
    ensures var s := After(l, run).value; key in s.locks ==> s.locks[key].expiresAt <= s.now + l.lock
    decreases |run|
  {
    if run != [] {
      LocksExpire(l, run[..|run| - 1], key);
    }
  }

  /** The sweeps' own limits are safe. */
  lemma SweepsAreSafe(run: seq<Action>)
    requires After(Limits(180.0, 300.0), run).Some?
    ensures Exclusive(After(Limits(180.0, 300.0), run).value)
  {
    hide After;
    LeasesExclude(Limits(180.0, 300.0), run);
  }

  lemma AfterSnoc(l: Limits, run: seq<Action>, a: Action)
    requires After(l, run).Some?
    ensures After(l, run + [a]) == Step(l, After(l, run).value, a)
  {
    assert (run + [a])[..|run|] == run;
  }

  /** With a task limit at or above the lock's lifetime two workers can meet. */
  lemma SlowTasksMeet(l: Limits, key: string) returns (run: seq<Action>)
    requires 0.0 < l.lock <= l.task
    ensures After(l, run).Some? && !Exclusive(After(l, run).value)
  {
    hide After;
    run := [];
    assert After(l, run) == Some(INITIAL) by { EmptyRun(l); }
    AfterSnoc(l, run, Start(1));
    run := run + [Start(1)];
    AfterSnoc(l, run, TryLock(1, key));
    run := run + [TryLock(1, key)];
    AfterSnoc(l, run, Tick(l.lock));
    run := run + [Tick(l.lock)];
    AfterSnoc(l, run, Start(2));
    run := run + [Start(2)];
    AfterSnoc(l, run, TryLock(2, key));
    run := run + [TryLock(2, key)];
    var s := After(l, run).value;
    assert WorkerOf(s, 1) == Inside(0.0, key) && WorkerOf(s, 2) == Inside(l.lock, key);
  }

  lemma EmptyRun(l: Limits)
    ensures After(l, []) == Some(INITIAL)
  {
  }

  /** Mutual exclusion in every run holds if and only if tasks are killed before their locks expire. */
  lemma ExclusionExactlyWhen(l: Limits)
    requires 0.0 <= l.task && 0.0 < l.lock
    ensures (forall run :: After(l, run).Some? ==> Exclusive(After(l, run).value)) <==> l.task < l.lock
  {
    hide After;
    if l.task < l.lock {
      forall run | After(l, run).Some? ensures Exclusive(After(l, run).value) {
        LeasesExclude(l, run);
      }
    } else {
      var run := SlowTasksMeet(l, "k");
    }
  }
}
