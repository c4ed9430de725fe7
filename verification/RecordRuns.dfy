/**
 Every task as a step on the run record: what every sequence of tasks keeps, and why re-analysis ends.
 */
module RecordRuns {
  import opened Options
  import opened Models
  import opened Dedup
  import opened RunRecord
  import opened Reanalysis

  datatype Action =
    | Persist(p: Payload)                                   // persist_results, or a recovered payload
    | Pass(now: real, work: Work)                           // one locked re-analysis pass
    | Repost(now: real, id: Option<int>)                    // the repost sweep, after a successful post
    | Retry(now: real, id: Option<int>, followup: bool)     // the administrator's retry, likewise
    | SetStatus(status: Status)

  function Act(family: Family, r: Record, a: Action): Record {
    match a
    case Persist(p) => Persisted(r, p)
    case Pass(now, work) => Reanalyzed(family, r, now, work)
    case Repost(now, id) => Reposted(r, now, id)
    case Retry(now, id, followup) => Retried(r, now, id, followup)
    case SetStatus(status) => r.(status := status)
  }

  /** Payloads come from the posting task; nothing else is asked of a step. */
  predicate Allowed(a: Action) {
    a.Persist? ==> a.p.FromPosting()
  }

  function After(family: Family, as_: seq<Action>): Record {
    if as_ == [] then NEW else Act(family, After(family, as_[..|as_| - 1]), as_[|as_| - 1])
  }

  predicate AllAllowed(as_: seq<Action>) {
    forall i :: 0 <= i < |as_| ==> Allowed(as_[i])
  }

  // ----- Rows, counters and review ids agree after every task -----

  lemma PersistAgrees(r: Record, p: Payload)
    ensures CountsAgree(Persisted(r, p))
    ensures p.FromPosting() ==> IdHasTime(Persisted(r, p))
  {
    hide CountRows, CountFindings;
    RowsCountAsFindings(p.findings, p.postedAt.Some?, "critical");
    RowsCountAsFindings(p.findings, p.postedAt.Some?, "high");
    RowsCountAsFindings(p.findings, p.postedAt.Some?, "medium");
    RowsCountAsFindings(p.findings, p.postedAt.Some?, "low");
  }

  /** This pass gets as far as changing the rows. */
  predicate ChangesRows(r: Record, a: Action) {
    a.Pass? && a.work.Answered? && LiveAttempts(r, a.now) < ATTEMPT_CAP
  }

  /** Whether the counters are set anew by the last step that changed them or left them behind. */
  predicate Settled(family: Family, as_: seq<Action>) {
    as_ == [] ||
    var n := |as_| - 1;
    if as_[n].Persist? then true
    else if ChangesRows(After(family, as_[..n]), as_[n]) then as_[n].work.recounts
    else Settled(family, as_[..n])
  }

  lemma {:induction false} ActKeepsCounts(family: Family, r: Record, a: Action)
    requires a.Persist? || (if ChangesRows(r, a) then a.work.recounts else CountsAgree(r))
    ensures CountsAgree(Act(family, r, a))
  {
    hide CountRows, CountFindings, MatchAll, RowsAfter, NeedsPosting, PersistedRows;
    MarkingKeepsCounts(r.rows);
    if a.Persist? {
      PersistAgrees(r, a.p);
    }
  }

  lemma {:induction false} ActKeepsTime(family: Family, r: Record, a: Action)
    requires IdHasTime(r) && Allowed(a)
    ensures IdHasTime(Act(family, r, a))
  {
    hide MatchAll, RowsAfter, NeedsPosting, PersistedRows;
  }

  /** Whatever tasks run, in whatever order and wherever they die, a review id never stands without its
      posting time, and the stored counters are those of the stored rows unless the last task that changed
      rows died before its recount. */
  lemma {:induction false} EveryRunIsConsistent(family: Family, as_: seq<Action>)
    requires AllAllowed(as_)
    ensures IdHasTime(After(family, as_))
    ensures Settled(family, as_) ==> CountsAgree(After(family, as_))
    decreases |as_|
  {
    hide Act, Allowed, CountsAgree, IdHasTime, ChangesRows;
    if as_ == [] {
      NewIsConsistent();
    } else {
      var n := |as_| - 1;
      EveryRunIsConsistent(family, as_[..n]);
      ActKeepsTime(family, After(family, as_[..n]), as_[n]);
      if Settled(family, as_) {
        ActKeepsCounts(family, After(family, as_[..n]), as_[n]);
      }
    }
  }

  lemma NewIsConsistent()
    ensures CountsAgree(NEW) && IdHasTime(NEW)
  {
  }

  /** A pass that dies before its recount leaves the counters right if and only if it inserted no row and
      moved none to another severity. */
  lemma {:induction false} CutShortAgreesExactlyWhen(family: Family, r: Record, a: Action)
    requires CountsAgree(r) && r.counts.total.Some?
    requires ChangesRows(r, a) && !a.work.recounts
    ensures var m := MatchAll(family, r.rows, a.work.findings);
            CountsAgree(Act(family, r, a)) <==> m.unmatched == [] && CountsOf(m.rows) == CountsOf(r.rows)
  {
    hide CountRows, MatchAll, FreshRows;
    var m := MatchAll(family, r.rows, a.work.findings);
    var posted := NeedsPosting(m) && a.work.postSucceeds;
    MarkingKeepsCounts(m.rows);
    if m.unmatched == [] {
      assert RowsAfter(m, posted) == if posted then MarkPosted(m.rows) else m.rows;
    }
  }

  // ----- The primary review id -----

  lemma AfterSplit(family: Family, as_: seq<Action>, i: nat)
    requires i < |as_|
    ensures After(family, as_[..i + 1]) == Act(family, After(family, as_[..i]), as_[i])
  {
    assert as_[..i + 1][..i] == as_[..i];
  }

  /** The record after these steps from `r` on. */
  function Onward(family: Family, r: Record, as_: seq<Action>): Record
    decreases |as_|
  {
    if as_ == [] then r else Onward(family, Act(family, r, as_[0]), as_[1..])
  }

  lemma {:induction false} AfterIsOnward(family: Family, as_: seq<Action>, bs: seq<Action>)
    ensures After(family, as_ + bs) == Onward(family, After(family, as_), bs)
    decreases |bs|
  {
    hide Act;
    if bs == [] {
      assert as_ + bs == as_;
    } else {
      AfterIsOnward(family, as_ + [bs[0]], bs[1..]);
      assert as_ + [bs[0]] + bs[1..] == as_ + bs;
      assert (as_ + [bs[0]])[..|as_|] == as_;
    }
  }

  /** The id of the last repost that got one, or `id` when there is none. */
  function LastPostedId(id: Option<int>, as_: seq<Action>): Option<int>
    decreases |as_|
  {
    if as_ == [] then id
    else LastPostedId(if as_[0].Repost? && Truthy(as_[0].id) then as_[0].id else id, as_[1..])
  }

  predicate NothingPersisted(as_: seq<Action>) {
    forall i :: 0 <= i < |as_| ==> !as_[i].Persist?
  }

  lemma {:induction false} SetIdAfterStep(family: Family, r: Record, a: Action)
    requires r.reviewId.Some? && !a.Persist?
    ensures Act(family, r, a).reviewId == if a.Repost? && Truthy(a.id) then a.id else r.reviewId
  {
    hide MatchAll, RowsAfter;
  }

  /** Once set, the review id is that of the last repost, until results are stored again: no pass and no
      administrator's retry touches it. */
  lemma {:induction false} ReviewIdFollowsReposts(family: Family, r: Record, as_: seq<Action>)
    requires r.reviewId.Some? && NothingPersisted(as_)
    ensures Onward(family, r, as_).reviewId == LastPostedId(r.reviewId, as_)
    decreases |as_|
  {
    hide Act;
    if as_ != [] {
      SetIdAfterStep(family, r, as_[0]);
      ReviewIdFollowsReposts(family, Act(family, r, as_[0]), as_[1..]);
    }
  }

  /** The same steps when every repost gets the id `x`. */
  function WithPostedId(as_: seq<Action>, x: Option<int>): (bs: seq<Action>)
    ensures |bs| == |as_|
  {
    seq(|as_|, i requires 0 <= i < |as_| => if as_[i].Repost? then Repost(as_[i].now, x) else as_[i])
  }

  predicate Reposts(as_: seq<Action>) {
    exists i :: 0 <= i < |as_| && as_[i].Repost?
  }

  lemma {:induction false} LastOfSameId(id: Option<int>, as_: seq<Action>, x: Option<int>)
    requires Truthy(x)
    ensures LastPostedId(id, WithPostedId(as_, x)) == if Reposts(as_) then x else id
    decreases |as_|
  {
    if as_ != [] {
      var bs := WithPostedId(as_, x);
      assert bs[1..] == WithPostedId(as_[1..], x);
      LastOfSameId(if bs[0].Repost? then x else id, as_[1..], x);
      assert Reposts(as_) <==> as_[0].Repost? || Reposts(as_[1..]) by {
        assert forall i :: 0 < i < |as_| ==> as_[i] == as_[1..][i - 1];
      }
    }
  }

  lemma {:induction false} WithoutReposts(id: Option<int>, as_: seq<Action>)
    requires !Reposts(as_)
    ensures LastPostedId(id, as_) == id
    decreases |as_|
  {
    if as_ != [] {
      assert forall i :: 0 < i < |as_| ==> as_[i] == as_[1..][i - 1];
      WithoutReposts(id, as_[1..]);
    }
  }

  /** After any run that set an id, it survives further steps, whatever ids their reposts get, if and only if
      none of them is a repost.  The sweep selects only runs without a posting time, which a set id always
      comes with, so a repost of such a run acts on a stale selection. */
  lemma {:induction false} ReviewIdIsKeptExactlyWhen(family: Family, before: seq<Action>, as_: seq<Action>)
    requires After(family, before).reviewId.Some? && NothingPersisted(as_)
    ensures (forall x :: After(family, before + WithPostedId(as_, x)).reviewId == After(family, before).reviewId)
       <==> !Reposts(as_)
  {
    hide Onward, LastPostedId, After;
    var r := After(family, before);
    forall x ensures After(family, before + WithPostedId(as_, x)).reviewId
                  == LastPostedId(r.reviewId, WithPostedId(as_, x))
    {
      AfterIsOnward(family, before, WithPostedId(as_, x));
      ReviewIdFollowsReposts(family, r, WithPostedId(as_, x));
    }
    if Reposts(as_) {
      var x := Some(if r.reviewId == Some(1) then 2 else 1);
      LastOfSameId(r.reviewId, as_, x);
      assert After(family, before + WithPostedId(as_, x)).reviewId == x;
    } else {
      forall x ensures After(family, before + WithPostedId(as_, x)).reviewId == r.reviewId {
        WithoutReposts(r.reviewId, WithPostedId(as_, x));
      }
    }
  }

  /** Two sweeps that selected the same unposted run post it twice, and the second id replaces the first. */
  lemma {:induction false} StaleRepostReplacesId(family: Family)
    ensures var stored := Persist(Payload([], None, None, false));
            var as_ := [stored, Repost(1.0, Some(7)), Repost(2.0, Some(8))];
            && AllAllowed(as_)
            && After(family, as_[..2]).reviewId == Some(7)
            && After(family, as_).reviewId == Some(8)
  {
    var stored := Persist(Payload([], None, None, false));
    var as_ := [stored, Repost(1.0, Some(7)), Repost(2.0, Some(8))];
    assert as_[..3] == as_;
    AfterSplit(family, as_, 0);
    AfterSplit(family, as_, 1);
    AfterSplit(family, as_, 2);
  }

  // ----- Attempts -----

  function Passes(as_: seq<Action>): nat {
    if as_ == [] then 0 else (if as_[|as_| - 1].Pass? then 1 else 0) + Passes(as_[..|as_| - 1])
  }

  /** The pass gets past the cap, so it may call the LLM. */
  predicate MayCallLlm(r: Record, now: real) {
    LiveAttempts(r, now) < ATTEMPT_CAP
  }

  function LlmCalls(family: Family, as_: seq<Action>): nat {
    if as_ == [] then 0
    else
      var n := |as_| - 1;
      LlmCalls(family, as_[..n])
      + if as_[n].Pass? && MayCallLlm(After(family, as_[..n]), as_[n].now) then 1 else 0
  }

  /** Each pass finds the attempts key of the one before it still alive. */
  ghost predicate KeyLives(family: Family, as_: seq<Action>) {
    forall i :: 0 <= i < |as_| && as_[i].Pass? ==>
      var attempts := After(family, as_[..i]).attempts;
      attempts.Some? ==> as_[i].now < attempts.value.expiresAt
  }

  lemma {:induction false} PrefixLives(family: Family, as_: seq<Action>, n: nat)
    requires KeyLives(family, as_) && n <= |as_|
    ensures KeyLives(family, as_[..n])
  {
    hide After;
    forall i | 0 <= i < n && as_[i].Pass?
      ensures After(family, as_[..n][..i]).attempts.Some? ==>
                as_[i].now < After(family, as_[..n][..i]).attempts.value.expiresAt
    {
      assert as_[..n][..i] == as_[..i];
    }
  }

  lemma {:induction false} OnlyPassesCount(family: Family, r: Record, a: Action)
    ensures !a.Pass? ==> Act(family, r, a).attempts == r.attempts
    ensures a.Pass? ==> Act(family, r, a).attempts == Counted(r, a.now).attempts
    ensures a.Pass? && LiveAttempts(r, a.now) >= ATTEMPT_CAP ==> !Act(family, r, a).reanalysisNeeded
  {
    hide MatchAll, RowsAfter;
  }

  /** While the attempts key lives, the LLM is called for at most three passes of a run, and every pass
      from the fourth on ends with the flag cleared, even if earlier passes raised or the flag was set
      again in between. */
  lemma {:induction false} AttemptsAreCapped(family: Family, as_: seq<Action>)
    requires KeyLives(family, as_)
    ensures LlmCalls(family, as_) <= ATTEMPT_CAP && LlmCalls(family, as_) <= Passes(as_)
    ensures var r := After(family, as_);
            && (Passes(as_) == 0 <==> r.attempts.None?)
            && (Passes(as_) > 0 ==> r.attempts.value.count == Passes(as_))
    ensures as_ != [] && as_[|as_| - 1].Pass? && Passes(as_) > ATTEMPT_CAP ==> !After(family, as_).reanalysisNeeded
    decreases |as_|
  {
    hide Act;
    if as_ != [] {
      var n := |as_| - 1;
      PrefixLives(family, as_, n);
      AttemptsAreCapped(family, as_[..n]);
      OnlyPassesCount(family, After(family, as_[..n]), as_[n]);
    }
  }

  /** Whenever a pass that got an answer takes a run off the list, every row that was waiting is posted, and so
      is every new row that has a comment. */
  lemma {:induction false} ClearedMeansPosted(family: Family, as_: seq<Action>, i: nat)
    requires i < |as_| && ChangesRows(After(family, as_[..i]), as_[i])
    requires After(family, as_[..i]).reanalysisNeeded && !After(family, as_[..i + 1]).reanalysisNeeded
    ensures var before, after := After(family, as_[..i]), After(family, as_[..i + 1]);
            && |before.rows| <= |after.rows|
            && (forall j :: 0 <= j < |before.rows| ==> after.rows[j].isPosted)
            && (as_[i].work.postSucceeds || |after.rows| == |before.rows|)
  {
    hide After, Reanalyzed;
    var r, w := After(family, as_[..i]), as_[i].work;
    AfterSplit(family, as_, i);
    OtherPasses(family, r, as_[i].now, w);
    FlagSurvivesExactlyWhen(family, r, as_[i].now, w.findings, w.postSucceeds);
    PassConservesFindings(family, r, as_[i].now, w.findings, w.postSucceeds, true);
    assert w == Answered(w.findings, w.postSucceeds, true);
  }

  // ----- Why the sweep runs out of work -----

  function NonNegative(x: int): nat {
    if x < 0 then 0 else x
  }

  /** Passes a run may still get before its flag is gone for good. */
  function PassesLeft(r: Record): nat {
    if !r.reanalysisNeeded then 0
    else 1 + NonNegative(ATTEMPT_CAP - if r.attempts.Some? then r.attempts.value.count else 0)
  }

  function TotalLeft(rs: seq<Record>): nat {
    if rs == [] then 0 else PassesLeft(rs[0]) + TotalLeft(rs[1..])
  }

  datatype SweepStep = SweepStep(run: nat, now: real, work: Work)

  /** The sweep passes over a flagged run whose attempts key, if any, is alive. */
  predicate CanPass(rs: seq<Record>, s: SweepStep) {
    && s.run < |rs| && rs[s.run].reanalysisNeeded
    && (rs[s.run].attempts.Some? ==> s.now < rs[s.run].attempts.value.expiresAt)
  }

  /** The passes can be made one after another from these records. */
  ghost predicate Sweepable(family: Family, rs: seq<Record>, steps: seq<SweepStep>)
    decreases |steps|
  {
    steps != [] ==>
      && CanPass(rs, steps[0])
      && Sweepable(family, rs[steps[0].run := Reanalyzed(family, rs[steps[0].run], steps[0].now, steps[0].work)], steps[1..])
  }

  lemma {:induction false} PassUsesOne(family: Family, r: Record, now: real, work: Work)
    requires r.reanalysisNeeded && (r.attempts.Some? ==> now < r.attempts.value.expiresAt)
    ensures PassesLeft(Reanalyzed(family, r, now, work)) < PassesLeft(r)
  {
    hide MatchAll, RowsAfter;
  }

  lemma {:induction false} TotalAfterUpdate(rs: seq<Record>, i: nat, r: Record)
    requires i < |rs|
    ensures TotalLeft(rs[i := r]) + PassesLeft(rs[i]) == TotalLeft(rs) + PassesLeft(r)
  {
    hide PassesLeft;
    if i == 0 {
      assert rs[i := r][1..] == rs[1..];
    } else {
      assert rs[i := r][1..] == rs[1..][i - 1 := r];
      TotalAfterUpdate(rs[1..], i - 1, r);
    }
  }

  /** Unless a flag is set anew, the sweep makes no more passes over all runs together than the attempts
      they have left, whatever each pass meets. */
  lemma {:induction false} SweepEnds(family: Family, rs: seq<Record>, steps: seq<SweepStep>)
    requires Sweepable(family, rs, steps)
    ensures |steps| <= TotalLeft(rs)
    decreases |steps|
  {
    hide Reanalyzed, PassesLeft;
    if steps != [] {
      var s := steps[0];
      var next := Reanalyzed(family, rs[s.run], s.now, s.work);
      PassUsesOne(family, rs[s.run], s.now, s.work);
      TotalAfterUpdate(rs, s.run, next);
      SweepEnds(family, rs[s.run := next], steps[1..]);
    }
  }
}
