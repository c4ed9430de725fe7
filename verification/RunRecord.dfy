/**
 The stored record of one analysis run, its finding rows, and every task that writes them.
 */
module RunRecord {
  import opened Options
  import opened Models
  import opened Dedup

  const ATTEMPT_CAP := 3

  /** What the columns of a stored finding hold. */
  const PATH_COLUMN := 500
  const CATEGORY_COLUMN := 20
  const TITLE_COLUMN := 200
  const RAW_CATEGORY_COLUMN := 50

  /** Lifetime of the attempts key, renewed by every pass, in seconds. */
  const ATTEMPTS_TTL := 86400.0

  datatype Row = Row(
    filePath: string,
    lineStart: int,
    lineEnd: int,
    severity: string,
    category: string,
    title: string,
    explanation: string,
    remediation: string,
    confidence: string,
    source: string,
    rawCategory: Option<string>,
    isPosted: bool)

  datatype Status = Pending | Running | Completed | Failed | Skipped

  datatype Attempts = Attempts(count: int, expiresAt: real)

  datatype Counts = Counts(total: Option<nat>, critical: nat, high: nat, medium: nat, low: nat)

  datatype Record = Record(
    status: Status,
    rows: seq<Row>,
    counts: Counts,
    reviewId: Option<int>,
    postedAt: Option<real>,
    reanalysisNeeded: bool,
    attempts: Option<Attempts>)

  const NEW := Record(Pending, [], Counts(None, 0, 0, 0, 0), None, None, false, None)

  // ----- Rows and counters -----

  function Take(s: string, n: nat): string {
    if |s| <= n then s else s[..n]
  }

  function TakeOption(s: Option<string>, n: nat): Option<string> {
    if s.Some? && s.value != "" then Some(Take(s.value, n)) else None
  }

  predicate Inline(f: Finding) {
    f.isInDiff && f.diffLine.Some?
  }

  function RowFor(f: Finding, source: string, isPosted: bool): Row {
    Row(Take(f.filePath, PATH_COLUMN), f.lineStart, f.lineEnd, Lower(f.severity), Take(f.category, CATEGORY_COLUMN),
        Take(f.title, TITLE_COLUMN),
        f.explanation, f.remediation, Lower(f.confidence), source, TakeOption(f.rawCategory, RAW_CATEGORY_COLUMN), isPosted)
  }

  function CountRows(rows: seq<Row>, severity: string): nat {
    if rows == [] then 0 else (if Lower(rows[0].severity) == severity then 1 else 0) + CountRows(rows[1..], severity)
  }

  function CountFindings(findings: seq<Finding>, severity: string): nat {
    if findings == [] then 0
    else (if Lower(findings[0].severity) == severity then 1 else 0) + CountFindings(findings[1..], severity)
  }

  function CountsOf(rows: seq<Row>): Counts {
    Counts(Some(|rows|), CountRows(rows, "critical"), CountRows(rows, "high"), CountRows(rows, "medium"),
           CountRows(rows, "low"))
  }

  /** Once results are stored, the counters are the rows'. */
  predicate CountsAgree(r: Record) {
    && (r.counts.total.Some? ==> r.counts == CountsOf(r.rows))
    && (r.counts.total.None? ==> r.rows == [])
  }

  /** A review id comes with its posting time. */
  predicate IdHasTime(r: Record) {
    r.reviewId.Some? ==> r.postedAt.Some?
  }

  /** Every row of a list is marked posted. */
  function MarkPosted(rows: seq<Row>): (r: seq<Row>)
    ensures |r| == |rows|
  {
    seq(|rows|, i requires 0 <= i < |rows| => rows[i].(isPosted := true))
  }

  /** How often the severity occurs among the rows. */
  lemma {:induction false} CountIsMultiplicity(rows: seq<Row>, severity: string)
    ensures CountRows(rows, severity) == multiset(Severities(rows))[severity]
  {
    if rows != [] {
      CountIsMultiplicity(rows[1..], severity);
      assert Severities(rows) == [Lower(rows[0].severity)] + Severities(rows[1..]);
    }
  }

  function Severities(rows: seq<Row>): (r: seq<string>)
    ensures |r| == |rows|
  {
    seq(|rows|, i requires 0 <= i < |rows| => Lower(rows[i].severity))
  }

  lemma {:induction false} CountsIgnoreText(a: seq<Row>, b: seq<Row>, severity: string)
    requires |a| == |b| && forall i :: 0 <= i < |a| ==> a[i].severity == b[i].severity
    ensures CountRows(a, severity) == CountRows(b, severity)
  {
    if a != [] {
      CountsIgnoreText(a[1..], b[1..], severity);
    }
  }

  /** The same rows, every one of them posted. */
  ghost predicate AllPosted(before: seq<Row>, after: seq<Row>) {
    |after| == |before| && forall i :: 0 <= i < |after| ==> after[i] == before[i].(isPosted := true)
  }

  lemma MarkingKeepsCounts(rows: seq<Row>)
    ensures CountsOf(MarkPosted(rows)) == CountsOf(rows)
  {
    var marked := MarkPosted(rows);
    CountsIgnoreText(marked, rows, "critical");
    CountsIgnoreText(marked, rows, "high");
    CountsIgnoreText(marked, rows, "medium");
    CountsIgnoreText(marked, rows, "low");
  }

  // ----- Persisting results -----

  /** What the posting task hands over: an id only together with a posting time. */
  datatype Payload = Payload(findings: seq<Finding>, reviewId: Option<int>, postedAt: Option<real>, degraded: bool) {

    predicate FromPosting() {
      reviewId.Some? ==> postedAt.Some?
    }
  }

  function PersistedRows(findings: seq<Finding>, reviewPosted: bool): (rows: seq<Row>)
    ensures |rows| == |findings|
  {
    seq(|findings|, i requires 0 <= i < |findings| =>
      RowFor(findings[i], Lower(findings[i].source), reviewPosted && Inline(findings[i])))
  }

  /** Only a non-negative number is an id. */
  function StoredId(id: Option<int>): Option<int> {
    if id.Some? && id.value >= 0 then id else None
  }

  /** The record after one transaction that stores the results. */
  function WithResults(r: Record, p: Payload): Record {
    r.(status := Completed,
       rows := PersistedRows(p.findings, p.postedAt.Some?),
       counts := Counts(Some(|p.findings|), CountFindings(p.findings, "critical"), CountFindings(p.findings, "high"),
                        CountFindings(p.findings, "medium"), CountFindings(p.findings, "low")),
       reviewId := StoredId(p.reviewId),
       postedAt := p.postedAt)
  }

  /** A degraded analysis also asks for another one. */
  function Persisted(r: Record, p: Payload): Record {
    WithResults(r, p).(reanalysisNeeded := r.reanalysisNeeded || p.degraded)
  }

  lemma {:induction false} RowsCountAsFindings(findings: seq<Finding>, posted: bool, severity: string)
    ensures CountRows(PersistedRows(findings, posted), severity) == CountFindings(findings, severity)
  {
    if findings != [] {
      var rows := PersistedRows(findings, posted);
      assert rows[1..] == PersistedRows(findings[1..], posted);
      LowerTwice(findings[0].severity);
      RowsCountAsFindings(findings[1..], posted, severity);
    }
  }

  lemma FindingsCountRows(findings: seq<Finding>, posted: bool, severity: string)
    ensures CountFindings(findings, severity) == multiset(Severities(PersistedRows(findings, posted)))[severity]
  {
    RowsCountAsFindings(findings, posted, severity);
    CountIsMultiplicity(PersistedRows(findings, posted), severity);
  }

  /** A stored row tells the finding: where it is as far as the columns reach, how it rates, and its text;
      it counts as posted exactly when the review was posted with a comment for it. */
  predicate Describes(row: Row, f: Finding, reviewPosted: bool) {
    && |row.filePath| <= 500 && |row.category| <= 20 && |row.title| <= 200
    && row.filePath <= f.filePath && (|f.filePath| <= 500 ==> row.filePath == f.filePath)
    && row.category <= f.category && (|f.category| <= 20 ==> row.category == f.category)
    && row.title <= f.title && (|f.title| <= 200 ==> row.title == f.title)
    && row.lineStart == f.lineStart && row.lineEnd == f.lineEnd
    && row.severity == Lower(f.severity) && row.confidence == Lower(f.confidence)
    && row.explanation == f.explanation && row.remediation == f.remediation
    && (row.rawCategory.Some? <==> f.rawCategory.Some? && f.rawCategory.value != "")
    && (row.rawCategory.Some? ==>
          && row.rawCategory.value <= f.rawCategory.value
          && (|f.rawCategory.value| <= 50 ==> row.rawCategory == f.rawCategory))
    && (row.isPosted <==> reviewPosted && f.isInDiff && f.diffLine.Some?)
  }

  lemma RowDescribes(f: Finding, source: string, reviewPosted: bool)
    ensures Describes(RowFor(f, source, reviewPosted && Inline(f)), f, reviewPosted)
    ensures RowFor(f, source, reviewPosted && Inline(f)).source == source
  {
  }

  lemma PersistedRowsDescribe(findings: seq<Finding>, posted: bool)
    ensures forall i :: 0 <= i < |findings| ==>
              && Describes(PersistedRows(findings, posted)[i], findings[i], posted)
              && PersistedRows(findings, posted)[i].source == Lower(findings[i].source)
  {
    hide Describes, RowFor, Inline;
    forall i | 0 <= i < |findings|
      ensures Describes(PersistedRows(findings, posted)[i], findings[i], posted)
      ensures PersistedRows(findings, posted)[i].source == Lower(findings[i].source)
    {
      RowDescribes(findings[i], Lower(findings[i].source), posted);
    }
  }

  // ----- The re-analysis pass -----

  const CONFIRMED := " (Also confirmed by LLM analysis)"

  function RowFamily(family: Family, row: Row): string {
    family("", row.title, row.explanation, row.category)
  }

  predicate SamePlace(row: Row, f: Finding) {
    row.filePath == f.filePath && row.lineStart == f.lineStart && row.category == f.category
  }

  predicate Confirms(family: Family, row: Row, f: Finding) {
    row.isPosted && SamePlace(row, f) && RowFamily(family, row) == FamilyOf(family, f)
  }

  function FindConfirmed(family: Family, rows: seq<Row>, f: Finding): (r: Option<nat>)
    ensures r.Some? ==> r.value < |rows| && Confirms(family, rows[r.value], f)
    ensures r.Some? ==> forall i :: 0 <= i < r.value ==> !Confirms(family, rows[i], f)
    ensures r.None? ==> forall i :: 0 <= i < |rows| ==> !Confirms(family, rows[i], f)
  {
    if rows == [] then None
    else if Confirms(family, rows[0], f) then Some(0)
    else
      var r := FindConfirmed(family, rows[1..], f);
      if r.Some? then Some(r.value + 1) else None
  }

  function Confirm(row: Row, f: Finding): Row {
    row.(severity := Lower(HigherSeverity(row.severity, f.severity)),
         confidence := Lower(HigherConfidence(row.confidence, f.confidence)),
         source := "merged",
         explanation := if Contains(row.explanation, "Also detected by") || Contains(row.explanation, "Also confirmed by")
                        then row.explanation else row.explanation + CONFIRMED)
  }

  predicate WaitingRow(row: Row, f: Finding) {
    !row.isPosted && SamePlace(row, f)
  }

  predicate CoveredByWaiting(rows: seq<Row>, f: Finding) {
    exists i :: 0 <= i < |rows| && WaitingRow(rows[i], f)
  }

  datatype Matching = Matching(rows: seq<Row>, unmatched: seq<Finding>)

  function MatchOne(family: Family, m: Matching, f: Finding): (r: Matching)
    ensures |r.rows| == |m.rows|
  {
    var i := FindConfirmed(family, m.rows, f);
    if i.Some? then m.(rows := m.rows[i.value := Confirm(m.rows[i.value], f)])
    else if CoveredByWaiting(m.rows, f) then m
    else m.(unmatched := m.unmatched + [f])
  }

  function MatchAll(family: Family, rows: seq<Row>, findings: seq<Finding>): (r: Matching)
    ensures |r.rows| == |rows|
  {
    if findings == [] then Matching(rows, [])
    else MatchOne(family, MatchAll(family, rows, findings[..|findings| - 1]), findings[|findings| - 1])
  }

  predicate AnyWaiting(rows: seq<Row>) {
    exists i :: 0 <= i < |rows| && !rows[i].isPosted
  }

  function FreshRows(unmatched: seq<Finding>, posted: bool): (rows: seq<Row>)
    ensures |rows| == |unmatched|
  {
    seq(|unmatched|, i requires 0 <= i < |unmatched| => RowFor(unmatched[i], "llm", posted && Inline(unmatched[i])))
  }

  /** Something has to go into a follow-up review. */
  predicate NeedsPosting(m: Matching) {
    m.unmatched != [] || AnyWaiting(m.rows)
  }

  /** What happens after the attempt is counted.  `recounts` is false when the task dies right after the
      usage of the LLM, and with it the changed rows, are committed. */
  datatype Work = HeadMoved | Raised | NoChunks | Answered(findings: seq<Finding>, postSucceeds: bool, recounts: bool)

  function LiveAttempts(r: Record, now: real): int {
    if r.attempts.Some? && now < r.attempts.value.expiresAt then r.attempts.value.count else 0
  }

  function Counted(r: Record, now: real): Record {
    r.(attempts := Some(Attempts(LiveAttempts(r, now) + 1, now + ATTEMPTS_TTL)))
  }

  function RowsAfter(m: Matching, posted: bool): seq<Row> {
    (if posted then MarkPosted(m.rows) else m.rows) + FreshRows(m.unmatched, posted)
  }

  function WithAnswer(family: Family, r: Record, findings: seq<Finding>, postSucceeds: bool, recounts: bool): Record {
    var m := MatchAll(family, r.rows, findings);
    var posted := NeedsPosting(m) && postSucceeds;
    var rows := RowsAfter(m, posted);
    if recounts then
      r.(rows := rows, counts := CountsOf(rows), reanalysisNeeded := r.reanalysisNeeded && NeedsPosting(m) && !posted)
    else
      r.(rows := rows)
  }

  /** One locked pass of the re-analysis sweep over a flagged, completed run. */
  function Reanalyzed(family: Family, r: Record, now: real, work: Work): Record {
    var c := Counted(r, now);
    if c.attempts.value.count > ATTEMPT_CAP then c.(reanalysisNeeded := false)
    else match work
      case HeadMoved => c.(reanalysisNeeded := false)
      case Raised => c
      case NoChunks => c.(reanalysisNeeded := false)
      case Answered(findings, ok, recounts) => WithAnswer(family, c, findings, ok, recounts)
  }

  // ----- The other writers -----

  predicate Truthy(id: Option<int>) {
    id.Some? && id.value != 0
  }

  /** The repost sweep after a successful post. */
  function Reposted(r: Record, now: real, id: Option<int>): Record {
    r.(postedAt := Some(now), reviewId := if Truthy(id) then id else r.reviewId, rows := MarkPosted(r.rows))
  }

  /** The administrator's retry after a successful post.  A follow-up never touches the primary review. */
  function Retried(r: Record, now: real, id: Option<int>, followupBody: bool): Record {
    if r.reviewId.Some? || followupBody then r.(rows := MarkPosted(r.rows), reanalysisNeeded := false)
    else r.(postedAt := Some(now), reviewId := if Truthy(id) then id else r.reviewId, rows := MarkPosted(r.rows))
  }

  // ----- The record as the tasks change it -----

  class AnalysisRun {
    var status: Status
    var rows: seq<Row>
    var counts: Counts
    var reviewId: Option<int>
    var postedAt: Option<real>
    var reanalysisNeeded: bool
    var attempts: Option<Attempts>

    constructor ()
      ensures Stored() == NEW
    {
      status, rows, counts := Pending, [], Counts(None, 0, 0, 0, 0);
      reviewId, postedAt, reanalysisNeeded, attempts := None, None, false, None;
    }

    function Stored(): Record
      reads this
    {
      Record(status, rows, counts, reviewId, postedAt, reanalysisNeeded, attempts)
    }

    method Recount()
      modifies this`counts
      ensures counts == CountsOf(rows)
    {
      counts := Counts(Some(|rows|), CountRows(rows, "critical"), CountRows(rows, "high"), CountRows(rows, "medium"),
                       CountRows(rows, "low"));
    }

    /** One transaction: all rows are replaced and the summary is set. */
    method StoreResults(p: Payload)
      modifies this
      ensures Stored() == WithResults(old(Stored()), p)
      ensures |rows| == |p.findings|
      ensures forall i :: 0 <= i < |rows| ==>
                Describes(rows[i], p.findings[i], p.postedAt.Some?) && rows[i].source == Lower(p.findings[i].source)
      ensures status == Completed && postedAt == p.postedAt
      ensures reviewId == if p.reviewId.Some? && p.reviewId.value >= 0 then p.reviewId else None
      ensures counts.total == Some(|p.findings|)
      ensures counts.critical == multiset(Severities(rows))["critical"]
           && counts.high == multiset(Severities(rows))["high"]
           && counts.medium == multiset(Severities(rows))["medium"]
           && counts.low == multiset(Severities(rows))["low"]
      ensures reanalysisNeeded == old(reanalysisNeeded) && attempts == old(attempts)
    {
      hide Describes, RowFor, CountRows, CountFindings;
      rows := [];
      var reviewWasPosted := p.postedAt.Some?;
      for i := 0 to |p.findings|
        invariant rows == PersistedRows(p.findings, reviewWasPosted)[..i]
        invariant status == old(status) && attempts == old(attempts) && reanalysisNeeded == old(reanalysisNeeded)
      {
        var f := p.findings[i];
        rows := rows + [RowFor(f, Lower(f.source), reviewWasPosted && Inline(f))];
      }
      status := Completed;
      counts := Counts(Some(|p.findings|), CountFindings(p.findings, "critical"), CountFindings(p.findings, "high"),
                       CountFindings(p.findings, "medium"), CountFindings(p.findings, "low"));
      reviewId := StoredId(p.reviewId);
      postedAt := p.postedAt;
      PersistedRowsDescribe(p.findings, reviewWasPosted);
      assert rows == PersistedRows(p.findings, reviewWasPosted);
      FindingsCountRows(p.findings, reviewWasPosted, "critical");
      FindingsCountRows(p.findings, reviewWasPosted, "high");
      FindingsCountRows(p.findings, reviewWasPosted, "medium");
      FindingsCountRows(p.findings, reviewWasPosted, "low");
    }

    method PersistResults(p: Payload)
      modifies this
      ensures Stored() == Persisted(old(Stored()), p)
      ensures reanalysisNeeded == (old(reanalysisNeeded) || p.degraded)
      ensures status == Completed && postedAt == p.postedAt && |rows| == |p.findings| && attempts == old(attempts)
    {
      StoreResults(p);
      if p.degraded {
        reanalysisNeeded := true;
      }
    }

    /** Matches the new findings against the stored rows, rewriting the confirmed rows in place. */
    method MatchRows(family: Family, findings: seq<Finding>) returns (unmatched: seq<Finding>)
      modifies this`rows
      ensures Matching(rows, unmatched) == MatchAll(family, old(rows), findings)
    {
      hide Confirm;
      unmatched := [];
      for i := 0 to |findings|
        invariant Matching(rows, unmatched) == MatchAll(family, old(rows), findings[..i])
      {
        var f := findings[i];
        assert findings[..i + 1][..i] == findings[..i];
        var matched := FindConfirmed(family, rows, f);
        if matched.Some? {
          rows := rows[matched.value := Confirm(rows[matched.value], f)];
        } else if !CoveredByWaiting(rows, f) {
          unmatched := unmatched + [f];
        }
      }
      assert findings[..|findings|] == findings;
    }

    method ReanalysisPass(family: Family, now: real, work: Work)
      modifies this
      ensures Stored() == Reanalyzed(family, old(Stored()), now, work)
      ensures var alive := old(attempts).Some? && now < old(attempts).value.expiresAt;
              attempts == Some(Attempts(1 + if alive then old(attempts).value.count else 0, now + 86400.0))
      ensures status == old(status) && reviewId == old(reviewId) && postedAt == old(postedAt)
    {
      hide MatchAll, FreshRows, MarkPosted, CountRows, AnyWaiting, FindConfirmed, CountFindings;
      var count := 1 + if attempts.Some? && now < attempts.value.expiresAt then attempts.value.count else 0;
      attempts := Some(Attempts(count, now + ATTEMPTS_TTL));
      if count > ATTEMPT_CAP || work.HeadMoved? || (!work.Raised? && work.NoChunks?) {
        reanalysisNeeded := false;
        return;
      }
      if work.Raised? {
        return;
      }
      var unmatched := MatchRows(family, work.findings);
      var needsPosting := unmatched != [] || AnyWaiting(rows);
      var followupPosted := false;
      if needsPosting {
        followupPosted := work.postSucceeds;
        if followupPosted {
          rows := MarkPosted(rows);
        }
        rows := rows + FreshRows(unmatched, followupPosted);
      } else {
        assert rows + FreshRows(unmatched, false) == rows;
      }
      if !work.recounts {
        return;
      }
      Recount();
      if !needsPosting || followupPosted {
        reanalysisNeeded := false;
      }
    }

    method Repost(now: real, id: Option<int>)
      modifies this
      ensures Stored() == Reposted(old(Stored()), now, id)
      ensures postedAt == Some(now) && reviewId == if id.Some? && id.value != 0 then id else old(reviewId)
      ensures AllPosted(old(rows), rows)
      ensures status == old(status) && counts == old(counts) && reanalysisNeeded == old(reanalysisNeeded)
           && attempts == old(attempts)
    {
      postedAt := Some(now);
      if id.Some? && id.value != 0 {
        reviewId := id;
      }
      rows := MarkPosted(rows);
    }

    method RetryPosting(now: real, id: Option<int>, followupBody: bool)
      modifies this
      ensures Stored() == Retried(old(Stored()), now, id, followupBody)
      ensures AllPosted(old(rows), rows)
      ensures if old(reviewId).Some? || followupBody
              then postedAt == old(postedAt) && reviewId == old(reviewId) && !reanalysisNeeded
              else && postedAt == Some(now) && (reviewId == if id.Some? && id.value != 0 then id else None)
                   && reanalysisNeeded == old(reanalysisNeeded)
      ensures status == old(status) && counts == old(counts) && attempts == old(attempts)
    {
      var isFollowup := reviewId.Some? || followupBody;
      if isFollowup {
        rows := MarkPosted(rows);
        reanalysisNeeded := false;
      } else {
        postedAt := Some(now);
        if id.Some? && id.value != 0 {
          reviewId := id;
        }
        rows := MarkPosted(rows);
      }
    }
  }
}
