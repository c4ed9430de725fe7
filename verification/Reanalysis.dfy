/**
 What a re-analysis pass does with the LLM's findings, and what a second pass does after a failed post.
 */
module Reanalysis {
  import opened Options
  import opened Models
  import opened Dedup
  import opened RunRecord

  // ----- Stored rows are kept and never rated lower -----

  predicate RowKept(before: Row, after: Row) {
    && after.filePath == before.filePath && after.lineStart == before.lineStart && after.lineEnd == before.lineEnd
    && after.category == before.category && after.title == before.title
    && before.explanation <= after.explanation && after.remediation == before.remediation
    && after.rawCategory == before.rawCategory
    && SeverityRank(after.severity) <= SeverityRank(before.severity)
    && ConfidenceRank(after.confidence) >= ConfidenceRank(before.confidence)
    && (before.isPosted ==> after.isPosted)
    && (before.source == "merged" ==> after.source == "merged")
  }

  predicate RatesAsHigh(row: Row, f: Finding) {
    && SeverityRank(row.severity) <= SeverityRank(f.severity)
    && ConfidenceRank(row.confidence) >= ConfidenceRank(f.confidence)
  }

  /** The row says that two sources agree, and its ratings are in lower case. */
  ghost predicate Noted(row: Row) {
    && (Contains(row.explanation, "Also confirmed by") || Contains(row.explanation, "Also detected by"))
    && row.severity == Lower(row.severity) && row.confidence == Lower(row.confidence)
  }

  lemma NoteSaysSo(explanation: string)
    ensures Contains(explanation + CONFIRMED, "Also confirmed by")
  {
    var all, at := explanation + CONFIRMED, |explanation| + 2;
    assert all[at..] == CONFIRMED[2..];
    assert "Also confirmed by" <= CONFIRMED[2..];
    assert "Also confirmed by" <= all[at..];
  }

  lemma ConfirmKeepsRow(row: Row, f: Finding)
    ensures RowKept(row, Confirm(row, f)) && RatesAsHigh(Confirm(row, f), f)
    ensures Confirm(row, f).source == "merged" && Confirm(row, f).isPosted == row.isPosted
    ensures Noted(Confirm(row, f))
  {
    NoteSaysSo(row.explanation);
    LowerTwice(HigherSeverity(row.severity, f.severity));
    LowerTwice(HigherConfidence(row.confidence, f.confidence));
  }

  lemma KeptTwice(a: Row, b: Row, c: Row)
    requires RowKept(a, b) && RowKept(b, c)
    ensures RowKept(a, c)
  {
    hide SeverityRank, ConfidenceRank;
  }

  /** Matching rewrites posted rows only, and only upwards. */
  ghost predicate RowsKept(before: seq<Row>, after: seq<Row>) {
    && |before| == |after|
    && forall i :: 0 <= i < |before| ==>
         RowKept(before[i], after[i]) && before[i].isPosted == after[i].isPosted
         && (!before[i].isPosted ==> after[i] == before[i])
  }

  lemma {:induction false} MatchOneKeepsRows(family: Family, rows: seq<Row>, m: Matching, f: Finding)
    requires RowsKept(rows, m.rows)
    ensures RowsKept(rows, MatchOne(family, m, f).rows)
  {
    hide RowKept, Confirm, CoveredByWaiting;
    var i := FindConfirmed(family, m.rows, f);
    if i.Some? {
      ConfirmKeepsRow(m.rows[i.value], f);
      KeptTwice(rows[i.value], m.rows[i.value], Confirm(m.rows[i.value], f));
    }
  }

  lemma RowIsKeptByItself(rows: seq<Row>)
    ensures RowsKept(rows, rows)
  {
  }

  lemma {:induction false} MatchAllKeepsRows(family: Family, rows: seq<Row>, findings: seq<Finding>)
    ensures RowsKept(rows, MatchAll(family, rows, findings).rows)
    decreases |findings|
  {
    hide MatchOne, RowsKept;
    if findings == [] {
      RowIsKeptByItself(rows);
    } else {
      var n := |findings| - 1;
      MatchAllKeepsRows(family, rows, findings[..n]);
      MatchOneKeepsRows(family, rows, MatchAll(family, rows, findings[..n]), findings[n]);
    }
  }

  // ----- No finding is lost -----

  /** The finding's own file, line and category. */
  ghost predicate At(row: Row, f: Finding) {
    row.filePath == f.filePath && row.lineStart == f.lineStart && row.category == f.category
  }

  ghost predicate MergedInto(before: Row, after: Row, f: Finding) {
    before.isPosted && At(before, f) && after.source == "merged" && RatesAsHigh(after, f) && Noted(after)
  }

  /** The row was posted at the finding's place and of its family. */
  ghost predicate Matches(family: Family, row: Row, f: Finding) {
    && row.isPosted && At(row, f)
    && family("", row.title, row.explanation, row.category)
    == family(if f.ruleId.Some? then f.ruleId.value else "", f.title, f.explanation, f.category)
  }

  ghost predicate Accounted(rows: seq<Row>, m: Matching, f: Finding)
    requires |rows| == |m.rows|
  {
    || (exists i :: 0 <= i < |rows| && MergedInto(rows[i], m.rows[i], f))
    || (exists i :: 0 <= i < |rows| && !rows[i].isPosted && At(rows[i], f))
    || f in m.unmatched
  }

  lemma MergedStays(before: Row, middle: Row, after: Row, f: Finding)
    requires MergedInto(before, middle, f) && RowKept(middle, after) && Noted(after)
    ensures MergedInto(before, after, f)
  {
    hide SeverityRank, ConfidenceRank;
  }

  lemma {:induction false} AccountedStays(family: Family, rows: seq<Row>, m: Matching, f: Finding, g: Finding)
    requires |rows| == |m.rows| && Accounted(rows, m, f)
    ensures Accounted(rows, MatchOne(family, m, g), f)
  {
    hide RowKept, RatesAsHigh, Confirm, MergedInto, CoveredByWaiting, Noted;
    var r := MatchOne(family, m, g);
    if i :| 0 <= i < |rows| && MergedInto(rows[i], m.rows[i], f) {
      if r.rows[i] != m.rows[i] {
        ConfirmKeepsRow(m.rows[i], g);
        MergedStays(rows[i], m.rows[i], r.rows[i], f);
      }
      assert MergedInto(rows[i], r.rows[i], f);
    }
  }

  lemma {:induction false} MatchedIsAccounted(family: Family, rows: seq<Row>, m: Matching, f: Finding)
    requires RowsKept(rows, m.rows)
    ensures Accounted(rows, MatchOne(family, m, f), f)
  {
    hide RatesAsHigh, Confirm, Noted;
    var r, i := MatchOne(family, m, f), FindConfirmed(family, m.rows, f);
    if i.Some? {
      ConfirmKeepsRow(m.rows[i.value], f);
      assert RowKept(rows[i.value], m.rows[i.value]);
      assert MergedInto(rows[i.value], r.rows[i.value], f);
    } else if CoveredByWaiting(m.rows, f) {
      var j :| 0 <= j < |m.rows| && WaitingRow(m.rows[j], f);
      assert RowKept(rows[j], m.rows[j]);
      assert !rows[j].isPosted && At(rows[j], f);
    }
  }

  lemma {:induction false} EveryFindingIsAccounted(family: Family, rows: seq<Row>, findings: seq<Finding>)
    ensures forall f :: f in findings ==> Accounted(rows, MatchAll(family, rows, findings), f)
    decreases |findings|
  {
    hide MatchOne, Accounted, RowsKept;
    if findings != [] {
      var n := |findings| - 1;
      var before := MatchAll(family, rows, findings[..n]);
      EveryFindingIsAccounted(family, rows, findings[..n]);
      MatchAllKeepsRows(family, rows, findings[..n]);
      forall f | f in findings ensures Accounted(rows, MatchAll(family, rows, findings), f) {
        if f == findings[n] {
          MatchedIsAccounted(family, rows, before, f);
        } else {
          var i :| 0 <= i < |findings| && findings[i] == f;
          assert f == findings[..n][i];
          AccountedStays(family, rows, before, f, findings[n]);
        }
      }
    }
  }

  /** Where the finding is in the rows after the pass. */
  ghost predicate AccountedIn(before: seq<Row>, after: seq<Row>, f: Finding, ok: bool)
    requires |before| <= |after|
  {
    || (exists i :: 0 <= i < |before| && MergedInto(before[i], after[i], f))
    || (exists i :: 0 <= i < |before| && !before[i].isPosted && At(before[i], f))
    || (exists i :: |before| <= i < |after| && InsertedFor(after[i], f, ok))
  }

  /** A new row for the finding, posted with the follow-up review if there was a comment for it. */
  ghost predicate InsertedFor(row: Row, f: Finding, ok: bool) {
    Describes(row, f, ok) && row.source == "llm"
  }

  ghost predicate NobodyWaits(rows: seq<Row>, f: Finding) {
    forall i :: 0 <= i < |rows| ==> rows[i].isPosted || !At(rows[i], f)
  }

  /** The new row tells some finding that no row was waiting for. */
  ghost predicate NewForCause(rows: seq<Row>, row: Row, findings: seq<Finding>, ok: bool) {
    exists f :: f in findings && InsertedFor(row, f, ok) && NobodyWaits(rows, f)
  }

  /** Only a matching finding rewrites a row, and only an unmatched one that no row waits for is inserted. */
  ghost predicate OnlyForCause(family: Family, rows: seq<Row>, m: Matching, findings: seq<Finding>)
    requires |rows| == |m.rows|
  {
    && (forall i :: 0 <= i < |rows| && m.rows[i] != rows[i] ==> exists f :: f in findings && Matches(family, rows[i], f))
    && (forall g :: g in m.unmatched ==>
          g in findings && NobodyWaits(rows, g))
  }

  lemma {:induction false} MatchOneForCause(family: Family, rows: seq<Row>, m: Matching, findings: seq<Finding>, f: Finding)
    requires RowsKept(rows, m.rows) && OnlyForCause(family, rows, m, findings)
    ensures OnlyForCause(family, rows, MatchOne(family, m, f), findings + [f])
  {
    hide Confirm, RowKept;
    var r := MatchOne(family, m, f);
    forall i | 0 <= i < |rows| && r.rows[i] != rows[i]
      ensures exists g :: g in findings + [f] && Matches(family, rows[i], g)
    {
      if m.rows[i] != rows[i] {
        var g :| g in findings && Matches(family, rows[i], g);
        assert g in findings + [f];
      } else {
        assert f in findings + [f] && Matches(family, rows[i], f);
      }
    }
    forall g | g in r.unmatched ensures NobodyWaits(rows, g) {
      if g !in m.unmatched {
        forall i | 0 <= i < |rows| ensures rows[i].isPosted || !At(rows[i], g) {
          assert !rows[i].isPosted ==> m.rows[i] == rows[i];
          assert !WaitingRow(m.rows[i], g);
        }
      }
    }
  }

  lemma {:induction false} MatchAllForCause(family: Family, rows: seq<Row>, findings: seq<Finding>)
    ensures OnlyForCause(family, rows, MatchAll(family, rows, findings), findings)
    decreases |findings|
  {
    hide MatchOne, OnlyForCause, RowsKept;
    if findings == [] {
      NothingForCause(family, rows);
    } else {
      var n := |findings| - 1;
      MatchAllForCause(family, rows, findings[..n]);
      MatchAllKeepsRows(family, rows, findings[..n]);
      MatchOneForCause(family, rows, MatchAll(family, rows, findings[..n]), findings[..n], findings[n]);
      assert findings[..n] + [findings[n]] == findings;
    }
  }

  lemma {:induction false} NothingForCause(family: Family, rows: seq<Row>)
    ensures OnlyForCause(family, rows, Matching(rows, []), [])
  {
  }

  /** A pass that gets an answer keeps every stored row without lowering its ratings, and every finding of
      the answer is merged into a posted row, covered by a row still waiting, or inserted.  A row is rewritten
      only for a finding of its place and family, and a new row tells a finding that no row waits for.  The
      rows still waiting become posted exactly when the follow-up review is posted. */
  lemma {:induction false} PassConservesFindings(family: Family, r: Record, now: real, findings: seq<Finding>, ok: bool,
                                                        recounts: bool)
    requires LiveAttempts(r, now) < ATTEMPT_CAP
    ensures var after := Reanalyzed(family, r, now, Answered(findings, ok, recounts)).rows;
            && |r.rows| <= |after|
            && (forall i :: 0 <= i < |r.rows| ==> RowKept(r.rows[i], after[i]))
            && (forall f :: f in findings ==> AccountedIn(r.rows, after, f, ok))
            && (forall i :: 0 <= i < |r.rows| ==> (after[i].isPosted <==> r.rows[i].isPosted || ok))
            && (forall i :: 0 <= i < |r.rows| && after[i] != r.rows[i] && after[i] != r.rows[i].(isPosted := true) ==>
                  exists f :: f in findings && Matches(family, r.rows[i], f))
            && (forall i :: |r.rows| <= i < |after| ==> NewForCause(r.rows, after[i], findings, ok))
  {
    hide MatchAll, RowFor, RowKept, AccountedIn, Accounted, Matches, InsertedFor, NobodyWaits;
    var m := MatchAll(family, r.rows, findings);
    var posted := NeedsPosting(m) && ok;
    var after := RowsAfter(m, posted);
    assert Reanalyzed(family, r, now, Answered(findings, ok, recounts)).rows == after;
    MatchAllKeepsRows(family, r.rows, findings);
    EveryFindingIsAccounted(family, r.rows, findings);
    MatchAllForCause(family, r.rows, findings);
    forall i | 0 <= i < |r.rows| ensures RowKept(r.rows[i], after[i]) {
      MarkingKeepsRow(m.rows[i]);
      KeptTwice(r.rows[i], m.rows[i], after[i]);
    }
    forall f | f in findings ensures AccountedIn(r.rows, after, f, ok) {
      AccountedAfter(r.rows, m, ok, f);
    }
    forall i | |r.rows| <= i < |after|
      ensures NewForCause(r.rows, after[i], findings, ok)
    {
      var f := m.unmatched[i - |r.rows|];
      InsertedTells(m, ok, i - |r.rows|);
      assert f in findings && InsertedFor(after[i], f, ok) && NobodyWaits(r.rows, f);
    }
  }

  lemma InsertedTells(m: Matching, ok: bool, j: nat)
    requires j < |m.unmatched|
    ensures InsertedFor(RowsAfter(m, NeedsPosting(m) && ok)[|m.rows| + j], m.unmatched[j], ok)
  {
    hide Describes, RowFor, Inline;
    RowDescribes(m.unmatched[j], "llm", ok);
  }

  lemma MarkingKeepsRow(row: Row)
    ensures RowKept(row, row.(isPosted := true)) && RowKept(row, row)
  {
  }

  lemma AccountedAfter(rows: seq<Row>, m: Matching, ok: bool, f: Finding)
    requires |rows| == |m.rows| && Accounted(rows, m, f)
    ensures AccountedIn(rows, RowsAfter(m, NeedsPosting(m) && ok), f, ok)
  {
    hide RowFor, SeverityRank, ConfidenceRank, InsertedFor, At;
    var after := RowsAfter(m, NeedsPosting(m) && ok);
    if i :| 0 <= i < |rows| && MergedInto(rows[i], m.rows[i], f) {
      assert MergedInto(rows[i], after[i], f);
    } else if f in m.unmatched {
      var j :| 0 <= j < |m.unmatched| && m.unmatched[j] == f;
      InsertedTells(m, ok, j);
      assert InsertedFor(after[|rows| + j], f, ok);
    }
  }

  // ----- When the flag survives a pass -----

  /** A flagged run under the cap stays flagged after a whole pass if and only if the follow-up could not be
      posted and there was something to post: a row inserted, or one that was waiting. */
  lemma {:induction false} FlagSurvivesExactlyWhen(family: Family, r: Record, now: real, findings: seq<Finding>, ok: bool)
    requires r.reanalysisNeeded && LiveAttempts(r, now) < ATTEMPT_CAP
    ensures var after := Reanalyzed(family, r, now, Answered(findings, ok, true));
            after.reanalysisNeeded <==>
              !ok && (|after.rows| > |r.rows| || exists i :: 0 <= i < |r.rows| && !r.rows[i].isPosted)
  {
    hide MatchAll, FreshRows, CountRows;
    var m := MatchAll(family, r.rows, findings);
    MatchAllKeepsRows(family, r.rows, findings);
    assert AnyWaiting(m.rows) <==> exists i :: 0 <= i < |r.rows| && !r.rows[i].isPosted by {
      hide RowKept;
      assert forall i :: 0 <= i < |r.rows| ==> m.rows[i].isPosted == r.rows[i].isPosted;
    }
  }

  /** Nothing of the record but the attempt count and perhaps the flag differs. */
  ghost predicate OnlyFlagAndAttempts(r: Record, after: Record) {
    && after.status == r.status && after.rows == r.rows && after.counts == r.counts
    && after.reviewId == r.reviewId && after.postedAt == r.postedAt
  }

  /** A moved head, an empty diff and the fourth attempt clear the flag, a pass that raises keeps it, and none
      of them touches anything else. */
  lemma {:induction false} OtherPasses(family: Family, r: Record, now: real, work: Work)
    ensures var after := Reanalyzed(family, r, now, work);
            && (LiveAttempts(r, now) >= 3 ==> !after.reanalysisNeeded && OnlyFlagAndAttempts(r, after))
            && (work.HeadMoved? || work.NoChunks? ==> !after.reanalysisNeeded && OnlyFlagAndAttempts(r, after))
            && (work.Raised? && LiveAttempts(r, now) < 3 ==>
                  after.reanalysisNeeded == r.reanalysisNeeded && OnlyFlagAndAttempts(r, after))
            && (work.Answered? && LiveAttempts(r, now) < 3 ==>
                  && (after.reanalysisNeeded ==> r.reanalysisNeeded)
                  && (!work.recounts ==> after.reanalysisNeeded == r.reanalysisNeeded && after.counts == r.counts))
  {
    hide MatchAll, RowsAfter, NeedsPosting;
  }

  // ----- A second pass after a failed post -----

  predicate AlreadyNoted(explanation: string) {
    Contains(explanation, "Also detected by") || Contains(explanation, "Also confirmed by")
  }

  /** A row with this text still has the finding's family once the note of its confirmation is appended. */
  ghost predicate NoteKeepsMatch(family: Family, f: Finding, title: string, explanation: string) {
    family("", title, explanation, f.category) == FamilyOf(family, f) && !AlreadyNoted(explanation) ==>
      family("", title, explanation + CONFIRMED, f.category) == FamilyOf(family, f)
  }

  /** That is so for every text a row's columns hold. */
  ghost predicate SurvivesNote(family: Family, f: Finding) {
    forall title, explanation | |title| <= TITLE_COLUMN :: NoteKeepsMatch(family, f, title, explanation)
  }

  predicate TitlesFit(rows: seq<Row>) {
    forall i :: 0 <= i < |rows| ==> |rows[i].title| <= TITLE_COLUMN
  }

  /** The place fits the columns it is stored in. */
  predicate FitsColumns(f: Finding) {
    |f.filePath| <= PATH_COLUMN && |f.category| <= CATEGORY_COLUMN
  }

  /** Matching this finding against these rows inserts nothing. */
  ghost predicate Handled(family: Family, rows: seq<Row>, f: Finding) {
    exists i :: 0 <= i < |rows| && (Confirms(family, rows[i], f) || WaitingRow(rows[i], f))
  }

  lemma {:induction false} ConfirmKeepsMatches(family: Family, row: Row, g: Finding, f: Finding)
    requires SurvivesNote(family, f) && |row.title| <= TITLE_COLUMN
    ensures Confirms(family, row, f) ==> Confirms(family, Confirm(row, g), f)
    ensures row.isPosted ==> !WaitingRow(row, f)
  {
    assert NoteKeepsMatch(family, f, row.title, row.explanation);
  }

  lemma {:induction false} TitlesStay(family: Family, rows: seq<Row>, findings: seq<Finding>)
    requires TitlesFit(rows)
    ensures TitlesFit(MatchAll(family, rows, findings).rows)
    ensures forall posted :: TitlesFit(RowsAfter(MatchAll(family, rows, findings), posted))
  {
    hide MatchAll;
    MatchAllKeepsRows(family, rows, findings);
  }

  lemma {:induction false} HandledStays(family: Family, m: Matching, g: Finding, f: Finding)
    requires SurvivesNote(family, f) && TitlesFit(m.rows) && Handled(family, m.rows, f)
    ensures Handled(family, MatchOne(family, m, g).rows, f)
  {
    hide Confirm, Confirms, WaitingRow, CoveredByWaiting, SurvivesNote;
    var i :| 0 <= i < |m.rows| && (Confirms(family, m.rows[i], f) || WaitingRow(m.rows[i], f));
    var r := MatchOne(family, m, g);
    if r.rows[i] != m.rows[i] {
      assert Confirms(family, m.rows[i], g);
      PostedWhenConfirmed(family, m.rows[i], g);
      ConfirmKeepsMatches(family, m.rows[i], g, f);
    }
    assert Confirms(family, r.rows[i], f) || WaitingRow(r.rows[i], f);
  }

  lemma {:induction false} PostedWhenConfirmed(family: Family, row: Row, g: Finding)
    ensures Confirms(family, row, g) ==> row.isPosted
  {
  }

  lemma {:induction false} HandledInsertsNothing(family: Family, m: Matching, f: Finding)
    requires Handled(family, m.rows, f)
    ensures MatchOne(family, m, f).unmatched == m.unmatched
  {
  }

  /** When every finding is handled by the rows, a pass over them inserts nothing. */
  lemma {:induction false} AllHandled(family: Family, rows: seq<Row>, findings: seq<Finding>, all: seq<Finding>)
    requires TitlesFit(rows) && forall f :: f in findings ==> f in all
    requires forall f :: f in all ==> SurvivesNote(family, f) && Handled(family, rows, f)
    ensures MatchAll(family, rows, findings).unmatched == []
    ensures forall f :: f in all ==> Handled(family, MatchAll(family, rows, findings).rows, f)
    decreases |findings|
  {
    hide MatchOne, Handled, SurvivesNote, TitlesFit;
    if findings != [] {
      var n := |findings| - 1;
      var before := MatchAll(family, rows, findings[..n]);
      AllHandled(family, rows, findings[..n], all);
      TitlesStay(family, rows, findings[..n]);
      HandledInsertsNothing(family, before, findings[n]);
      forall f | f in all ensures Handled(family, MatchOne(family, before, findings[n]).rows, f) {
        HandledStays(family, before, findings[n], f);
      }
    }
  }

  /** After matching, each finding is handled or is about to be inserted. */
  lemma {:induction false} HandledOrFresh(family: Family, rows: seq<Row>, findings: seq<Finding>)
    requires TitlesFit(rows) && forall f :: f in findings ==> SurvivesNote(family, f)
    ensures var m := MatchAll(family, rows, findings);
            forall f :: f in findings ==> Handled(family, m.rows, f) || f in m.unmatched
    decreases |findings|
  {
    hide Handled, SurvivesNote, MatchOne, TitlesFit;
    if findings != [] {
      var n := |findings| - 1;
      var before, m := MatchAll(family, rows, findings[..n]), MatchAll(family, rows, findings);
      HandledOrFresh(family, rows, findings[..n]);
      TitlesStay(family, rows, findings[..n]);
      assert m == MatchOne(family, before, findings[n]);
      forall f | f in findings ensures Handled(family, m.rows, f) || f in m.unmatched {
        if f == findings[n] {
          MatchedIsHandled(family, before, f);
        } else {
          var i :| 0 <= i < |findings| && findings[i] == f;
          assert f == findings[..n][i];
          assert f in findings[..n];
          if Handled(family, before.rows, f) {
            HandledStays(family, before, findings[n], f);
          }
          UnmatchedStays(family, before, findings[n]);
        }
      }
    }
  }

  lemma {:induction false} UnmatchedStays(family: Family, m: Matching, g: Finding)
    ensures forall f :: f in m.unmatched ==> f in MatchOne(family, m, g).unmatched
  {
  }

  lemma {:induction false} MatchedIsHandled(family: Family, m: Matching, f: Finding)
    requires SurvivesNote(family, f) && TitlesFit(m.rows)
    ensures var r := MatchOne(family, m, f); Handled(family, r.rows, f) || f in r.unmatched
  {
    hide Confirm, SurvivesNote;
    var i := FindConfirmed(family, m.rows, f);
    if i.Some? {
      ConfirmKeepsMatches(family, m.rows[i.value], f, f);
      assert Confirms(family, MatchOne(family, m, f).rows[i.value], f);
    } else if CoveredByWaiting(m.rows, f) {
      var j :| 0 <= j < |m.rows| && WaitingRow(m.rows[j], f);
      assert Handled(family, m.rows, f);
    }
  }

  /** The rows a failed post leaves behind handle everything that was in the answer. */
  lemma {:induction false} FailedPostHandlesAll(family: Family, rows: seq<Row>, findings: seq<Finding>)
    requires TitlesFit(rows) && forall f :: f in findings ==> SurvivesNote(family, f) && FitsColumns(f)
    ensures var after := RowsAfter(MatchAll(family, rows, findings), false);
            forall f :: f in findings ==> Handled(family, after, f)
  {
    hide MatchAll, SurvivesNote, TitlesFit, Confirms;
    HandledOrFresh(family, rows, findings);
    var m := MatchAll(family, rows, findings);
    var after := RowsAfter(m, false);
    forall f | f in findings ensures Handled(family, after, f) {
      if Handled(family, m.rows, f) {
        var i :| 0 <= i < |m.rows| && (Confirms(family, m.rows[i], f) || WaitingRow(m.rows[i], f));
        assert after[i] == m.rows[i];
      } else {
        var j :| 0 <= j < |m.unmatched| && m.unmatched[j] == f;
        assert after[|m.rows| + j] == RowFor(f, "llm", false);
        assert WaitingRow(after[|m.rows| + j], f);
      }
    }
  }

  /** After a follow-up that could not be posted, a pass with the same answer inserts no row. */
  ghost predicate RerunAddsNoRow(family: Family, r: Record, now: real, findings: seq<Finding>, later: real, ok: bool) {
    var first := Reanalyzed(family, r, now, Answered(findings, false, true));
    |Reanalyzed(family, first, later, Answered(findings, ok, true)).rows| == |first.rows|
  }

  /** The finding is recognised in what was stored of it and in any row it confirmed. */
  ghost predicate Recognisable(family: Family, f: Finding) {
    FitsColumns(f) && SurvivesNote(family, f)
  }

  /** The sweep will take this run, and the LLM will be asked about it. */
  predicate Due(r: Record, now: real) {
    r.status.Completed? && r.reanalysisNeeded && LiveAttempts(r, now) < ATTEMPT_CAP && TitlesFit(r.rows)
  }

  /** No run the sweep takes gets such a row, when every finding of the answer is recognisable. */
  lemma {:induction false} RerunInsertsNothing(family: Family, r: Record, now: real, findings: seq<Finding>,
                                               later: real, ok: bool)
    requires Due(r, now) && forall f :: f in findings ==> Recognisable(family, f)
    ensures RerunAddsNoRow(family, r, now, findings, later, ok)
  {
    hide MatchAll, Handled, SurvivesNote, TitlesFit, FitsColumns;
    FailedPostHandlesAll(family, r.rows, findings);
    TitlesStay(family, r.rows, findings);
    var first := Reanalyzed(family, r, now, Answered(findings, false, true));
    assert first.rows == RowsAfter(MatchAll(family, r.rows, findings), false);
    AllHandled(family, first.rows, findings, findings);
  }

  /** Rows as a failed post stores them when there were none. */
  ghost predicate FreshAndShort(rows: seq<Row>) {
    forall i :: 0 <= i < |rows| ==>
      !rows[i].isPosted && |rows[i].filePath| <= PATH_COLUMN && |rows[i].category| <= CATEGORY_COLUMN
  }

  lemma {:induction false} TooLongIsUnmatched(family: Family, m: Matching, f: Finding)
    requires FreshAndShort(m.rows)
    ensures MatchOne(family, m, f).rows == m.rows
    ensures !FitsColumns(f) ==> f in MatchOne(family, m, f).unmatched
  {
  }

  /** A place longer than its column is not recognised in the rows it was cut to fit. */
  lemma {:induction false} TooLongStaysUnmatched(family: Family, rows: seq<Row>, findings: seq<Finding>, f: Finding)
    requires FreshAndShort(rows)
    ensures MatchAll(family, rows, findings).rows == rows
    ensures f in findings && !FitsColumns(f) ==> f in MatchAll(family, rows, findings).unmatched
    decreases |findings|
  {
    hide MatchOne, FitsColumns, FreshAndShort;
    if findings != [] {
      var n := |findings| - 1;
      var before := MatchAll(family, rows, findings[..n]);
      TooLongStaysUnmatched(family, rows, findings[..n], f);
      TooLongIsUnmatched(family, before, findings[n]);
      UnmatchedStays(family, before, findings[n]);
      assert f in findings && f != findings[n] ==> f in findings[..n] by {
        assert findings == findings[..n] + [findings[n]];
      }
    }
  }

  /** A degraded analysis that found nothing. */
  const FLAGGED := Persisted(NEW, Payload([], None, None, true))

  /** That run then gets a second row for such a finding. */
  lemma {:induction false} TooLongIsInsertedAgain(family: Family, now: real, findings: seq<Finding>, f: Finding)
    requires f in findings && !FitsColumns(f)
    ensures Due(FLAGGED, now) && !RerunAddsNoRow(family, FLAGGED, now, findings, now, false)
  {
    hide MatchAll, FitsColumns;
    var first := Reanalyzed(family, FLAGGED, now, Answered(findings, false, true));
    var m := MatchAll(family, [], findings);
    assert first.rows == RowsAfter(m, false) == FreshRows(m.unmatched, false);
    assert LiveAttempts(first, now) == 1;
    TooLongStaysUnmatched(family, first.rows, findings, f);
  }

  /** A finding of the static analysis at the same place, posted by a degraded analysis. */
  function StaticTwin(f: Finding, title: string, explanation: string): Finding {
    f.(title := title, explanation := explanation, source := "ast", isInDiff := true, diffLine := Some(f.lineStart))
  }

  function PostedRun(f: Finding, title: string, explanation: string): Record {
    Persisted(NEW, Payload([StaticTwin(f, title, explanation)], Some(1), Some(0.0), true))
  }

  lemma {:induction false} PostedRow(f: Finding, title: string, explanation: string, now: real)
    requires FitsColumns(f) && |title| <= TITLE_COLUMN
    ensures var r := PostedRun(f, title, explanation);
            && Due(r, now) && r.attempts.None? && |r.rows| == 1
            && r.rows[0].isPosted && SamePlace(r.rows[0], f)
            && r.rows[0].title == title && r.rows[0].explanation == explanation
  {
  }

  lemma {:induction false} MatchSingle(family: Family, rows: seq<Row>, f: Finding)
    ensures MatchAll(family, rows, [f]) == MatchOne(family, Matching(rows, []), f)
  {
    assert [f][..0] == [];
  }

  /** The row confirms the finding, but no longer does so once the note is appended. */
  lemma {:induction false} NoteHides(family: Family, f: Finding, row: Row)
    requires row.isPosted && SamePlace(row, f) && !NoteKeepsMatch(family, f, row.title, row.explanation)
    ensures Confirms(family, row, f)
    ensures !Confirms(family, Confirm(row, f), f) && !WaitingRow(Confirm(row, f), f)
  {
    hide FamilyOf, HigherSeverity, HigherConfidence, Contains, Lower;
  }

  /** If the note hides the family, the finding confirms the row once and is inserted the next time. */
  lemma {:induction false} NotedRowIsForgotten(family: Family, f: Finding, title: string, explanation: string, now: real)
    requires FitsColumns(f) && |title| <= TITLE_COLUMN && !NoteKeepsMatch(family, f, title, explanation)
    ensures var r := PostedRun(f, title, explanation);
            Due(r, now) && !RerunAddsNoRow(family, r, now, [f], now, false)
  {
    hide PostedRun, FitsColumns, NoteKeepsMatch, Confirm, Confirms, WaitingRow, MatchAll, MatchOne, CountsOf, MarkPosted;
    var r := PostedRun(f, title, explanation);
    PostedRow(f, title, explanation, now);
    var row := r.rows[0];
    assert r.rows == [row];
    NoteHides(family, f, row);
    var noted := Confirm(row, f);
    MatchSingle(family, [row], f);
    OneRow(family, row, f);
    ConfirmKeepsRow(row, f);
    MatchSingle(family, [noted], f);
    OneRow(family, noted, f);
    var first := Reanalyzed(family, r, now, Answered([f], false, true));
    assert first.rows == [noted];
    assert LiveAttempts(first, now) == 1;
  }

  lemma {:induction false} OneRow(family: Family, row: Row, f: Finding)
    ensures Confirms(family, row, f) ==> MatchOne(family, Matching([row], []), f) == Matching([Confirm(row, f)], [])
    ensures !Confirms(family, row, f) && !WaitingRow(row, f) ==>
              MatchOne(family, Matching([row], []), f) == Matching([row], [f])
  {
    hide Confirm, Confirms, WaitingRow;
    assert [row][1..] == [];
  }

  /** Whatever the family function: no answer made of these findings inserts a row twice, in any run the sweep
      takes, if and only if each of them is recognisable. */
  lemma {:induction false} RerunExactlyWhen(family: Family, pool: iset<Finding>)
    ensures (forall findings: seq<Finding>, r, now, later, ok |
               (forall f :: f in findings ==> f in pool) && Due(r, now) ::
               RerunAddsNoRow(family, r, now, findings, later, ok))
       <==> (forall f :: f in pool ==> Recognisable(family, f))
  {
    hide Due, RerunAddsNoRow, SurvivesNote, FitsColumns;
    if forall f :: f in pool ==> Recognisable(family, f) {
      forall findings: seq<Finding>, r, now, later, ok | (forall f :: f in findings ==> f in pool) && Due(r, now)
        ensures RerunAddsNoRow(family, r, now, findings, later, ok)
      {
        RerunInsertsNothing(family, r, now, findings, later, ok);
      }
    } else {
      var f :| f in pool && !Recognisable(family, f);
      var r := UnrecognisedOne(family, f);
      assert forall g :: g in [f] ==> g in pool;
      assert Due(r, 0.0) && !RerunAddsNoRow(family, r, 0.0, [f], 0.0, false);
    }
  }

  lemma {:induction false} UnrecognisedOne(family: Family, f: Finding) returns (r: Record)
    requires !Recognisable(family, f)
    ensures Due(r, 0.0) && !RerunAddsNoRow(family, r, 0.0, [f], 0.0, false)
  {
    hide Due, RerunAddsNoRow, NoteKeepsMatch, FitsColumns;
    if FitsColumns(f) {
      var title, explanation :| |title| <= TITLE_COLUMN && !NoteKeepsMatch(family, f, title, explanation);
      NotedRowIsForgotten(family, f, title, explanation, 0.0);
      r := PostedRun(f, title, explanation);
    } else {
      TooLongIsInsertedAgain(family, 0.0, [f], f);
      r := FLAGGED;
    }
  }

  /** With a family the note cannot hide, one answer is enough: it inserts nothing twice if and only if the
      places of all its findings fit their columns. */
  lemma {:induction false} RerunOfOneAnswer(family: Family, findings: seq<Finding>)
    requires forall f :: f in findings ==> SurvivesNote(family, f)
    ensures (forall r, now, later, ok | Due(r, now) :: RerunAddsNoRow(family, r, now, findings, later, ok))
       <==> (forall f :: f in findings ==> FitsColumns(f))
  {
    hide Due, RerunAddsNoRow, SurvivesNote, FitsColumns;
    if forall f :: f in findings ==> FitsColumns(f) {
      forall r, now, later, ok | Due(r, now) ensures RerunAddsNoRow(family, r, now, findings, later, ok) {
        RerunInsertsNothing(family, r, now, findings, later, ok);
      }
    } else {
      var f :| f in findings && !FitsColumns(f);
      TooLongIsInsertedAgain(family, 0.0, findings, f);
    }
  }
}
