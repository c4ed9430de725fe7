/**
 Merging findings that describe the same problem, ranking them, and cutting the list to what one review
 may carry.

 The findings are collected in an insertion-ordered table: its `keys` never change, while the entries
 beside them are rewritten in place.  `owner` records which entry each input went to.
 */
module Dedup {
  import opened Options
  import opened Models
  import opened FindingOrder

  const MAX_REVIEW_COMMENTS := 256

  /** Vulnerability family of a rule id, title, explanation and category. */
  type Family = (string, string, string, string) -> string

  function FamilyOf(family: Family, f: Finding): string {
    family(if f.ruleId.Some? then f.ruleId.value else "", f.title, f.explanation, f.category)
  }

  datatype Key = Key(path: string, line: int, category: string, title: string)

  function KeyFor(f: Finding): Key {
    Key(f.filePath, f.lineStart, f.category, f.title)
  }

  datatype Table = Table(keys: seq<Key>, entries: seq<Finding>, owner: seq<nat>, merged: nat) {

    predicate Valid() {
      |keys| == |entries|
    }
  }

  const EMPTY := Table([], [], [], 0)

  function FindKey(keys: seq<Key>, k: Key): (r: Option<nat>)
    ensures r.Some? ==> r.value < |keys| && keys[r.value] == k
    ensures r.None? ==> k !in keys
  {
    if keys == [] then None
    else if keys[0] == k then Some(0)
    else
      var r := FindKey(keys[1..], k);
      if r.Some? then Some(r.value + 1) else None
  }

  /** Another source reported the same family at the same place, and it has not been merged yet. */
  predicate CrossMatch(family: Family, candidate: Finding, f: Finding) {
    && candidate.filePath == f.filePath
    && candidate.lineStart == f.lineStart
    && candidate.category == f.category
    && candidate.source != f.source
    && candidate.source != "merged"
    && FamilyOf(family, candidate) == FamilyOf(family, f)
  }

  function FindCross(family: Family, entries: seq<Finding>, f: Finding): (r: Option<nat>)
    ensures r.Some? ==> r.value < |entries| && CrossMatch(family, entries[r.value], f)
    ensures r.Some? ==> forall i :: 0 <= i < r.value ==> !CrossMatch(family, entries[i], f)
    ensures r.None? ==> forall i :: 0 <= i < |entries| ==> !CrossMatch(family, entries[i], f)
  {
    if entries == [] then None
    else if CrossMatch(family, entries[0], f) then Some(0)
    else
      var r := FindCross(family, entries[1..], f);
      if r.Some? then Some(r.value + 1) else None
  }

  function Existing(family: Family, t: Table, f: Finding): (r: Option<nat>)
    requires t.Valid()
    ensures r.Some? ==> r.value < |t.entries|
  {
    var byKey := FindKey(t.keys, KeyFor(f));
    if byKey.Some? then byKey else FindCross(family, t.entries, f)
  }

  /** A copy with the position fields back at their defaults. */
  function Copy(f: Finding): Finding {
    f.(diffLine := None, diffStartLine := None, diffSide := "RIGHT", isInDiff := true)
  }

  function Or(a: Option<string>, b: Option<string>): Option<string> {
    if a.Some? && a.value != "" then a else b
  }

  predicate Given(s: Option<string>) {
    s.Some? && s.value != ""
  }

  /** The same place in the file and on the diff. */
  predicate SameSpot(f: Finding, g: Finding) {
    && f.filePath == g.filePath && f.lineStart == g.lineStart && f.lineEnd == g.lineEnd && f.category == g.category
    && f.diffLine == g.diffLine && f.diffStartLine == g.diffStartLine && f.diffSide == g.diffSide
    && f.isInDiff == g.isInDiff
  }

  predicate NewWins(e: Finding, f: Finding) {
    || ConfidenceRank(f.confidence) > ConfidenceRank(e.confidence)
    || (&& ConfidenceRank(f.confidence) == ConfidenceRank(e.confidence)
        && SeverityRank(f.severity) < SeverityRank(e.severity))
  }

  const ALSO_DETECTED := "Also detected by "

  function Attributed(explanation: string, source: string): string {
    var attribution := ALSO_DETECTED + source + ".";
    if Contains(explanation, attribution) then explanation else explanation + "\n\n" + attribution
  }

  function Merge(e: Finding, f: Finding): Finding {
    var winner := if NewWins(e, f) then f else e;
    var loser := if NewWins(e, f) then e else f;
    e.(title := winner.title,
       severity := HigherSeverity(e.severity, f.severity),
       confidence := HigherConfidence(e.confidence, f.confidence),
       explanation := Attributed(winner.explanation, loser.source),
       remediation := if winner.remediation != "" then winner.remediation else e.remediation,
       source := "merged",
       suggestedFix := Or(winner.suggestedFix, e.suggestedFix),
       rawCategory := Or(winner.rawCategory, e.rawCategory),
       ruleId := Or(winner.ruleId, e.ruleId))
  }

  function AddFinding(family: Family, t: Table, f: Finding): (r: Table)
    requires t.Valid()
    ensures r.Valid()
  {
    match Existing(family, t, f)
    case None => Table(t.keys + [KeyFor(f)], t.entries + [Copy(f)], t.owner + [|t.entries|], t.merged)
    case Some(i) => t.(entries := t.entries[i := Merge(t.entries[i], f)], owner := t.owner + [i], merged := t.merged + 1)
  }

  function Collect(family: Family, findings: seq<Finding>): (t: Table)
    ensures t.Valid()
  {
    if findings == [] then EMPTY
    else AddFinding(family, Collect(family, findings[..|findings| - 1]), findings[|findings| - 1])
  }

  // ----- The loop as it is written -----

  ghost predicate NoneBefore(family: Family, entries: seq<Finding>, f: Finding, n: nat)
    requires n <= |entries|
  {
    forall i :: 0 <= i < n ==> !CrossMatch(family, entries[i], f)
  }

  lemma {:induction false} FirstCross(family: Family, entries: seq<Finding>, f: Finding, n: nat)
    requires n <= |entries| && NoneBefore(family, entries, f, n)
    ensures n < |entries| && CrossMatch(family, entries[n], f) ==> FindCross(family, entries, f) == Some(n)
    ensures n == |entries| ==> FindCross(family, entries, f) == None
  {
    hide CrossMatch;
  }

  /** The entry with the input's own key, or else the first one the cross-source rule lets it join. */
  method LookUp(family: Family, keys: seq<Key>, entries: seq<Finding>, f: Finding) returns (existing: Option<nat>)
    requires |keys| == |entries|
    ensures existing == Existing(family, Table(keys, entries, [], 0), f)
    ensures KeyFor(f) in keys ==> existing.Some? && keys[existing.value] == KeyFor(f)
    ensures KeyFor(f) !in keys && existing.Some? ==>
              CrossMatch(family, entries[existing.value], f) && NoneBefore(family, entries, f, existing.value)
    ensures existing.None? ==> KeyFor(f) !in keys && NoneBefore(family, entries, f, |entries|)
  {
    hide FindKey, FamilyOf, FindCross;
    existing := FindKey(keys, KeyFor(f));
    if existing.None? {
      var fFamily := FamilyOf(family, f);
      var i := 0;
      while i < |entries|
        invariant 0 <= i <= |entries|
        invariant NoneBefore(family, entries, f, i)
      {
        var candidate := entries[i];
        FirstCross(family, entries, f, i);
        if && candidate.filePath == f.filePath
           && candidate.lineStart == f.lineStart
           && candidate.category == f.category
           && candidate.source != f.source
           && candidate.source != "merged"
           && FamilyOf(family, candidate) == fFamily
        {
          existing := Some(i);
          return;
        }
        i := i + 1;
      }
      FirstCross(family, entries, f, i);
    }
  }

  /** Rewrites an entry in place, field by field.  The more confident side gives the text, then the more
      severe one, then the one that was there first; the other side's source is named. */
  method MergeInto(entry: Finding, f: Finding) returns (existing: Finding)
    ensures existing == Merge(entry, f)
    ensures var newer := || ConfidenceRank(f.confidence) > ConfidenceRank(entry.confidence)
                         || (&& ConfidenceRank(f.confidence) == ConfidenceRank(entry.confidence)
                             && SeverityRank(f.severity) < SeverityRank(entry.severity));
            var winner, loser := if newer then f else entry, if newer then entry else f;
            && existing.title == winner.title
            && winner.explanation <= existing.explanation
            && Contains(existing.explanation, "Also detected by " + loser.source + ".")
            && existing.remediation == (if winner.remediation != "" then winner.remediation else entry.remediation)
            && existing.suggestedFix == (if Given(winner.suggestedFix) then winner.suggestedFix else entry.suggestedFix)
            && existing.rawCategory == (if Given(winner.rawCategory) then winner.rawCategory else entry.rawCategory)
            && existing.ruleId == (if Given(winner.ruleId) then winner.ruleId else entry.ruleId)
    ensures existing.source == "merged" && SameSpot(existing, entry)
    ensures SeverityRank(existing.severity) <= SeverityRank(entry.severity)
         && SeverityRank(existing.severity) <= SeverityRank(f.severity)
    ensures ConfidenceRank(existing.confidence) >= ConfidenceRank(entry.confidence)
         && ConfidenceRank(existing.confidence) >= ConfidenceRank(f.confidence)
  {
    hide SeverityRank, ConfidenceRank, Contains, Attributed;
    existing := entry;
    var mergedSeverity := HigherSeverity(existing.severity, f.severity);
    var mergedConfidence := HigherConfidence(existing.confidence, f.confidence);
    var winner, loserSource;
    if ConfidenceRank(f.confidence) > ConfidenceRank(existing.confidence) {
      winner, loserSource := f, existing.source;
    } else if ConfidenceRank(f.confidence) < ConfidenceRank(existing.confidence) {
      winner, loserSource := existing, f.source;
    } else if SeverityRank(f.severity) < SeverityRank(existing.severity) {
      winner, loserSource := f, existing.source;
    } else {
      winner, loserSource := existing, f.source;
    }
    var mergedExplanation := Attributed(winner.explanation, loserSource);
    existing := existing.(title := winner.title);
    existing := existing.(severity := mergedSeverity, confidence := mergedConfidence);
    existing := existing.(explanation := mergedExplanation);
    if winner.remediation != "" {
      existing := existing.(remediation := winner.remediation);
    }
    existing := existing.(source := "merged");
    existing := existing.(suggestedFix := Or(winner.suggestedFix, existing.suggestedFix));
    existing := existing.(rawCategory := Or(winner.rawCategory, existing.rawCategory));
    if winner.ruleId.Some? && winner.ruleId.value != "" {
      existing := existing.(ruleId := winner.ruleId);
    }
    AttributedNames(winner.explanation, loserSource);
  }

  method Deduplicate(family: Family, findings: seq<Finding>) returns (entries: seq<Finding>, merged: nat)
    ensures entries == Collect(family, findings).entries && merged == Collect(family, findings).merged
  {
    hide Merge;
    var keys: seq<Key> := [];
    entries, merged := [], 0;
    var i := 0;
    while i < |findings|
      invariant 0 <= i <= |findings|
      invariant |keys| == |entries|
      invariant Collect(family, findings[..i]) == Table(keys, entries, Collect(family, findings[..i]).owner, merged)
    {
      var f := findings[i];
      assert findings[..i + 1][..i] == findings[..i];
      var existing := LookUp(family, keys, entries, f);
      if existing.None? {
        keys := keys + [KeyFor(f)];
        entries := entries + [Copy(f)];
      } else {
        merged := merged + 1;
        var entry := MergeInto(entries[existing.value], f);
        entries := entries[existing.value := entry];
      }
      i := i + 1;
    }
    assert findings[..|findings|] == findings;
  }

  // ----- The shape of a merge group -----

  /** The inputs that went to entry `e`, in order. */
  function Members(owner: seq<nat>, e: nat): seq<nat> {
    if owner == [] then []
    else
      var n := |owner| - 1;
      Members(owner[..n], e) + if owner[n] == e then [n] else []
  }

  lemma {:induction false} MembersAreOwned(owner: seq<nat>, e: nat)
    ensures forall p :: 0 <= p < |Members(owner, e)| ==>
              Members(owner, e)[p] < |owner| && owner[Members(owner, e)[p]] == e
    ensures forall i :: 0 <= i < |owner| && owner[i] == e ==> i in Members(owner, e)
    ensures forall p, q :: 0 <= p < q < |Members(owner, e)| ==> Members(owner, e)[p] < Members(owner, e)[q]
  {
    if owner != [] {
      MembersAreOwned(owner[..|owner| - 1], e);
    }
  }

  /** What one entry says about the inputs that went to it. */
  ghost predicate GroupShape(family: Family, findings: seq<Finding>, members: seq<nat>, key: Key, entry: Finding)
    requires forall p :: 0 <= p < |members| ==> members[p] < |findings|
  {
    && GroupPlace(family, findings, members, key, entry)
    && GroupRatings(findings, members, entry)
    && AsFirstReported(findings, members, entry)
  }

  /** All inputs are at the key's place, and titles and sources are as the key and the group's size say. */
  ghost predicate GroupPlace(family: Family, findings: seq<Finding>, members: seq<nat>, key: Key, entry: Finding)
    requires forall p :: 0 <= p < |members| ==> members[p] < |findings|
  {
    && members != []
    && key == KeyFor(findings[members[0]])
    && entry.filePath == key.path && entry.lineStart == key.line && entry.category == key.category
    && (forall p :: 0 <= p < |members| ==> SameTriple(findings[members[p]], entry))
    && (entry.source == "merged" <==> |members| >= 2)
    && (|members| >= 2 ==> Contains(entry.explanation, ALSO_DETECTED))
    && (|members| == 1 ==> entry == Copy(findings[members[0]]))
    && (forall p :: 0 <= p < |members| && findings[members[p]].title != key.title ==>
          p == 1 && OtherSourceSameFamily(family, findings[members[0]], findings[members[1]]))
    && (entry.title != key.title ==>
          |members| >= 2 && Retitles(family, findings[members[0]], findings[members[1]]))
  }

  /** The entry spans the lines of its first input and is not on the diff yet; alone, that input is carried over
      in every field. */
  ghost predicate AsFirstReported(findings: seq<Finding>, members: seq<nat>, entry: Finding)
    requires forall p :: 0 <= p < |members| ==> members[p] < |findings|
  {
    members != [] ==>
      var first := findings[members[0]];
      && entry.filePath == first.filePath && entry.lineStart == first.lineStart && entry.lineEnd == first.lineEnd
      && entry.category == first.category
      && entry.diffLine == None && entry.diffStartLine == None && entry.diffSide == "RIGHT" && entry.isInDiff
      && (|members| == 1 ==>
            && entry.severity == first.severity && entry.confidence == first.confidence
            && entry.title == first.title && entry.explanation == first.explanation
            && entry.remediation == first.remediation && entry.source == first.source
            && entry.ruleId == first.ruleId && entry.rawCategory == first.rawCategory
            && entry.suggestedFix == first.suggestedFix)
  }

  /** The ratings are the highest of the group, and the text is that of one of its most confident inputs. */
  ghost predicate GroupRatings(findings: seq<Finding>, members: seq<nat>, entry: Finding)
    requires forall p :: 0 <= p < |members| ==> members[p] < |findings|
  {
    && (forall p :: 0 <= p < |members| ==> RatesAtLeast(entry, findings[members[p]]))
    && (exists p :: 0 <= p < |members| && entry.severity == findings[members[p]].severity)
    && (exists p :: 0 <= p < |members| && entry.confidence == findings[members[p]].confidence)
    && (exists p :: 0 <= p < |members| && SpeaksFor(entry, findings[members[p]]))
  }

  /** Merging the later finding into the earlier one, on its own so far, replaces its title. */
  predicate Retitles(family: Family, earlier: Finding, later: Finding) {
    CrossMatch(family, earlier, later) && earlier.title != later.title && NewWins(earlier, later)
  }

  predicate SameTriple(f: Finding, entry: Finding) {
    f.filePath == entry.filePath && f.lineStart == entry.lineStart && f.category == entry.category
  }

  predicate RatesAtLeast(entry: Finding, f: Finding) {
    && SeverityRank(entry.severity) <= SeverityRank(f.severity)
    && ConfidenceRank(entry.confidence) >= ConfidenceRank(f.confidence)
  }

  /** The entry's text is this input's (where the input has any), and no input of the group was more
      confident. */
  predicate SpeaksFor(entry: Finding, f: Finding) {
    && entry.title == f.title
    && f.explanation <= entry.explanation
    && (f.remediation != "" ==> entry.remediation == f.remediation)
    && Or(f.suggestedFix, entry.suggestedFix) == entry.suggestedFix
    && Or(f.rawCategory, entry.rawCategory) == entry.rawCategory
    && Or(f.ruleId, entry.ruleId) == entry.ruleId
    && ConfidenceRank(entry.confidence) == ConfidenceRank(f.confidence)
  }

  predicate OtherSourceSameFamily(family: Family, a: Finding, b: Finding) {
    a.source != b.source && FamilyOf(family, a) == FamilyOf(family, b)
  }

  /** No input claims to be merged already. */
  predicate Unmerged(findings: seq<Finding>) {
    forall i :: 0 <= i < |findings| ==> findings[i].source != "merged"
  }

  ghost predicate Grouped(family: Family, findings: seq<Finding>, t: Table) {
    && t.Valid()
    && |t.owner| == |findings|
    && |t.entries| + t.merged == |findings|
    && (forall i :: 0 <= i < |findings| ==> t.owner[i] < |t.entries|)
    && (forall a, b :: 0 <= a < b < |t.keys| ==> t.keys[a] != t.keys[b])
    && (forall e :: 0 <= e < |t.entries| ==> EntryExplained(family, findings, t, e))
  }

  ghost predicate EntryExplained(family: Family, findings: seq<Finding>, t: Table, e: nat)
    requires t.Valid() && |t.owner| == |findings| && e < |t.entries|
  {
    MembersAreOwned(t.owner, e);
    GroupShape(family, findings, Members(t.owner, e), t.keys[e], t.entries[e])
  }

  lemma MembersExtend(owner: seq<nat>, i: nat, e: nat)
    ensures Members(owner + [i], e) == Members(owner, e) + if i == e then [|owner|] else []
  {
    assert (owner + [i])[..|owner|] == owner;
  }

  lemma {:induction false} NoMembersBeyond(owner: seq<nat>, e: nat)
    requires forall i :: 0 <= i < |owner| ==> owner[i] < e
    ensures Members(owner, e) == []
  {
    if owner != [] {
      NoMembersBeyond(owner[..|owner| - 1], e);
    }
  }

  /** A group's shape only looks at its own members, so more inputs do not disturb it. */
  lemma {:induction false} ShapeSurvives(family: Family, findings: seq<Finding>, f: Finding, members: seq<nat>,
                                         key: Key, entry: Finding)
    requires forall p :: 0 <= p < |members| ==> members[p] < |findings|
    requires GroupShape(family, findings, members, key, entry)
    ensures GroupShape(family, findings + [f], members, key, entry)
  {
    hide SeverityRank, ConfidenceRank, FamilyOf, SpeaksFor, Contains;
    assert forall p :: 0 <= p < |members| ==> (findings + [f])[members[p]] == findings[members[p]];
  }

  lemma {:induction false} NewEntryShape(family: Family, findings: seq<Finding>, f: Finding)
    requires f.source != "merged"
    ensures GroupShape(family, findings + [f], [|findings|], KeyFor(f), Copy(f))
  {
    hide SeverityRank, ConfidenceRank, FamilyOf;
    var members, all := [|findings|], findings + [f];
    assert all[members[0]] == f;
    assert Copy(f).severity == all[members[0]].severity && Copy(f).confidence == all[members[0]].confidence
        && SpeaksFor(Copy(f), all[members[0]]);
  }

  lemma MergedRatings(e: Finding, f: Finding, g: Finding)
    requires RatesAtLeast(e, g)
    ensures RatesAtLeast(Merge(e, f), g) && RatesAtLeast(Merge(e, f), f)
  {
    hide SeverityRank, ConfidenceRank, Attributed;
  }

  lemma MergedFields(e: Finding, f: Finding)
    ensures var m := Merge(e, f);
            && SameSpot(m, e) && m.source == "merged"
            && (m.severity == e.severity || m.severity == f.severity)
            && (m.confidence == e.confidence || m.confidence == f.confidence)
            && Contains(m.explanation, ALSO_DETECTED)
  {
    hide SeverityRank, ConfidenceRank, Attributed;
    var winner := if NewWins(e, f) then f else e;
    var loser := if NewWins(e, f) then e else f;
    AttributedSaysSo(winner.explanation, loser.source);
  }

  lemma AttributedNames(explanation: string, source: string)
    ensures explanation <= Attributed(explanation, source)
    ensures Contains(Attributed(explanation, source), "Also detected by " + source + ".")
  {
    var attribution := ALSO_DETECTED + source + ".";
    ContainsSuffix(explanation + "\n\n", attribution);
    assert explanation + "\n\n" + attribution == (explanation + "\n\n") + attribution;
  }

  lemma AttributedSaysSo(explanation: string, source: string)
    ensures Contains(Attributed(explanation, source), ALSO_DETECTED)
  {
    var attribution := ALSO_DETECTED + source + ".";
    var a := Attributed(explanation, source);
    ContainsSuffix(explanation + "\n\n", attribution);
    assert explanation + "\n\n" + attribution == (explanation + "\n\n") + attribution;
    var i :| 0 <= i <= |a| && attribution <= a[i..];
    assert ALSO_DETECTED <= attribution;
    assert ALSO_DETECTED <= a[i..];
  }

  lemma MergedText(e: Finding, f: Finding, g: Finding)
    requires SpeaksFor(e, g)
    ensures SpeaksFor(Merge(e, f), if NewWins(e, f) then f else g)
  {
    hide SeverityRank, ConfidenceRank;
  }

  /** Why an input joins an entry: the same key, or the cross-source rule on an entry still unmerged. */
  predicate Joins(family: Family, key: Key, entry: Finding, f: Finding) {
    key == KeyFor(f) || CrossMatch(family, entry, f)
  }

  lemma {:induction false} MergedShape(family: Family, findings: seq<Finding>, f: Finding, members: seq<nat>,
                                       key: Key, entry: Finding)
    requires forall p :: 0 <= p < |members| ==> members[p] < |findings|
    requires GroupShape(family, findings, members, key, entry)
    requires Joins(family, key, entry, f)
    ensures GroupShape(family, findings + [f], members + [|findings|], key, Merge(entry, f))
  {
    hide Merge, GroupPlace, GroupRatings, AsFirstReported, Joins;
    assert members != [] by { SomeMember(family, findings, members, key, entry); }
    MergedPlace(family, findings, f, members, key, entry);
    MergedGroupRatings(findings, f, members, entry);
    MergedSpot(findings, f, members, entry);
  }

  lemma MergedSpot(findings: seq<Finding>, f: Finding, members: seq<nat>, entry: Finding)
    requires forall p :: 0 <= p < |members| ==> members[p] < |findings|
    requires members != [] && AsFirstReported(findings, members, entry)
    ensures AsFirstReported(findings + [f], members + [|findings|], Merge(entry, f))
  {
    hide Merge;
    MergedFields(entry, f);
    assert (findings + [f])[(members + [|findings|])[0]] == findings[members[0]];
  }

  lemma {:induction false} SomeMember(family: Family, findings: seq<Finding>, members: seq<nat>, key: Key, entry: Finding)
    requires forall p :: 0 <= p < |members| ==> members[p] < |findings|
    requires GroupPlace(family, findings, members, key, entry)
    ensures members != []
  {
  }

  lemma {:induction false} MergedPlace(family: Family, findings: seq<Finding>, f: Finding, members: seq<nat>,
                                       key: Key, entry: Finding)
    requires forall p :: 0 <= p < |members| ==> members[p] < |findings|
    requires GroupPlace(family, findings, members, key, entry)
    requires Joins(family, key, entry, f)
    ensures GroupPlace(family, findings + [f], members + [|findings|], key, Merge(entry, f))
  {
    hide Merge, FamilyOf, Contains, Retitles, NewWins, OtherSourceSameFamily, CrossMatch, Copy;
    var all, more := findings + [f], members + [|findings|];
    assert all[more[|members|]] == f;
    assert forall p :: 0 <= p < |members| ==> all[more[p]] == findings[members[p]];
    MergedFields(entry, f);
    JoinedPlace(family, key, entry, f);
    MergedTitle(entry, f);
    if f.title != key.title {
      SecondMember(family, findings[members[0]], entry, f);
    }
  }

  lemma {:induction false} JoinedPlace(family: Family, key: Key, entry: Finding, f: Finding)
    requires Joins(family, key, entry, f)
    requires entry.filePath == key.path && entry.lineStart == key.line && entry.category == key.category
    ensures SameTriple(f, entry)
    ensures f.title != key.title ==> CrossMatch(family, entry, f) && entry.source != "merged"
  {
    hide FamilyOf;
  }

  lemma MergedGroupRatings(findings: seq<Finding>, f: Finding, members: seq<nat>, entry: Finding)
    requires members != [] && forall p :: 0 <= p < |members| ==> members[p] < |findings|
    requires GroupRatings(findings, members, entry)
    ensures GroupRatings(findings + [f], members + [|findings|], Merge(entry, f))
  {
    hide SeverityRank, ConfidenceRank, Merge, RatesAtLeast, SpeaksFor;
    var all, more := findings + [f], members + [|findings|];
    assert all[more[|members|]] == f;
    forall p | 0 <= p < |more| ensures RatesAtLeast(Merge(entry, f), all[more[p]]) {
      if p < |members| {
        MergedRatings(entry, f, findings[members[p]]);
      } else {
        MergedRatings(entry, f, findings[members[0]]);
      }
    }
    MergedWitnesses(findings, f, members, entry);
  }

  /** A title other than the key's can only come from the second finding of a group. */
  lemma {:induction false} SecondMember(family: Family, first: Finding, entry: Finding, f: Finding)
    requires CrossMatch(family, entry, f) && entry == Copy(first)
    ensures OtherSourceSameFamily(family, first, f)
    ensures first.title != f.title && NewWins(entry, f) ==> Retitles(family, first, f)
  {
    hide SeverityRank, ConfidenceRank, FamilyOf;
    CopyMatches(family, first, f);
  }

  /** Only the place on the diff tells a copy from its original. */
  lemma {:induction false} CopyMatches(family: Family, f: Finding, g: Finding)
    ensures FamilyOf(family, Copy(f)) == FamilyOf(family, f) && Copy(f).source == f.source
    ensures CrossMatch(family, Copy(f), g) == CrossMatch(family, f, g) && NewWins(Copy(f), g) == NewWins(f, g)
  {
  }

  lemma MergedTitle(e: Finding, f: Finding)
    ensures Merge(e, f).title == if NewWins(e, f) then f.title else e.title
  {
  }

  lemma MergedWitnesses(findings: seq<Finding>, f: Finding, members: seq<nat>, entry: Finding)
    requires forall p :: 0 <= p < |members| ==> members[p] < |findings|
    requires exists p :: 0 <= p < |members| && entry.severity == findings[members[p]].severity
    requires exists p :: 0 <= p < |members| && entry.confidence == findings[members[p]].confidence
    requires exists p :: 0 <= p < |members| && SpeaksFor(entry, findings[members[p]])
    ensures var all, more, m := findings + [f], members + [|findings|], Merge(entry, f);
            && (exists p :: 0 <= p < |more| && m.severity == all[more[p]].severity)
            && (exists p :: 0 <= p < |more| && m.confidence == all[more[p]].confidence)
            && (exists p :: 0 <= p < |more| && SpeaksFor(m, all[more[p]]))
  {
    hide Merge, SpeaksFor, NewWins;
    MergedFields(entry, f);
    var all, more := findings + [f], members + [|findings|];
    var a :| 0 <= a < |members| && entry.severity == findings[members[a]].severity;
    var b :| 0 <= b < |members| && entry.confidence == findings[members[b]].confidence;
    var c :| 0 <= c < |members| && SpeaksFor(entry, findings[members[c]]);
    MergedText(entry, f, findings[members[c]]);
    assert all[more[|members|]] == f;
    assert all[more[a]] == findings[members[a]] && all[more[b]] == findings[members[b]];
    assert all[more[c]] == findings[members[c]];
  }

  lemma {:induction false} EntryStep(family: Family, findings: seq<Finding>, t: Table, f: Finding, e: nat)
    requires Grouped(family, findings, t) && f.source != "merged"
    requires e < |AddFinding(family, t, f).entries|
    ensures |AddFinding(family, t, f).owner| == |findings + [f]|
    ensures EntryExplained(family, findings + [f], AddFinding(family, t, f), e)
  {
    hide GroupShape, Merge, Copy, FindKey, FindCross, CrossMatch;
    var r, existing := AddFinding(family, t, f), Existing(family, t, f);
    var to := if existing.Some? then existing.value else |t.entries|;
    assert r.owner == t.owner + [to];
    MembersAreOwned(t.owner, e);
    MembersExtend(t.owner, to, e);
    if e == |t.entries| {
      NoMembersBeyond(t.owner, e);
      NewEntryShape(family, findings, f);
      assert Members(r.owner, e) == [|findings|];
    } else {
      assert EntryExplained(family, findings, t, e);
      var members := Members(t.owner, e);
      if existing == Some(e) {
        assert Joins(family, t.keys[e], t.entries[e], f);
        MergedShape(family, findings, f, members, t.keys[e], t.entries[e]);
      } else {
        ShapeSurvives(family, findings, f, members, t.keys[e], t.entries[e]);
        assert Members(r.owner, e) == members;
      }
    }
  }

  lemma {:induction false} AddKeepsGroups(family: Family, findings: seq<Finding>, t: Table, f: Finding)
    requires Grouped(family, findings, t) && f.source != "merged"
    ensures Grouped(family, findings + [f], AddFinding(family, t, f))
  {
    hide EntryExplained, Merge, Copy, FindCross;
    var r := AddFinding(family, t, f);
    forall e | 0 <= e < |r.entries| ensures EntryExplained(family, findings + [f], r, e) {
      EntryStep(family, findings, t, f, e);
    }
  }

  /** Every input goes to exactly one entry; entries and merges add up to the inputs; and each entry has
      the shape above. */
  lemma {:induction false} MergeGroups(family: Family, findings: seq<Finding>)
    requires Unmerged(findings)
    ensures Grouped(family, findings, Collect(family, findings))
  {
    hide AddFinding, EntryExplained;
    if findings != [] {
      var n := |findings| - 1;
      MergeGroups(family, findings[..n]);
      AddKeepsGroups(family, findings[..n], Collect(family, findings[..n]), findings[n]);
      assert findings[..n] + [findings[n]] == findings;
    }
  }

  // ----- When the output is unique by file, line, category and title -----

  ghost predicate UniqueOutput(entries: seq<Finding>) {
    forall a, b :: 0 <= a < b < |entries| ==> KeyFor(entries[a]) != KeyFor(entries[b])
  }

  /** Nothing in the list replaces the title of anything before it. */
  ghost predicate NothingRetitled(family: Family, findings: seq<Finding>) {
    forall i, j :: 0 <= i < j < |findings| ==> !Retitles(family, findings[i], findings[j])
  }

  /** Then every entry keeps the key it is stored under, so no two share file, line, category and title. */
  lemma {:induction false} UniqueWhenNothingRetitled(family: Family, findings: seq<Finding>)
    requires Unmerged(findings) && NothingRetitled(family, findings)
    ensures UniqueOutput(Collect(family, findings).entries)
  {
    hide Retitles, FamilyOf, Collect;
    MergeGroups(family, findings);
    var t := Collect(family, findings);
    forall e | 0 <= e < |t.entries| ensures KeyFor(t.entries[e]) == t.keys[e] {
      MembersAreOwned(t.owner, e);
      assert EntryExplained(family, findings, t, e);
      var members := Members(t.owner, e);
      assert |members| >= 2 ==> !Retitles(family, findings[members[0]], findings[members[1]]);
    }
  }

  /** A replaced title is stored under the old key, so the next finding with that title gets an entry of
      its own beside it. */
  lemma {:induction false} RetitledEntriesCollide(family: Family, f: Finding, g: Finding)
    requires g.source != "merged" && Retitles(family, f, g)
    ensures !UniqueOutput(Collect(family, [f, g, g]).entries)
  {
    hide FamilyOf, NewWins, Attributed;
    var findings := [f, g, g];
    assert findings[..2] == [f, g] && [f, g][..1] == [f] && [f][..0] == [];
    var t1 := AddFinding(family, EMPTY, f);
    assert Collect(family, [f]) == t1;
    CopyMatches(family, f, g);
    assert FindKey(t1.keys, KeyFor(g)) == None by { assert t1.keys[1..] == []; }
    var merged := Merge(Copy(f), g);
    MergedTitle(Copy(f), g);
    var t2 := AddFinding(family, t1, g);
    assert Collect(family, [f, g]) == t2;
    assert t2.keys == t1.keys && t2.entries == [merged] && merged.title == g.title;
    assert FindCross(family, t2.entries, g) == None by { assert t2.entries[1..] == []; }
    var t3 := AddFinding(family, t2, g);
    assert Collect(family, findings) == t3;
    assert t3.entries == [merged, Copy(g)];
    assert KeyFor(t3.entries[0]) == KeyFor(t3.entries[1]);
  }

  /** The output has no duplicates for every list of these findings, in any order and however often each
      occurs, if and only if none of them replaces the title of another. */
  lemma {:induction false} UniqueExactlyWhen(family: Family, pool: iset<Finding>)
    requires forall f :: f in pool ==> f.source != "merged"
    ensures (forall findings: seq<Finding> | (forall f :: f in findings ==> f in pool) ::
               UniqueOutput(Collect(family, findings).entries))
       <==> (forall f, g :: f in pool && g in pool ==> !Retitles(family, f, g))
  {
    hide UniqueOutput, Collect, Retitles;
    if forall f, g :: f in pool && g in pool ==> !Retitles(family, f, g) {
      forall findings: seq<Finding> | forall f :: f in findings ==> f in pool
        ensures UniqueOutput(Collect(family, findings).entries)
      {
        assert forall i :: 0 <= i < |findings| ==> findings[i] in findings;
        UniqueWhenNothingRetitled(family, findings);
      }
    } else {
      var f, g :| f in pool && g in pool && Retitles(family, f, g);
      RetitledEntriesCollide(family, f, g);
      assert forall h :: h in [f, g, g] ==> h in pool;
    }
  }

  /** The findings that come from either of two sources. */
  ghost function SourcedBy(a: string, b: string): iset<Finding> {
    iset f: Finding | f.source == a || f.source == b
  }

  function Sample(title: string, confidence: string, source: string): Finding {
    Finding("f", 1, 1, "low", "A03", title, "", "", confidence, source, None, None, None, None, None, "RIGHT", true)
  }

  /** Whatever the families and the findings, two sources give no duplicates if and only if they are the
      same one (as in AST-only degraded mode). */
  lemma UniqueExactlyForOneSource(a: string, b: string)
    requires a != "merged" && b != "merged"
    ensures (forall family: Family, findings: seq<Finding> | (forall f :: f in findings ==> f in SourcedBy(a, b)) ::
               UniqueOutput(Collect(family, findings).entries))
       <==> a == b
  {
    hide UniqueOutput, Collect;
    if a == b {
      forall family: Family, findings: seq<Finding> | forall f :: f in findings ==> f in SourcedBy(a, b)
        ensures UniqueOutput(Collect(family, findings).entries)
      {
        assert forall f, g :: f in SourcedBy(a, b) && g in SourcedBy(a, b) ==> !Retitles(family, f, g);
        UniqueExactlyWhen(family, SourcedBy(a, b));
      }
    } else {
      var family: Family := (r, t, e, c) => "sql";
      var f, g := Sample("a", "low", a), Sample("b", "high", b);
      assert Lower("low") == "low" && Lower("high") == "high";
      RetitledEntriesCollide(family, f, g);
      assert forall h :: h in [f, g, g] ==> h in SourcedBy(a, b);
    }
  }

  // ----- Ranking and the cap -----

  datatype Outcome = Outcome(kept: seq<Finding>, dropped: seq<Finding>, totalRaw: nat, merged: nat, truncated: nat)

  /** Where Python's `xs[:n]` ends. */
  function CutAt(length: nat, n: int): nat {
    if n >= 0 then (if n < length then n else length) else (if length + n > 0 then length + n else 0)
  }

  predicate IsCritical(f: Finding) {
    Lower(f.severity) == "critical"
  }

  /** Nothing kept ranks below anything dropped. */
  ghost predicate BestKept(kept: seq<Finding>, dropped: seq<Finding>) {
    forall i, j :: 0 <= i < |kept| && 0 <= j < |dropped| ==> KeyLe(KeyOf(kept[i]), KeyOf(dropped[j]))
  }

  /** What is kept and then what is dropped is the stable ranking of the entries, cut somewhere. */
  ghost predicate RankedAndCut(entries: seq<Finding>, kept: seq<Finding>, dropped: seq<Finding>) {
    && (forall i, j :: 0 <= i <= j < |kept + dropped| ==> ComesBefore((kept + dropped)[i], (kept + dropped)[j]))
    && multiset(kept + dropped) == multiset(entries)
    && SameOrderPerKey(kept + dropped, entries)
    && BestKept(kept, dropped)
  }

  lemma CutOfRanking(entries: seq<Finding>, cut: nat)
    requires cut <= |Sort(entries)|
    ensures RankedAndCut(entries, Sort(entries)[..cut], Sort(entries)[cut..])
    ensures |Sort(entries)| == |entries|
  {
    hide Sort, ComesBefore, SameOrderPerKey, BestKept, Sorted;
    var ranked := Sort(entries);
    SortIsStableSort(entries);
    SortedMeans(ranked);
    SameSize(ranked, entries);
    CutKeepsTheBest(ranked, cut);
    assert ranked[..cut] + ranked[cut..] == ranked;
  }

  method DeduplicateAndSort(family: Family, findings: seq<Finding>, maxFindings: int := MAX_REVIEW_COMMENTS)
    returns (r: Outcome)
    ensures var entries := Collect(family, findings).entries;
            && RankedAndCut(entries, r.kept, r.dropped)
            && |r.kept| + |r.dropped| == |entries| && r.truncated == |r.dropped|
            && (maxFindings >= 0 ==> |r.kept| == if |entries| <= maxFindings then |entries| else maxFindings)
            && (maxFindings < 0 ==> |r.kept| == if |entries| + maxFindings > 0 then |entries| + maxFindings else 0)
            && r.totalRaw == |findings| && r.merged == Collect(family, findings).merged
  {
    var entries, merged := Deduplicate(family, findings);
    hide AddFinding, Collect, RankedAndCut, Sort, Sorted, BestKept, IsCritical;
    var ranked := Sort(entries);
    SortIsStableSort(entries);
    CutOfRanking(entries, 0);
    if |ranked| > maxFindings {
      var cut := CutAt(|ranked|, maxFindings);
      var kept, dropped := ranked[..cut], ranked[cut..];
      CutOfRanking(entries, cut);
      CutKeepsTheBest(ranked, cut);
      var criticalDropped := exists d :: d in dropped && IsCritical(d);
      var nonCriticalKept := exists k :: k in kept && !IsCritical(k);
      if criticalDropped && nonCriticalKept {
        // The rebalancing branch: a ranked list never needs it.
        assert false;
      }
      r := Outcome(kept, dropped, |findings|, merged, |dropped|);
    } else {
      CutOfRanking(entries, |ranked|);
      assert ranked[..|ranked|] == ranked && ranked[|ranked|..] == [];
      r := Outcome(ranked, [], |findings|, merged, 0);
    }
  }

  lemma SameSize(xs: seq<Finding>, ys: seq<Finding>)
    requires multiset(xs) == multiset(ys)
    ensures |xs| == |ys|
  {
    assert |multiset(xs)| == |multiset(ys)|;
  }

  /** The rebalancing branch is unreachable: no critical finding is dropped while a lesser one is kept. */
  lemma CutKeepsTheBest(ranked: seq<Finding>, cut: nat)
    requires Sorted(ranked) && cut <= |ranked|
    ensures BestKept(ranked[..cut], ranked[cut..])
    ensures forall k, d :: k in ranked[..cut] && d in ranked[cut..] && IsCritical(d) ==> IsCritical(k)
  {
    forall k, d | k in ranked[..cut] && d in ranked[cut..] && IsCritical(d) ensures IsCritical(k) {
      var i :| 0 <= i < cut && ranked[i] == k;
      var j :| 0 <= j < |ranked[cut..]| && ranked[cut..][j] == d;
      assert KeyLe(KeyOf(ranked[i]), KeyOf(ranked[cut + j]));
      assert SeverityRank(d.severity) == 0;
    }
  }
}
