/**
 Placing findings on lines of the diff that a review comment may be attached to.
 */
module FindingMapper {
  import opened Options
  import opened Text
  import opened LineMapping
  import opened Models
  import opened PatchApplication

  /** Python's `min` over a set, by distance to a target: some element at the least distance, the same
      one each time for the same set.  Which one a tie gives is left open. */
  type Chooser = (set<int>, int) -> int

  function Distance(a: int, b: int): nat {
    if a <= b then b - a else a - b
  }

  ghost predicate PicksNearest(nearest: Chooser) {
    forall s: set<int>, t: int :: s != {} ==>
      nearest(s, t) in s && forall x :: x in s ==> Distance(nearest(s, t), t) <= Distance(x, t)
  }

  function IntText(n: int): string {
    if n < 0 then "-" + Dec(-n) else Dec(n)
  }

  function Note(target: int, placed: int): string {
    "\n\n*(Note: This issue affects line " + IntText(target) + ", placed on nearest changed line " + IntText(placed)
    + ".)*"
  }

  function WithNote(explanation: string, note: string): string {
    if Contains(explanation, note) then explanation else explanation + note
  }

  // ----- The hunk a finding belongs to -----

  predicate Touches(h: DiffHunk, f: Finding) {
    f.lineEnd in h.AllLines() || f.lineStart in h.AllLines()
  }

  function Lookup(files: FileDiffs, path: string): Option<FileDiff> {
    var key := DropSlashes(path);
    if key in files then Some(files[key]) else if path in files then Some(files[path]) else None
  }

  function FirstTouched(hunks: seq<DiffHunk>, f: Finding): Option<DiffHunk> {
    if hunks == [] then None
    else if Touches(hunks[0], f) then Some(hunks[0])
    else FirstTouched(hunks[1..], f)
  }

  function HunkFor(files: FileDiffs, f: Finding): Option<DiffHunk> {
    var file := Lookup(files, f.filePath);
    if file.None? then None else FirstTouched(file.value.hunks, f)
  }

  // ----- Placing one finding -----

  function PlaceIn(nearest: Chooser, h: DiffHunk, f: Finding): Finding {
    var g := f.(isInDiff := true, diffSide := "RIGHT");
    if f.lineEnd in h.modified then
      var start := if f.lineStart < f.lineEnd && f.lineStart in h.AllLines() then Some(f.lineStart) else None;
      g.(diffLine := Some(f.lineEnd), diffStartLine := start)
    else if f.lineEnd in h.context then
      if h.modified != {} then
        var line := nearest(h.modified, f.lineEnd);
        g.(diffLine := Some(line), diffStartLine := None,
           explanation := WithNote(f.explanation, Note(f.lineEnd, line)))
      else g.(isInDiff := false, diffLine := None)
    else if f.lineStart in h.modified then g.(diffLine := Some(f.lineStart), diffStartLine := None)
    else g.(isInDiff := false, diffLine := None)
  }

  function Place(nearest: Chooser, files: FileDiffs, f: Finding): Finding {
    var h := HunkFor(files, f);
    if h.None? then f.(isInDiff := false, diffLine := None, diffStartLine := None)
    else PlaceIn(nearest, h.value, f)
  }

  /** A finding that the mapper changes in place. */
  class FindingObject {
    var data: Finding

    constructor (f: Finding)
      ensures data == f
    {
      data := f;
    }
  }

  method FindHunk(hunks: seq<DiffHunk>, f: Finding) returns (h: Option<DiffHunk>)
    ensures h == FirstTouched(hunks, f)
  {
    var i := 0;
    while i < |hunks|
      invariant 0 <= i <= |hunks|
      invariant FirstTouched(hunks[i..], f) == FirstTouched(hunks, f)
    {
      if f.lineEnd in hunks[i].AllLines() || f.lineStart in hunks[i].AllLines() {
        return Some(hunks[i]);
      }
      assert hunks[i..][1..] == hunks[i + 1..];
      i := i + 1;
    }
    h := None;
  }

  method PlaceObject(nearest: Chooser, files: FileDiffs, f: FindingObject)
    modifies f
    ensures f.data == Place(nearest, files, old(f.data))
  {
    var file := Lookup(files, f.data.filePath);
    if file.None? {
      f.data := f.data.(isInDiff := false, diffLine := None, diffStartLine := None);
      return;
    }
    var target := f.data.lineEnd;
    var start := f.data.lineStart;
    var matched := FindHunk(file.value.hunks, f.data);
    if matched.None? {
      f.data := f.data.(isInDiff := false, diffLine := None, diffStartLine := None);
      return;
    }
    var hunk := matched.value;
    f.data := f.data.(isInDiff := true, diffSide := "RIGHT");
    if target in hunk.modified {
      f.data := f.data.(diffLine := Some(target));
      if start < target && start in hunk.AllLines() {
        f.data := f.data.(diffStartLine := Some(start));
      } else {
        f.data := f.data.(diffStartLine := None);
      }
    } else if target in hunk.context {
      if hunk.modified != {} {
        var line := nearest(hunk.modified, target);
        f.data := f.data.(diffLine := Some(line));
        f.data := f.data.(diffStartLine := None);
        var note := Note(target, line);
        if !Contains(f.data.explanation, note) {
          f.data := f.data.(explanation := f.data.explanation + note);
        }
      } else {
        f.data := f.data.(isInDiff := false);
        f.data := f.data.(diffLine := None);
      }
    } else {
      if start in hunk.modified {
        f.data := f.data.(diffLine := Some(start));
        f.data := f.data.(diffStartLine := None);
      } else {
        f.data := f.data.(isInDiff := false);
        f.data := f.data.(diffLine := None);
      }
    }
  }

  /** The same object may appear twice in the list; placing it twice is placing it once. */
  method MapFindings(nearest: Chooser, findings: seq<FindingObject>, lines: Text)
    modifies findings
    ensures forall f :: f in findings ==> f.data == Place(nearest, Parsed(lines), old(f.data))
  {
    hide Place, Parsed;
    var files := ParseUnifiedDiff(lines);
    for i := 0 to |findings|
      invariant forall f :: f in findings && f in findings[..i] ==> f.data == Place(nearest, files, old(f.data))
      invariant forall f :: f in findings && f !in findings[..i] ==> f.data == old(f.data)
    {
      var f := findings[i];
      PlaceTwice(nearest, files, old(f.data));
      PlaceObject(nearest, files, f);
      assert findings[..i + 1] == findings[..i] + [f];
    }
    assert findings[..|findings|] == findings;
  }

  // ----- Mapping twice -----

  lemma {:induction false} SameLinesSameHunk(hunks: seq<DiffHunk>, f: Finding, g: Finding)
    requires f.lineStart == g.lineStart && f.lineEnd == g.lineEnd
    ensures FirstTouched(hunks, f) == FirstTouched(hunks, g)
  {
    if hunks != [] {
      SameLinesSameHunk(hunks[1..], f, g);
    }
  }

  lemma NoteOnce(explanation: string, note: string)
    ensures WithNote(WithNote(explanation, note), note) == WithNote(explanation, note)
  {
    ContainsSuffix(explanation, note);
  }

  /** Mapping is idempotent, explanations included. */
  lemma {:induction false} PlaceTwice(nearest: Chooser, files: FileDiffs, f: Finding)
    ensures Place(nearest, files, Place(nearest, files, f)) == Place(nearest, files, f)
  {
    hide Note, WithNote, Lookup;
    var g := Place(nearest, files, f);
    var file := Lookup(files, f.filePath);
    if file.Some? {
      SameLinesSameHunk(file.value.hunks, f, g);
      var h := FirstTouched(file.value.hunks, f);
      if h.Some? && h.value.modified != {} {
        NoteOnce(f.explanation, Note(f.lineEnd, nearest(h.value.modified, f.lineEnd)));
      }
    }
  }

  // ----- Mapped comments can be posted -----

  lemma {:induction false} FirstTouchedIsFirst(hunks: seq<DiffHunk>, f: Finding)
    ensures match FirstTouched(hunks, f)
            case None => forall i :: 0 <= i < |hunks| ==> !Meets(hunks[i], f)
            case Some(h) => exists i: nat :: IsFirstTouched(hunks, f, i) && hunks[i] == h
  {
    if hunks != [] && !Touches(hunks[0], f) {
      FirstTouchedIsFirst(hunks[1..], f);
      match FirstTouched(hunks, f)
      case None =>
        assert forall i :: 0 <= i < |hunks| ==> hunks[i] == if i == 0 then hunks[0] else hunks[1..][i - 1];
      case Some(h) =>
        var i: nat :| IsFirstTouched(hunks[1..], f, i) && hunks[1..][i] == h;
        assert forall j :: 0 <= j < i + 1 ==> hunks[j] == if j == 0 then hunks[0] else hunks[1..][j - 1];
        assert IsFirstTouched(hunks, f, i + 1) && hunks[i + 1] == h;
    } else if hunks != [] {
      assert IsFirstTouched(hunks, f, 0);
    }
  }

  /** Some end of the finding is a line of the hunk, added or not. */
  ghost predicate Meets(h: DiffHunk, f: Finding) {
    f.lineStart in h.modified || f.lineStart in h.context || f.lineEnd in h.modified || f.lineEnd in h.context
  }

  ghost predicate IsFirstTouched(hunks: seq<DiffHunk>, f: Finding, i: nat) {
    i < |hunks| && Meets(hunks[i], f) && forall j :: 0 <= j < i ==> !Meets(hunks[j], f)
  }

  predicate IsMapped(f: Finding) {
    f.isInDiff && f.diffLine.Some?
  }

  /** The review API accepts the comment: its line is an added line of the hunk, a context finding sits
      at the least distance and says so, and a multi-line comment spans only lines of that hunk.  A span
      is kept whenever its last line is an added one and its first is in the hunk too. */
  ghost predicate Postable(h: DiffHunk, f: Finding, g: Finding)
    requires IsMapped(g)
  {
    && g.diffSide == "RIGHT"
    && g.diffLine.value in h.modified
    && (f.lineEnd in h.context ==> forall x :: x in h.modified ==>
          Distance(g.diffLine.value, f.lineEnd) <= Distance(x, f.lineEnd))
    && (f.lineEnd in h.modified ==> g.diffLine.value == f.lineEnd)
    && (f.lineEnd in h.context ==> f.explanation <= g.explanation
                                   && Contains(g.explanation, Note(f.lineEnd, g.diffLine.value)))
    && (f.lineEnd !in h.context ==> g.explanation == f.explanation)
    && g.diffStartLine == (if f.lineEnd in h.modified && f.lineStart < f.lineEnd && f.lineStart in h.AllLines()
                           then Some(f.lineStart) else None)
    && (g.diffStartLine.Some? ==>
          && g.diffStartLine.value < g.diffLine.value
          && forall x :: g.diffStartLine.value <= x <= g.diffLine.value ==> x in h.AllLines())
  }

  /** The key under which the parsed diff may know the finding's file: its path without leading slashes, or
      else the path as it stands. */
  ghost function FileKey(files: FileDiffs, f: Finding): string {
    if DropSlashes(f.filePath) in files then DropSlashes(f.filePath) else f.filePath
  }

  /** Nothing but the place on the diff and the explanation differs. */
  ghost predicate SameReport(f: Finding, g: Finding) {
    && g.filePath == f.filePath && g.lineStart == f.lineStart && g.lineEnd == f.lineEnd
    && g.severity == f.severity && g.category == f.category && g.title == f.title && g.remediation == f.remediation
    && g.confidence == f.confidence && g.source == f.source && g.ruleId == f.ruleId
    && g.rawCategory == f.rawCategory && g.suggestedFix == f.suggestedFix
  }

  /** The finding is left for the summary only. */
  ghost predicate Unmapped(f: Finding, g: Finding) {
    !g.isInDiff && g.diffLine == None && g.explanation == f.explanation
  }

  /** A finding is mapped exactly when the first hunk of its own file that it meets has an added line for it,
      and then the comment can be posted on that hunk.  Otherwise, as when the diff does not know its file, it
      gets no line and keeps its explanation. */
  lemma {:induction false} MappedIsPostable(nearest: Chooser, lines: Text, f: Finding)
    requires PicksNearest(nearest)
    ensures var g, files := Place(nearest, Parsed(lines), f), Parsed(lines);
            var key := FileKey(files, f);
            && SameReport(f, g)
            && (IsMapped(g) || Unmapped(f, g))
            && (key !in files ==> Unmapped(f, g) && g.diffStartLine == None)
            && (key in files ==>
                  var hunks := files[key].hunks;
                  && ((forall i :: 0 <= i < |hunks| ==> !Meets(hunks[i], f)) ==>
                        Unmapped(f, g) && g.diffStartLine == None)
                  && (forall i: nat :: IsFirstTouched(hunks, f, i) ==> PlacedIn(hunks[i], f, g)))
  {
    hide Note, WithNote, Contains, Parsed, Postable;
    var files := Parsed(lines);
    var key := FileKey(files, f);
    if key in files {
      var hunks := files[key].hunks;
      FirstTouchedIsFirst(hunks, f);
      forall i: nat | IsFirstTouched(hunks, f, i) ensures PlacedIn(hunks[i], f, Place(nearest, files, f)) {
        FirstTouchedIsUnique(hunks, f, i);
        EveryHunkIsOneInterval(lines, key, i);
        PlaceInHunk(nearest, hunks[i], f);
      }
    }
  }

  lemma FirstTouchedIsUnique(hunks: seq<DiffHunk>, f: Finding, i: nat)
    requires IsFirstTouched(hunks, f, i)
    ensures FirstTouched(hunks, f) == Some(hunks[i])
  {
    FirstTouchedIsFirst(hunks, f);
    if FirstTouched(hunks, f).Some? {
      var j: nat :| IsFirstTouched(hunks, f, j) && hunks[j] == FirstTouched(hunks, f).value;
      assert i == j;
    }
  }

  /** Mapped exactly when the hunk has an added line for the finding, and then as a comment may be posted. */
  ghost predicate PlacedIn(h: DiffHunk, f: Finding, g: Finding) {
    && (IsMapped(g) <==>
          if f.lineEnd in h.modified || f.lineEnd in h.context then h.modified != {} else f.lineStart in h.modified)
    && (IsMapped(g) ==> Postable(h, f, g))
    && (!IsMapped(g) ==> g.diffStartLine == f.diffStartLine)
  }

  lemma {:induction false} PlaceInHunk(nearest: Chooser, h: DiffHunk, f: Finding)
    requires PicksNearest(nearest) && OneInterval(h) && Meets(h, f)
    ensures PlacedIn(h, f, PlaceIn(nearest, h, f))
  {
    hide Note, WithNote, Contains;
    var end :| Covers(h, end);
    if h.modified != {} {
      NoteIsThere(f.explanation, Note(f.lineEnd, nearest(h.modified, f.lineEnd)));
    }
  }

  lemma NoteIsThere(explanation: string, note: string)
    ensures explanation <= WithNote(explanation, note) && Contains(WithNote(explanation, note), note)
  {
    ContainsSuffix(explanation, note);
  }

  // ----- From the patch to the comment -----

  lemma {:induction false} NumbersWithin(body: seq<BodyLine>, n: int)
    ensures forall x :: x in Added(body, n) || x in Unchanged(body, n) ==> n <= x < n + |NewTexts(body)|
  {
    if body != [] {
      var first := if OnNewSide(body[0]) then 1 else 0;
      NumbersWithin(body[1..], n + first);
      assert |NewTexts(body)| == first + |NewTexts(body[1..])|;
      assert Added(body, n) == (if body[0].Add? then {n} else {}) + Added(body[1..], n + first);
      assert Unchanged(body, n) == (if body[0].Ctx? then {n} else {}) + Unchanged(body[1..], n + first);
      forall x | x in Added(body, n) || x in Unchanged(body, n) ensures n <= x < n + |NewTexts(body)| {
        assert x == n || x in Added(body[1..], n + first) || x in Unchanged(body[1..], n + first);
      }
    }
  }

  lemma {:induction false} StartsAfterOutput(orig: seq<string>, pos: nat, out: seq<string>, hunks: seq<Hunk>, b: nat)
    requires pos <= |orig| && Apply(orig, pos, out, hunks).Some? && b < |hunks| && NewTexts(hunks[b].body) != []
    ensures hunks[b].newStart > |out|
    decreases |hunks|
  {
    hide NewTexts, OldTexts;
    var h := hunks[0];
    if b > 0 {
      StartsAfterOutput(orig, Skipped(h) + |OldTexts(h.body)|, out + orig[pos..Skipped(h)] + NewTexts(h.body),
                        hunks[1..], b - 1);
    }
  }

  /** Hunks that apply come in the order of their lines in the new file. */
  lemma {:induction false} HunksAreOrdered(orig: seq<string>, pos: nat, out: seq<string>, hunks: seq<Hunk>, a: nat, b: nat)
    requires pos <= |orig| && Apply(orig, pos, out, hunks).Some? && a < b < |hunks|
    requires NewTexts(hunks[a].body) != [] && NewTexts(hunks[b].body) != []
    ensures hunks[a].newStart + |NewTexts(hunks[a].body)| <= hunks[b].newStart
    decreases |hunks|
  {
    hide NewTexts, OldTexts;
    var h := hunks[0];
    var end, after := Skipped(h) + |OldTexts(h.body)|, out + orig[pos..Skipped(h)] + NewTexts(h.body);
    assert hunks[1..][b - 1] == hunks[b];
    if a == 0 {
      StartsAfterOutput(orig, end, after, hunks[1..], b - 1);
    } else {
      HunksAreOrdered(orig, end, after, hunks[1..], a - 1, b - 1);
    }
  }

  /** The hunk that adds a line is the first to hold its number. */
  lemma {:induction false} HunkIsFirst(hunks: seq<Hunk>, j: nat, k: nat, orig: seq<string>, f: Finding)
    requires Apply(orig, 0, [], hunks).Some?
    requires j < |hunks| && k < |hunks[j].body| && hunks[j].body[k].Add?
    requires f.lineStart == f.lineEnd == NumberOf(hunks[j], k)
    ensures IsFirstTouched(ExpectedHunks(hunks), f, j) && f.lineEnd in Expected(hunks[j]).modified
  {
    hide Apply, Added, Unchanged, NewTexts;
    NumbersOfBody(hunks[j].body, hunks[j].newStart, k);
    forall a | 0 <= a < j ensures !Meets(ExpectedHunks(hunks)[a], f) {
      NumbersWithin(hunks[a].body, hunks[a].newStart);
      if NewTexts(hunks[a].body) != [] {
        HunksAreOrdered(orig, 0, [], hunks, a, j);
      }
    }
  }

  /** No other file of the diff is stored under the key of the i-th. */
  ghost predicate OwnKey(d: seq<FilePatch>, i: nat)
    requires i < |d|
  {
    forall k :: 0 <= k < |d| && k != i ==> Normalize(d[k].newName) != Normalize(d[i].newName)
  }

  lemma {:induction false} OwnHunksOnly(d: seq<FilePatch>, i: nat)
    requires i < |d| && OwnKey(d, i)
    ensures HunksFor(d, Normalize(d[i].newName)) == d[i].hunks
    decreases |d|
  {
    hide Normalize;
    var key := Normalize(d[i].newName);
    if i == 0 {
      assert forall k :: 0 <= k < |d[1..]| ==> d[1..][k] == d[k + 1];
      NoHunksFor(d[1..], key);
    } else {
      assert d[1..][i - 1] == d[i];
      forall k | 0 <= k < |d[1..]| && k != i - 1 ensures Normalize(d[1..][k].newName) != key {
        assert d[1..][k] == d[k + 1];
      }
      OwnHunksOnly(d[1..], i - 1);
    }
  }

  lemma {:induction false} NoHunksFor(d: seq<FilePatch>, key: string)
    requires forall k :: 0 <= k < |d| ==> Normalize(d[k].newName) != key
    ensures HunksFor(d, key) == []
  {
    hide Normalize;
    if d != [] {
      NoHunksFor(d[1..], key);
    }
  }

  /** In a diff that is read back, a finding for a plain path on a line its file's patch adds is placed on that
      very line. */
  lemma {:induction false} AddedLineIsCommented(nearest: Chooser, d: seq<FilePatch>, i: nat, j: nat, k: nat,
                                                orig: seq<string>, f: Finding)
    requires PicksNearest(nearest) && AllSafe(d)
    requires i < |d| && OwnKey(d, i) && Apply(orig, 0, [], d[i].hunks).Some?
    requires PlainPath(f.filePath) && d[i].newName == "b/" + f.filePath
    requires j < |d[i].hunks| && k < |d[i].hunks[j].body| && d[i].hunks[j].body[k].Add?
    requires f.lineStart == f.lineEnd == NumberOf(d[i].hunks[j], k)
    ensures var g := Place(nearest, Parsed(DiffText(d)), f);
            && IsMapped(g) && g.diffLine == Some(f.lineEnd) && g.diffStartLine == None
            && g.explanation == f.explanation && SameReport(f, g)
  {
    hide Normalize, Parsed, DiffText, Place, Apply, AllSafe, Expected, ReadBackKey, PicksNearest, PlainPath, OwnKey,
      NumberOf, IsFirstTouched, PlacedIn, HunksFor, OneInterval;
    var lines, h := DiffText(d), d[i].hunks[j];
    PlainPathIsItsOwnKey(f.filePath);
    SafeIsReadBack(d, i);
    OwnHunksOnly(d, i);
    KnownHunks(d, i, Parsed(lines));
    HunkIsFirst(d[i].hunks, j, k, orig, f);
    EveryHunkIsOneInterval(lines, f.filePath, j);
    PlacedInItsFile(nearest, Parsed(lines), f, j);
    ExpectedAt(d[i].hunks, j);
    DisjointLines(lines, f.filePath, j);
    PostableOnAdded(Expected(h), f, Place(nearest, Parsed(lines), f));
  }

  lemma {:induction false} PlacedInItsFile(nearest: Chooser, files: FileDiffs, f: Finding, i: nat)
    requires PicksNearest(nearest) && PlainPath(f.filePath) && f.filePath in files
    requires IsFirstTouched(files[f.filePath].hunks, f, i) && OneInterval(files[f.filePath].hunks[i])
    ensures PlacedIn(files[f.filePath].hunks[i], f, Place(nearest, files, f)) && SameReport(f, Place(nearest, files, f))
  {
    hide PlaceIn, PlacedIn, OneInterval, DropSlashes, FirstTouched, IsFirstTouched, PicksNearest;
    var hunks := files[f.filePath].hunks;
    PlainPathHasNoSlashes(f.filePath);
    FirstIsTouched(hunks, f, i);
    FirstTouchedIsUnique(hunks, f, i);
    assert HunkFor(files, f) == Some(hunks[i]);
    PlaceInHunk(nearest, hunks[i], f);
    KeepsReport(nearest, hunks[i], f);
  }

  lemma FirstIsTouched(hunks: seq<DiffHunk>, f: Finding, i: nat)
    requires IsFirstTouched(hunks, f, i)
    ensures i < |hunks| && Meets(hunks[i], f)
  {
  }

  lemma {:induction false} KeepsReport(nearest: Chooser, h: DiffHunk, f: Finding)
    ensures SameReport(f, PlaceIn(nearest, h, f))
  {
  }

  lemma DisjointLines(lines: Text, path: string, i: nat)
    requires path in Parsed(lines) && i < |Parsed(lines)[path].hunks|
    ensures Parsed(lines)[path].hunks[i].modified !! Parsed(lines)[path].hunks[i].context
  {
    hide Parsed;
    EveryHunkIsOneInterval(lines, path, i);
  }

  lemma PlainPathHasNoSlashes(path: string)
    requires path != "" && path[0] != '/'
    ensures DropSlashes(path) == path
  {
  }

  lemma KnownHunks(d: seq<FilePatch>, i: nat, files: FileDiffs)
    requires i < |d| && ReadBackKey(map[], files, d, Normalize(d[i].newName))
    requires HunksFor(d, Normalize(d[i].newName)) == d[i].hunks
    ensures Normalize(d[i].newName) in files && files[Normalize(d[i].newName)].hunks == ExpectedHunks(d[i].hunks)
  {
    hide Normalize, ExpectedHunks;
  }

  lemma PostableOnAdded(h: DiffHunk, f: Finding, g: Finding)
    requires PlacedIn(h, f, g) && f.lineStart == f.lineEnd && f.lineEnd in h.modified && f.lineEnd !in h.context
    ensures IsMapped(g) && g.diffLine == Some(f.lineEnd) && g.explanation == f.explanation
    ensures g.diffStartLine == None
  {
  }
}
